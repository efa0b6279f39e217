/** The requested head configuration of nvidia-410.93/nvidia-drm/nvidia-drm-crtc.c: every atomic
    check rewrites parts of a full configuration and raises `changed` flags for them. A display
    engine that copies only the flagged parts must end up with the full configuration. */
module RequestedConfig {
  import opened Options
  import opened Runs

  type NvU32 = x: int | 0 <= x < 0x1_0000_0000
  type NvU16 = x: int | 0 <= x < 0x1_0000
  type Surface = nat
  type Display = nat
  type Mode = nat
  type Crtc = nat

  const PLANE_MAX := 3
  const MAX_CLONE_DISPLAYS := 16

  // ------------------------------------------------------------------ the configuration

  datatype PlaneConfig = PlaneConfig(
    surface: Option<Surface>,
    srcX: NvU16, srcY: NvU16, srcWidth: NvU16, srcHeight: NvU16,
    dstX: NvU16, dstY: NvU16, dstWidth: NvU16, dstHeight: NvU16)

  datatype PlaneFlags = PlaneFlags(surface: bool, srcXY: bool, srcWH: bool, dstXY: bool, dstWH: bool)

  datatype PlaneReq = PlaneReq(config: PlaneConfig, flags: PlaneFlags)

  const NO_FLAGS := PlaneFlags(false, false, false, false, false)

  datatype ModeSet = ModeSet(active: bool, numDisplays: nat, displays: seq<Display>, mode: Mode)

  datatype HeadFlags = HeadFlags(active: bool, displays: bool, mode: bool)

  datatype HeadReq = HeadReq(modeSet: ModeSet, flags: HeadFlags, planes: seq<PlaneReq>)

  function NoDisplays(): (ds: seq<Display>)
    ensures |ds| == MAX_CLONE_DISPLAYS
  {
    seq(MAX_CLONE_DISPLAYS, i => 0)
  }

  predicate WellFormed(req: HeadReq) {
    |req.planes| == PLANE_MAX && |req.modeSet.displays| == MAX_CLONE_DISPLAYS
  }

  /** `plane_state`: the framebuffer, 16.16 fixed-point source, and destination. */
  datatype PlaneState = PlaneState(
    crtc: Option<Crtc>,
    fb: Option<Surface>,
    srcX: NvU32, srcY: NvU32, srcW: NvU32, srcH: NvU32,
    crtcX: int, crtcY: int, crtcW: NvU32, crtcH: NvU32)

  function Integral(x: NvU32): NvU16 {
    x / 0x1_0000
  }

  function Truncate16(x: int): NvU16 {
    x % 0x1_0000
  }

  // ------------------------------------------------------------------ the checks

  /** `nv_drm_crtc_duplicate_req_head_modeset_config`: the configuration without the flags. */
  function Duplicate(req: HeadReq): HeadReq {
    HeadReq(req.modeSet, HeadFlags(false, false, false),
            seq(|req.planes|, i requires 0 <= i < |req.planes| => PlaneReq(req.planes[i].config, NO_FLAGS)))
  }

  /** `plane_req_config_disable`. */
  function DisablePlane(p: PlaneReq): PlaneReq {
    p.(config := p.config.(surface := None), flags := p.flags.(surface := true))
  }

  function ConfigOf(ps: PlaneState): PlaneConfig {
    PlaneConfig(ps.fb,
      Integral(ps.srcX), Integral(ps.srcY), Integral(ps.srcW), Integral(ps.srcH),
      Truncate16(ps.crtcX), Truncate16(ps.crtcY), Truncate16(ps.crtcW), Truncate16(ps.crtcH))
  }

  /** `q` is the integral part of a 16.16 fixed-point number. */
  predicate IntegralPart(q: NvU16, x: NvU32) {
    q * 0x1_0000 <= x < (q + 1) * 0x1_0000
  }

  /** `d` is what 16 bits hold of `x`. */
  predicate Low16(d: NvU16, x: int) {
    (x - d) % 0x1_0000 == 0
  }

  /** The slot shows the framebuffer of the plane, the part of it that the plane asks for, where it asks. */
  predicate ShowsPlane(config: PlaneConfig, ps: PlaneState) {
    && config.surface == ps.fb
    && IntegralPart(config.srcX, ps.srcX) && IntegralPart(config.srcY, ps.srcY)
    && IntegralPart(config.srcWidth, ps.srcW) && IntegralPart(config.srcHeight, ps.srcH)
    && Low16(config.dstX, ps.crtcX) && Low16(config.dstY, ps.crtcY)
    && Low16(config.dstWidth, ps.crtcW) && Low16(config.dstHeight, ps.crtcH)
  }

  /** That leaves one configuration, and it is what an update stores. */
  lemma ShownIsStored(config: PlaneConfig, ps: PlaneState)
    ensures ShowsPlane(config, ps) <==> config == ConfigOf(ps)
  {
  }

  /** `plane_req_config_update`. */
  function UpdatePlane(p: PlaneReq, ps: PlaneState): PlaneReq {
    var was, now := p.config, ConfigOf(ps);
    if ps.fb == None then DisablePlane(p)
    else if was.surface == None then PlaneReq(now, PlaneFlags(true, true, true, true, true))
    else PlaneReq(now, PlaneFlags(true,
      was.srcX != now.srcX || was.srcY != now.srcY,
      was.srcWidth != now.srcWidth || was.srcHeight != now.srcHeight,
      was.dstX != now.dstX || was.dstY != now.dstY,
      was.dstWidth != now.dstWidth || was.dstHeight != now.dstHeight))
  }

  /** One turn of the loop in `nv_drm_plane_atomic_check`, for a plane last on CRTC `was`. */
  function CheckPlane(crtc: Crtc, p: PlaneReq, was: Option<Crtc>, ps: PlaneState): PlaneReq {
    if was == Some(crtc) && was != ps.crtc then DisablePlane(p)
    else if ps.crtc == Some(crtc) then UpdatePlane(p, ps)
    else p
  }

  /** A connector of the update: its new CRTC and the display of the encoder it was detected on. */
  datatype Connector = Connector(crtc: Option<Crtc>, display: Option<Display>)

  datatype Result<T> = Ok(value: T) | Einval

  /** `head_modeset_config_attach_connector` over the connectors of the update that go to `crtc`. */
  function Attach(crtc: Crtc, m: ModeSet, cs: seq<Connector>): (r: Result<ModeSet>)
    requires |m.displays| == MAX_CLONE_DISPLAYS
    ensures r.Ok? ==> r.value.active == m.active && r.value.mode == m.mode && |r.value.displays| == MAX_CLONE_DISPLAYS
    decreases |cs|
  {
    if cs == [] then Ok(m)
    else if cs[0].crtc != Some(crtc) then Attach(crtc, m, cs[1..])
    else if cs[0].display == None || m.numDisplays >= MAX_CLONE_DISPLAYS then Einval
    else
      var displays := m.displays[m.numDisplays := cs[0].display.value];
      Attach(crtc, m.(displays := displays, numDisplays := m.numDisplays + 1), cs[1..])
  }

  datatype CrtcUpdate = CrtcUpdate(
    modeChanged: bool, mode: Mode,
    connectorsChanged: bool,
    activeChanged: bool, active: bool)

  /** `nv_drm_crtc_atomic_check`. */
  function CheckCrtc(crtc: Crtc, req: HeadReq, u: CrtcUpdate, cs: seq<Connector>): (r: Result<HeadReq>)
    requires WellFormed(req)
    ensures r.Ok? ==> WellFormed(r.value)
  {
    var r1 := if u.modeChanged
      then req.(modeSet := req.modeSet.(mode := u.mode), flags := req.flags.(mode := true)) else req;
    var attached := if u.connectorsChanged
      then Attach(crtc, r1.modeSet.(numDisplays := 0, displays := NoDisplays()), cs) else Ok(r1.modeSet);
    if attached.Einval? then Einval else
    var r2 := r1.(modeSet := attached.value, flags := r1.flags.(displays := r1.flags.displays || u.connectorsChanged));
    Ok(if u.activeChanged
       then r2.(modeSet := r2.modeSet.(active := u.active), flags := r2.flags.(active := true)) else r2)
  }

  // ------------------------------------------------------------------ the display engine

  /** What the engine has programmed for a head. */
  datatype HeadView = HeadView(modeSet: ModeSet, planes: seq<PlaneConfig>)

  function Full(req: HeadReq): HeadView {
    HeadView(req.modeSet, seq(|req.planes|, i requires 0 <= i < |req.planes| => req.planes[i].config))
  }

  /** The engine copies the flagged parts of a plane and leaves the others alone. */
  function CopyPlane(view: PlaneConfig, p: PlaneReq): PlaneConfig {
    PlaneConfig(
      if p.flags.surface then p.config.surface else view.surface,
      if p.flags.srcXY then p.config.srcX else view.srcX,
      if p.flags.srcXY then p.config.srcY else view.srcY,
      if p.flags.srcWH then p.config.srcWidth else view.srcWidth,
      if p.flags.srcWH then p.config.srcHeight else view.srcHeight,
      if p.flags.dstXY then p.config.dstX else view.dstX,
      if p.flags.dstXY then p.config.dstY else view.dstY,
      if p.flags.dstWH then p.config.dstWidth else view.dstWidth,
      if p.flags.dstWH then p.config.dstHeight else view.dstHeight)
  }

  function CopyHead(view: HeadView, req: HeadReq): HeadView
    requires |view.planes| == |req.planes|
  {
    HeadView(
      ModeSet(
        if req.flags.active then req.modeSet.active else view.modeSet.active,
        if req.flags.displays then req.modeSet.numDisplays else view.modeSet.numDisplays,
        if req.flags.displays then req.modeSet.displays else view.modeSet.displays,
        if req.flags.mode then req.modeSet.mode else view.modeSet.mode),
      seq(|req.planes|, i requires 0 <= i < |req.planes| => CopyPlane(view.planes[i], req.planes[i])))
  }

  /** The flagged parts of `req` are enough to bring `view` up to `req`. */
  predicate PlaneDelta(view: PlaneConfig, p: PlaneReq) {
    CopyPlane(view, p) == p.config
  }

  predicate HeadDelta(view: HeadView, req: HeadReq) {
    |view.planes| == |req.planes| && CopyHead(view, req) == Full(req)
  }

  // ------------------------------------------------------------------ one check

  lemma DisableKeepsDelta(view: PlaneConfig, p: PlaneReq)
    requires PlaneDelta(view, p)
    ensures PlaneDelta(view, DisablePlane(p))
  {
  }

  /** An update compares with the configuration it finds, not with what the engine has, and drops
      the flags it finds. So it is safe exactly when each group of fields either differs from what
      it finds, or is what the engine has; finding the slot empty makes every update safe. */
  lemma UpdateKeepsDelta(view: PlaneConfig, p: PlaneReq, ps: PlaneState)
    requires PlaneDelta(view, p) && ps.fb.Some?
    ensures PlaneDelta(view, UpdatePlane(p, ps)) <==>
      var was, now := p.config, ConfigOf(ps);
      was.surface == None ||
      (&& ((now.srcX, now.srcY) != (was.srcX, was.srcY) || (now.srcX, now.srcY) == (view.srcX, view.srcY))
       && ((now.srcWidth, now.srcHeight) != (was.srcWidth, was.srcHeight)
           || (now.srcWidth, now.srcHeight) == (view.srcWidth, view.srcHeight))
       && ((now.dstX, now.dstY) != (was.dstX, was.dstY) || (now.dstX, now.dstY) == (view.dstX, view.dstY))
       && ((now.dstWidth, now.dstHeight) != (was.dstWidth, was.dstHeight)
           || (now.dstWidth, now.dstHeight) == (view.dstWidth, view.dstHeight)))
  {
  }

  /** Why the DRM core must check each plane of an update only once, as it does: a second, identical
      check would drop the first one's flags, and the engine would be brought up to date only if source
      and destination did not change at all. */
  lemma RepeatedCheckLosesChanges(view: PlaneConfig, ps: PlaneState)
    requires ps.fb.Some?
    ensures var twice := UpdatePlane(UpdatePlane(PlaneReq(view, NO_FLAGS), ps), ps);
      PlaneDelta(view, twice) <==> ConfigOf(ps) == view.(surface := ps.fb)
  {
  }

  lemma CrtcCheckKeepsDelta(view: HeadView, crtc: Crtc, req: HeadReq, u: CrtcUpdate, cs: seq<Connector>)
    requires WellFormed(req) && HeadDelta(view, req)
    ensures CheckCrtc(crtc, req, u, cs).Ok? ==> HeadDelta(view, CheckCrtc(crtc, req, u, cs).value)
  {
    if CheckCrtc(crtc, req, u, cs).Ok? {
      var r := CheckCrtc(crtc, req, u, cs).value;
      assert r.planes == req.planes;
      assert CopyHead(view, r).planes == CopyHead(view, req).planes == Full(req).planes == Full(r).planes;
      assert CopyHead(view, req).modeSet == Full(req).modeSet;
    }
  }

  // ------------------------------------------------------------------ whole updates

  /** One plane of the update: its slot, the CRTC it was last on, and its new state. */
  datatype PlaneCheck = PlaneCheck(slot: nat, was: Option<Crtc>, ps: PlaneState)

  /** An atomic update: the CRTCs it affects, the planes in the order they are checked, whether it
      goes on to be committed, and whether the engine then accepts it. */
  datatype Update = Update(
    crtcs: map<Crtc, CrtcUpdate>,
    planes: seq<PlaneCheck>,
    connectors: seq<Connector>,
    commit: bool,
    accepted: bool)

  predicate Concerns(c: PlaneCheck, crtc: Crtc) {
    c.was == Some(crtc) || c.ps.crtc == Some(crtc)
  }

  /** The DRM core checks each plane of an update once, and a plane belongs to one CRTC. */
  predicate OncePerSlot(crtc: Crtc, checks: seq<PlaneCheck>) {
    && (forall i :: 0 <= i < |checks| ==> checks[i].slot < PLANE_MAX)
    && (forall i, j :: 0 <= i < j < |checks| && Concerns(checks[i], crtc) && Concerns(checks[j], crtc) ==>
          checks[i].slot != checks[j].slot)
  }

  function CheckSlot(crtc: Crtc, req: HeadReq, c: PlaneCheck): HeadReq
    requires c.slot < |req.planes|
  {
    req.(planes := req.planes[c.slot := CheckPlane(crtc, req.planes[c.slot], c.was, c.ps)])
  }

  function CheckPlanes(crtc: Crtc, req: HeadReq, checks: seq<PlaneCheck>): (r: HeadReq)
    requires WellFormed(req)
    requires forall i :: 0 <= i < |checks| ==> checks[i].slot < PLANE_MAX
    ensures WellFormed(r)
    decreases |checks|
  {
    if checks == [] then req else CheckPlanes(crtc, CheckSlot(crtc, req, checks[0]), checks[1..])
  }

  /** The state the check builds for one CRTC. */
  function Checked(crtc: Crtc, req: HeadReq, u: Update): (r: Result<HeadReq>)
    requires WellFormed(req) && crtc in u.crtcs && OncePerSlot(crtc, u.planes)
    ensures r.Ok? ==> WellFormed(r.value)
  {
    CheckCrtc(crtc, CheckPlanes(crtc, Duplicate(req), u.planes), u.crtcs[crtc], u.connectors)
  }

  datatype State = State(current: map<Crtc, HeadReq>, engine: map<Crtc, HeadView>)

  predicate Ready(s: State, u: Update) {
    forall c :: c in u.crtcs ==>
      && c in s.current && WellFormed(s.current[c])
      && c in s.engine && |s.engine[c].planes| == PLANE_MAX
      && OncePerSlot(c, u.planes)
  }

  predicate Succeeds(s: State, u: Update)
    requires Ready(s, u)
  {
    u.commit && forall c :: c in u.crtcs ==> Checked(c, s.current[c], u).Ok?
  }

  /** A failed or discarded check leaves both sides alone. A commit installs the new states and
      hands the engine the heads it affects; if the engine refuses, the states stay installed. */
  function Step(s: State, u: Update): State {
    if !Ready(s, u) || !Succeeds(s, u) then s else
    var installed := s.(current := s.current + map c | c in u.crtcs :: Checked(c, s.current[c], u).value);
    if !u.accepted then installed else
    installed.(engine := s.engine + map c | c in u.crtcs :: CopyHead(s.engine[c], Checked(c, s.current[c], u).value))
  }

  ghost predicate InSync(s: State) {
    && s.current.Keys == s.engine.Keys
    && forall c {:trigger HeadInSync(s, c)} :: c in s.current ==> HeadInSync(s, c)
  }

  ghost predicate HeadInSync(s: State, c: Crtc)
    requires c in s.current && c in s.engine
  {
    WellFormed(s.current[c]) && s.engine[c] == Full(s.current[c])
  }

  lemma DuplicateIsClean(req: HeadReq)
    requires WellFormed(req)
    ensures WellFormed(Duplicate(req)) && HeadDelta(Full(req), Duplicate(req)) && Full(Duplicate(req)) == Full(req)
  {
  }

  lemma SlotCheckKeepsDelta(view: HeadView, crtc: Crtc, req: HeadReq, c: PlaneCheck)
    requires WellFormed(req) && HeadDelta(view, req) && c.slot < PLANE_MAX
    requires Concerns(c, crtc) ==> req.planes[c.slot].config == view.planes[c.slot]
    ensures HeadDelta(view, CheckSlot(crtc, req, c))
  {
    var r := CheckSlot(crtc, req, c);
    assert CopyHead(view, req).modeSet == Full(req).modeSet;
    forall i | 0 <= i < PLANE_MAX ensures CopyPlane(view.planes[i], r.planes[i]) == r.planes[i].config {
      assert CopyHead(view, req).planes[i] == Full(req).planes[i];
    }
  }

  lemma {:induction false} PlaneChecksKeepDelta(view: HeadView, crtc: Crtc, req: HeadReq, checks: seq<PlaneCheck>)
    requires WellFormed(req) && HeadDelta(view, req) && OncePerSlot(crtc, checks)
    requires forall i :: 0 <= i < |checks| && Concerns(checks[i], crtc) ==>
               req.planes[checks[i].slot].config == view.planes[checks[i].slot]
    ensures HeadDelta(view, CheckPlanes(crtc, req, checks))
    decreases |checks|
  {
    if checks != [] {
      SlotCheckKeepsDelta(view, crtc, req, checks[0]);
      PlaneChecksKeepDelta(view, crtc, CheckSlot(crtc, req, checks[0]), checks[1..]);
    }
  }

  /** Whatever an update asks for, its flags tell the engine everything that it changes. */
  lemma CheckedIsDelta(crtc: Crtc, req: HeadReq, u: Update)
    requires WellFormed(req) && crtc in u.crtcs && OncePerSlot(crtc, u.planes)
    ensures Checked(crtc, req, u).Ok? ==> HeadDelta(Full(req), Checked(crtc, req, u).value)
  {
    DuplicateIsClean(req);
    forall i | 0 <= i < |u.planes|
      ensures Duplicate(req).planes[u.planes[i].slot].config == Full(req).planes[u.planes[i].slot] {}
    PlaneChecksKeepDelta(Full(req), crtc, Duplicate(req), u.planes);
    CrtcCheckKeepsDelta(Full(req), crtc, CheckPlanes(crtc, Duplicate(req), u.planes), u.crtcs[crtc], u.connectors);
  }

  lemma HeadAfterUpdate(s: State, u: Update, c: Crtc)
    requires Ready(s, u) && Succeeds(s, u) && c in u.crtcs && HeadInSync(s, c)
    ensures var s' := Step(s, u);
      && c in s'.current && c in s'.engine && WellFormed(s'.current[c])
      && s'.engine[c] == if u.accepted then Full(s'.current[c]) else Full(s.current[c])
  {
    CheckedIsDelta(c, s.current[c], u);
  }

  lemma UpdateKeepsHeads(s: State, u: Update)
    ensures Step(s, u).current.Keys == s.current.Keys && Step(s, u).engine.Keys == s.engine.Keys
  {
  }

  lemma HeadStaysInSync(s: State, u: Update, c: Crtc)
    requires InSync(s) && c in s.current
    ensures var s' := Step(s, u);
      && c in s'.current && c in s'.engine
      && (HeadInSync(s', c) <==> u.accepted || Full(s'.current[c]) == Full(s.current[c]))
  {
    assert HeadInSync(s, c);
    if Ready(s, u) && Succeeds(s, u) && c in u.crtcs {
      HeadAfterUpdate(s, u, c);
    }
  }

  // ------------------------------------------------------------------ what an update changes and sends

  /** The displays of the connectors that go to `crtc`, in order. */
  function Wanted(crtc: Crtc, cs: seq<Connector>): seq<Display> {
    if cs == [] then []
    else (if cs[0].crtc == Some(crtc) && cs[0].display.Some? then [cs[0].display.value] else []) + Wanted(crtc, cs[1..])
  }

  predicate HaveDisplays(crtc: Crtc, cs: seq<Connector>) {
    forall i :: 0 <= i < |cs| && cs[i].crtc == Some(crtc) ==> cs[i].display.Some?
  }

  predicate CanAttach(crtc: Crtc, cs: seq<Connector>) {
    HaveDisplays(crtc, cs) && |Wanted(crtc, cs)| <= MAX_CLONE_DISPLAYS
  }

  lemma HaveDisplaysFirst(crtc: Crtc, cs: seq<Connector>)
    requires cs != []
    ensures HaveDisplays(crtc, cs) <==>
              (cs[0].crtc == Some(crtc) ==> cs[0].display.Some?) && HaveDisplays(crtc, cs[1..])
  {
    assert forall i :: 0 < i < |cs| ==> cs[i] == cs[1..][i - 1];
  }

  function Padded(ds: seq<Display>): seq<Display>
    requires |ds| <= MAX_CLONE_DISPLAYS
  {
    seq(MAX_CLONE_DISPLAYS, i requires 0 <= i < MAX_CLONE_DISPLAYS => if i < |ds| then ds[i] else 0)
  }

  lemma PaddedGrows(had: seq<Display>, d: Display)
    requires |had| < MAX_CLONE_DISPLAYS
    ensures Padded(had)[|had| := d] == Padded(had + [d])
  {
  }

  /** Attaching appends the displays of the connectors, and fails exactly if one has none or they do not
      all fit. */
  lemma {:induction false} AttachAppends(crtc: Crtc, m: ModeSet, had: seq<Display>, cs: seq<Connector>)
    requires |had| == m.numDisplays <= MAX_CLONE_DISPLAYS && m.displays == Padded(had)
    ensures Attach(crtc, m, cs).Ok? <==> HaveDisplays(crtc, cs) && |had + Wanted(crtc, cs)| <= MAX_CLONE_DISPLAYS
    ensures Attach(crtc, m, cs).Ok? ==>
      Attach(crtc, m, cs).value.numDisplays == |had + Wanted(crtc, cs)|
      && Attach(crtc, m, cs).value.displays == Padded(had + Wanted(crtc, cs))
    decreases |cs|
  {
    if cs == [] {
      assert had + [] == had;
    } else {
      HaveDisplaysFirst(crtc, cs);
      if cs[0].crtc != Some(crtc) {
        assert [] + Wanted(crtc, cs[1..]) == Wanted(crtc, cs);
        AttachAppends(crtc, m, had, cs[1..]);
      } else if cs[0].display.Some? && m.numDisplays < MAX_CLONE_DISPLAYS {
        var d := cs[0].display.value;
        var m' := AttachOne(crtc, m, had, cs);
        assert (had + [d]) + Wanted(crtc, cs[1..]) == had + ([d] + Wanted(crtc, cs[1..]));
        AttachAppends(crtc, m', had + [d], cs[1..]);
      }
    }
  }

  lemma AttachOne(crtc: Crtc, m: ModeSet, had: seq<Display>, cs: seq<Connector>) returns (m': ModeSet)
    requires |had| == m.numDisplays < MAX_CLONE_DISPLAYS && m.displays == Padded(had)
    requires cs != [] && cs[0].crtc == Some(crtc) && cs[0].display.Some?
    ensures m'.numDisplays == m.numDisplays + 1 && m'.displays == Padded(had + [cs[0].display.value])
    ensures Attach(crtc, m, cs) == Attach(crtc, m', cs[1..])
    ensures Wanted(crtc, cs) == [cs[0].display.value] + Wanted(crtc, cs[1..])
  {
    PaddedGrows(had, cs[0].display.value);
    m' := m.(displays := m.displays[m.numDisplays := cs[0].display.value], numDisplays := m.numDisplays + 1);
  }

  /** So the CRTC check fails exactly if new connectors cannot be attached. */
  lemma CheckFailsIff(crtc: Crtc, req: HeadReq, u: Update)
    requires WellFormed(req) && crtc in u.crtcs && OncePerSlot(crtc, u.planes)
    ensures Checked(crtc, req, u).Ok? <==> (u.crtcs[crtc].connectorsChanged ==> CanAttach(crtc, u.connectors))
    ensures Checked(crtc, req, u).Ok? && u.crtcs[crtc].connectorsChanged ==>
      && Checked(crtc, req, u).value.modeSet.numDisplays == |Wanted(crtc, u.connectors)|
      && Checked(crtc, req, u).value.modeSet.displays == Padded(Wanted(crtc, u.connectors))
  {
    var r := CheckPlanes(crtc, Duplicate(req), u.planes);
    var cu := u.crtcs[crtc];
    var m := if cu.modeChanged then r.modeSet.(mode := cu.mode) else r.modeSet;
    assert NoDisplays() == Padded([]);
    assert [] + Wanted(crtc, u.connectors) == Wanted(crtc, u.connectors);
    AttachAppends(crtc, m.(numDisplays := 0, displays := NoDisplays()), [], u.connectors);
  }

  /** Plane checks do not touch the mode set, and a slot is what its one check, if any, makes of it. */
  lemma {:induction false} PlanesChecked(crtc: Crtc, req: HeadReq, checks: seq<PlaneCheck>, slot: nat)
    requires WellFormed(req) && OncePerSlot(crtc, checks) && slot < PLANE_MAX
    ensures var r := CheckPlanes(crtc, req, checks);
      && r.modeSet == req.modeSet && r.flags == req.flags
      && (forall i :: 0 <= i < |checks| && checks[i].slot == slot && Concerns(checks[i], crtc) ==>
            r.planes[slot] == CheckPlane(crtc, req.planes[slot], checks[i].was, checks[i].ps))
      && ((forall i :: 0 <= i < |checks| && checks[i].slot == slot ==> !Concerns(checks[i], crtc)) ==>
            r.planes[slot] == req.planes[slot])
    decreases |checks|
  {
    if checks != [] {
      PlanesChecked(crtc, CheckSlot(crtc, req, checks[0]), checks[1..], slot);
      assert forall i :: 0 < i < |checks| ==> checks[i] == checks[1..][i - 1];
    }
  }

  predicate At(c: PlaneCheck, crtc: Crtc, slot: nat) {
    c.slot == slot && Concerns(c, crtc)
  }

  /** The plane leaves the CRTC, or stays without a framebuffer. */
  predicate Blanks(c: PlaneCheck, crtc: Crtc) {
    c.ps.crtc != Some(crtc) || c.ps.fb == None
  }

  /** The check asks for what is stored in the slot already. */
  predicate AsksSame(c: PlaneCheck, crtc: Crtc, stored: PlaneConfig) {
    if Blanks(c, crtc) then stored.surface == None else ConfigOf(c.ps) == stored
  }

  ghost predicate KeepsModeSet(crtc: Crtc, m: ModeSet, u: Update)
    requires crtc in u.crtcs
  {
    var cu := u.crtcs[crtc];
    && (cu.modeChanged ==> cu.mode == m.mode)
    && (cu.activeChanged ==> cu.active == m.active)
    && (cu.connectorsChanged ==>
          CanAttach(crtc, u.connectors)
          && m.numDisplays == |Wanted(crtc, u.connectors)| && m.displays == Padded(Wanted(crtc, u.connectors)))
  }

  ghost predicate KeepsSlot(crtc: Crtc, stored: PlaneConfig, u: Update, slot: nat) {
    forall i :: 0 <= i < |u.planes| && At(u.planes[i], crtc, slot) ==> AsksSame(u.planes[i], crtc, stored)
  }

  /** The update asks of a head nothing but what is stored already. */
  ghost predicate KeepsHead(crtc: Crtc, req: HeadReq, u: Update)
    requires WellFormed(req) && crtc in u.crtcs
  {
    && KeepsModeSet(crtc, req.modeSet, u)
    && forall slot :: 0 <= slot < PLANE_MAX ==> KeepsSlot(crtc, req.planes[slot].config, u, slot)
  }

  /** Two checks of the same slot of the same CRTC are one. */
  lemma OneCheckAt(crtc: Crtc, checks: seq<PlaneCheck>, slot: nat, i: nat, j: nat)
    requires OncePerSlot(crtc, checks) && i < |checks| && j < |checks|
    requires At(checks[i], crtc, slot) && At(checks[j], crtc, slot)
    ensures i == j
  {
  }

  lemma SlotKeptIff(crtc: Crtc, req: HeadReq, u: Update, slot: nat)
    requires WellFormed(req) && OncePerSlot(crtc, u.planes) && slot < PLANE_MAX
    ensures CheckPlanes(crtc, Duplicate(req), u.planes).planes[slot].config == req.planes[slot].config
       <==> KeepsSlot(crtc, req.planes[slot].config, u, slot)
  {
    PlanesChecked(crtc, Duplicate(req), u.planes, slot);
    if i :| 0 <= i < |u.planes| && At(u.planes[i], crtc, slot) {
      CheckKeptIff(crtc, Duplicate(req).planes[slot], u.planes[i]);
      forall j | 0 <= j < |u.planes| && At(u.planes[j], crtc, slot)
        ensures j == i
      {
        OneCheckAt(crtc, u.planes, slot, i, j);
      }
    }
  }

  lemma CheckKeptIff(crtc: Crtc, p: PlaneReq, c: PlaneCheck)
    requires Concerns(c, crtc)
    ensures CheckPlane(crtc, p, c.was, c.ps).config == p.config <==> AsksSame(c, crtc, p.config)
  {
  }

  lemma ModeSetKeptIff(crtc: Crtc, req: HeadReq, u: Update)
    requires WellFormed(req) && crtc in u.crtcs && OncePerSlot(crtc, u.planes) && Checked(crtc, req, u).Ok?
    ensures Checked(crtc, req, u).value.modeSet == req.modeSet <==> KeepsModeSet(crtc, req.modeSet, u)
  {
    CheckFailsIff(crtc, req, u);
    PlanesChecked(crtc, Duplicate(req), u.planes, 0);
  }

  /** A check that succeeds keeps a head exactly if the update asks for what is stored. */
  lemma HeadKeptIff(crtc: Crtc, req: HeadReq, u: Update)
    requires WellFormed(req) && crtc in u.crtcs && OncePerSlot(crtc, u.planes) && Checked(crtc, req, u).Ok?
    ensures Full(Checked(crtc, req, u).value) == Full(req) <==> KeepsHead(crtc, req, u)
  {
    var r, planes := Checked(crtc, req, u).value, CheckPlanes(crtc, Duplicate(req), u.planes);
    ModeSetKeptIff(crtc, req, u);
    assert r.planes == planes.planes;
    forall slot | 0 <= slot < PLANE_MAX
      ensures r.planes[slot].config == req.planes[slot].config <==> KeepsSlot(crtc, req.planes[slot].config, u, slot)
    {
      SlotKeptIff(crtc, req, u, slot);
    }
    if Full(r) == Full(req) {
      forall slot | 0 <= slot < PLANE_MAX
        ensures KeepsSlot(crtc, req.planes[slot].config, u, slot)
      {
        assert Full(r).planes[slot] == Full(req).planes[slot];
      }
    }
    if KeepsHead(crtc, req, u) {
      assert forall slot :: 0 <= slot < PLANE_MAX ==> KeepsSlot(crtc, req.planes[slot].config, u, slot);
      assert Full(r).planes == Full(req).planes;
    }
  }

  /** What a check makes of a slot. */
  predicate AsAsked(crtc: Crtc, c: PlaneCheck, was: PlaneConfig, now: PlaneConfig) {
    if c.ps.crtc == Some(crtc) && c.ps.fb.Some? then ShowsPlane(now, c.ps)
    else if Concerns(c, crtc) then now == was.(surface := None)
    else now == was
  }

  lemma CheckedAsAsked(crtc: Crtc, p: PlaneReq, c: PlaneCheck)
    ensures AsAsked(crtc, c, p.config, CheckPlane(crtc, p, c.was, c.ps).config)
  {
    ShownIsStored(ConfigOf(c.ps), c.ps);
  }

  /** What an update that passes its check asks of a plane is stored: shown, as asked for, on the CRTC it
      is on, and blank on the one it leaves. */
  lemma PlaneStoredAsAsked(crtc: Crtc, req: HeadReq, u: Update, i: nat)
    requires WellFormed(req) && crtc in u.crtcs && OncePerSlot(crtc, u.planes) && Checked(crtc, req, u).Ok?
    requires i < |u.planes| && Concerns(u.planes[i], crtc)
    ensures var slot := u.planes[i].slot;
            AsAsked(crtc, u.planes[i], req.planes[slot].config, Checked(crtc, req, u).value.planes[slot].config)
  {
    var slot := u.planes[i].slot;
    PlanesChecked(crtc, Duplicate(req), u.planes, slot);
    CheckedAsAsked(crtc, Duplicate(req).planes[slot], u.planes[i]);
    assert Checked(crtc, req, u).value.planes == CheckPlanes(crtc, Duplicate(req), u.planes).planes;
  }

  /** And what it asks of the mode and of the power state; of the displays that is `CheckFailsIff`. */
  lemma ModeStoredAsAsked(crtc: Crtc, req: HeadReq, u: Update)
    requires WellFormed(req) && crtc in u.crtcs && OncePerSlot(crtc, u.planes) && Checked(crtc, req, u).Ok?
    ensures var was, now, cu := req.modeSet, Checked(crtc, req, u).value.modeSet, u.crtcs[crtc];
      && now.mode == (if cu.modeChanged then cu.mode else was.mode)
      && now.active == (if cu.activeChanged then cu.active else was.active)
      && (!cu.connectorsChanged ==> now.numDisplays == was.numDisplays && now.displays == was.displays)
  {
    PlanesChecked(crtc, Duplicate(req), u.planes, 0);
  }

  /** An update reaches its heads exactly if it goes on to be committed and every head of it passes its check;
      otherwise, checked only or failed, it leaves both sides alone. */
  lemma CommitsIff(s: State, u: Update)
    requires Ready(s, u)
    ensures
      var all := u.commit && forall c :: c in u.crtcs && u.crtcs[c].connectorsChanged ==> CanAttach(c, u.connectors);
      && (forall c :: Commits(s, u, c) <==> c in u.crtcs && all)
      && (!all ==> Step(s, u) == s)
  {
    forall c | c in u.crtcs
      ensures Checked(c, s.current[c], u).Ok? <==> (u.crtcs[c].connectorsChanged ==> CanAttach(c, u.connectors))
    {
      CheckFailsIff(c, s.current[c], u);
    }
  }

  /** A commit stores what its check has built, on every head of the update and on no other. */
  lemma CommitStores(s: State, u: Update, c: Crtc)
    requires c in s.current
    ensures c in Step(s, u).current
    ensures Commits(s, u, c) ==> Step(s, u).current[c] == Checked(c, s.current[c], u).value
    ensures !Commits(s, u, c) ==> Step(s, u).current[c] == s.current[c]
  {
  }

  /** One update, in sync before: in sync after if and only if the engine accepted it, or it was not
      committed or failed its check, or it asked of every head only what was stored there. */
  lemma StepStaysInSync(s: State, u: Update)
    requires InSync(s)
    ensures Step(s, u).current.Keys == s.current.Keys
    ensures InSync(Step(s, u)) <==>
      u.accepted || !Ready(s, u) || !Succeeds(s, u) || forall c :: c in u.crtcs ==> KeepsHead(c, s.current[c], u)
  {
    UpdateKeepsHeads(s, u);
    forall c | c in s.current
      ensures HeadInSync(Step(s, u), c) <==> u.accepted || !Commits(s, u, c) || KeepsHead(c, s.current[c], u)
    {
      HeadInSyncIff(s, u, c);
    }
  }

  /** The update is committed and reaches head `c`. */
  ghost predicate Commits(s: State, u: Update, c: Crtc) {
    Ready(s, u) && Succeeds(s, u) && c in u.crtcs
  }

  lemma HeadInSyncIff(s: State, u: Update, c: Crtc)
    requires InSync(s) && c in s.current
    ensures c in Step(s, u).current && c in Step(s, u).engine
    ensures HeadInSync(Step(s, u), c) <==> u.accepted || !Commits(s, u, c) || KeepsHead(c, s.current[c], u)
  {
    HeadStaysInSync(s, u, c);
    if Commits(s, u, c) {
      HeadKeptIff(c, s.current[c], u);
    }
  }

  /** Over any run of updates, checked only, failed or committed, through disabling and enabling: if
      the engine refuses no commit, it is at every moment programmed with the full configuration. */
  lemma {:induction false} RunStaysInSync(s: State, us: seq<Update>)
    requires InSync(s)
    requires forall i :: 0 <= i < |us| ==> us[i].accepted
    ensures InSync(Exec(Step, s, us))
    decreases |us|
  {
    if us != [] {
      StepStaysInSync(s, us[0]);
      RunStaysInSync(Step(s, us[0]), us[1..]);
    }
  }

  // ------------------------------------------------------------------ after a refusal

  /** The parts of a head configuration that have a flag of their own. */
  datatype Part = ActivePart | DisplaysPart | ModePart | PlanePart(slot: nat, field: Field)
  datatype Field = SurfaceField | SrcXY | SrcWH | DstXY | DstWH

  predicate SameField(a: PlaneConfig, b: PlaneConfig, f: Field) {
    match f
    case SurfaceField => a.surface == b.surface
    case SrcXY => (a.srcX, a.srcY) == (b.srcX, b.srcY)
    case SrcWH => (a.srcWidth, a.srcHeight) == (b.srcWidth, b.srcHeight)
    case DstXY => (a.dstX, a.dstY) == (b.dstX, b.dstY)
    case DstWH => (a.dstWidth, a.dstHeight) == (b.dstWidth, b.dstHeight)
  }

  predicate SamePart(a: HeadView, b: HeadView, g: Part) {
    match g
    case ActivePart => a.modeSet.active == b.modeSet.active
    case DisplaysPart => a.modeSet.numDisplays == b.modeSet.numDisplays && a.modeSet.displays == b.modeSet.displays
    case ModePart => a.modeSet.mode == b.modeSet.mode
    case PlanePart(slot, field) =>
      slot < |a.planes| && slot < |b.planes| ==> SameField(a.planes[slot], b.planes[slot], field)
  }

  /** A check sends the surface in any case, and of a plane that is shown the fields that differ from the
      stored ones, or all of them if the slot was empty. */
  predicate SendsField(c: PlaneCheck, crtc: Crtc, stored: PlaneConfig, f: Field) {
    f.SurfaceField? || (!Blanks(c, crtc) && (stored.surface == None || !SameField(ConfigOf(c.ps), stored, f)))
  }

  /** What the update sends of a head: a mode set part that the DRM core calls changed, and of each plane
      what its check sends. */
  ghost predicate Sends(crtc: Crtc, req: HeadReq, u: Update, g: Part)
    requires WellFormed(req) && crtc in u.crtcs
  {
    match g
    case ActivePart => u.crtcs[crtc].activeChanged
    case DisplaysPart => u.crtcs[crtc].connectorsChanged
    case ModePart => u.crtcs[crtc].modeChanged
    case PlanePart(slot, field) => slot < PLANE_MAX && SendsSlot(crtc, req.planes[slot].config, u, slot, field)
  }

  ghost predicate SendsSlot(crtc: Crtc, stored: PlaneConfig, u: Update, slot: nat, f: Field) {
    exists i :: 0 <= i < |u.planes| && At(u.planes[i], crtc, slot) && SendsField(u.planes[i], crtc, stored, f)
  }

  predicate FieldFlag(flags: PlaneFlags, f: Field) {
    match f
    case SurfaceField => flags.surface
    case SrcXY => flags.srcXY
    case SrcWH => flags.srcWH
    case DstXY => flags.dstXY
    case DstWH => flags.dstWH
  }

  predicate Flagged(req: HeadReq, g: Part) {
    match g
    case ActivePart => req.flags.active
    case DisplaysPart => req.flags.displays
    case ModePart => req.flags.mode
    case PlanePart(slot, field) => slot < |req.planes| && FieldFlag(req.planes[slot].flags, field)
  }

  lemma CheckFlags(crtc: Crtc, p: PlaneReq, c: PlaneCheck, f: Field)
    requires Concerns(c, crtc) && p.flags == NO_FLAGS
    ensures FieldFlag(CheckPlane(crtc, p, c.was, c.ps).flags, f) <==> SendsField(c, crtc, p.config, f)
  {
  }

  lemma SlotFlags(crtc: Crtc, req: HeadReq, u: Update, slot: nat, f: Field)
    requires WellFormed(req) && OncePerSlot(crtc, u.planes) && slot < PLANE_MAX
    ensures FieldFlag(CheckPlanes(crtc, Duplicate(req), u.planes).planes[slot].flags, f)
       <==> SendsSlot(crtc, req.planes[slot].config, u, slot, f)
  {
    PlanesChecked(crtc, Duplicate(req), u.planes, slot);
    if i :| 0 <= i < |u.planes| && At(u.planes[i], crtc, slot) {
      CheckFlags(crtc, Duplicate(req).planes[slot], u.planes[i], f);
      forall j | 0 <= j < |u.planes| && At(u.planes[j], crtc, slot)
        ensures j == i
      {
        OneCheckAt(crtc, u.planes, slot, i, j);
      }
    }
  }

  /** The flags of a checked head are up for exactly what the update sends. */
  lemma FlaggedIffSent(crtc: Crtc, req: HeadReq, u: Update, g: Part)
    requires WellFormed(req) && crtc in u.crtcs && OncePerSlot(crtc, u.planes) && Checked(crtc, req, u).Ok?
    ensures Flagged(Checked(crtc, req, u).value, g) <==> Sends(crtc, req, u, g)
  {
    PlanesChecked(crtc, Duplicate(req), u.planes, 0);
    assert Checked(crtc, req, u).value.planes == CheckPlanes(crtc, Duplicate(req), u.planes).planes;
    if g.PlanePart? && g.slot < PLANE_MAX {
      SlotFlags(crtc, req, u, g.slot, g.field);
    }
  }

  /** Software state and engine of a head differ in this part. */
  predicate Stale(s: State, c: Crtc, g: Part)
    requires c in s.current && c in s.engine
  {
    !SamePart(s.engine[c], Full(s.current[c]), g)
  }

  /** Every head has a complete configuration on both sides, in sync or not. */
  ghost predicate Complete(s: State) {
    && s.current.Keys == s.engine.Keys
    && (forall c {:trigger s.current[c]} :: c in s.current ==>
          WellFormed(s.current[c]) && |s.engine[c].planes| == PLANE_MAX)
  }

  lemma CopiedPart(view: HeadView, req: HeadReq, g: Part)
    requires |view.planes| == |req.planes|
    ensures SamePart(CopyHead(view, req), Full(req), g) <==> Flagged(req, g) || SamePart(view, Full(req), g)
  {
  }

  lemma SameIffAllParts(a: HeadView, b: HeadView)
    requires |a.planes| == |b.planes|
    ensures a == b <==> forall g: Part :: SamePart(a, b, g)
  {
    if forall g: Part :: SamePart(a, b, g) {
      assert SamePart(a, b, ActivePart) && SamePart(a, b, DisplaysPart) && SamePart(a, b, ModePart);
      forall i | 0 <= i < |a.planes|
        ensures a.planes[i] == b.planes[i]
      {
        assert SamePart(a, b, PlanePart(i, SurfaceField));
        assert SamePart(a, b, PlanePart(i, SrcXY)) && SamePart(a, b, PlanePart(i, SrcWH));
        assert SamePart(a, b, PlanePart(i, DstXY)) && SamePart(a, b, PlanePart(i, DstWH));
      }
      assert a.planes == b.planes && a.modeSet == b.modeSet;
    }
  }

  /** An accepted update cures a stale part exactly if it sends it. A part that an earlier refusal left
      behind is not sent again just because it was lost. */
  lemma AcceptedStepCures(s: State, u: Update, c: Crtc, g: Part)
    requires Complete(s) && u.accepted && c in s.current
    ensures Complete(Step(s, u)) && c in Step(s, u).current
    ensures Stale(Step(s, u), c, g) <==> Stale(s, c, g) && !(Commits(s, u, c) && Sends(c, s.current[c], u, g))
  {
    StepIsComplete(s, u);
    HeadAfterAccepted(s, u, c);
    if Commits(s, u, c) {
      HeadCured(s.engine[c], s.current[c], c, u, g);
    }
  }

  lemma HeadAfterAccepted(s: State, u: Update, c: Crtc)
    requires Complete(s) && u.accepted && c in s.current
    ensures c in Step(s, u).current && c in Step(s, u).engine
    ensures Commits(s, u, c) ==>
      && Step(s, u).current[c] == Checked(c, s.current[c], u).value
      && Step(s, u).engine[c] == CopyHead(s.engine[c], Step(s, u).current[c])
    ensures !Commits(s, u, c) ==> Step(s, u).current[c] == s.current[c] && Step(s, u).engine[c] == s.engine[c]
  {
  }

  lemma StepIsComplete(s: State, u: Update)
    requires Complete(s)
    ensures Complete(Step(s, u)) && Step(s, u).current.Keys == s.current.Keys
  {
    UpdateKeepsHeads(s, u);
    forall c | c in s.current
      ensures WellFormed(Step(s, u).current[c]) && |Step(s, u).engine[c].planes| == PLANE_MAX
    {
      assert WellFormed(s.current[c]) && |s.engine[c].planes| == PLANE_MAX;
    }
  }

  lemma HeadCured(view: HeadView, req: HeadReq, c: Crtc, u: Update, g: Part)
    requires WellFormed(req) && |view.planes| == PLANE_MAX && c in u.crtcs && OncePerSlot(c, u.planes)
    requires Checked(c, req, u).Ok?
    ensures var r := Checked(c, req, u).value;
      SamePart(CopyHead(view, r), Full(r), g) <==> SamePart(view, Full(req), g) || Sends(c, req, u, g)
  {
    var r := Checked(c, req, u).value;
    FlaggedIffSent(c, req, u, g);
    CheckedIsDelta(c, req, u);
    CopiedPart(Full(req), r, g);
    CopiedPart(view, r, g);
    if !Flagged(r, g) {
      SameTransitive(view, Full(req), Full(r), g);
    }
  }

  lemma SameTransitive(a: HeadView, b: HeadView, c: HeadView, g: Part)
    requires |a.planes| == |b.planes| == |c.planes| && SamePart(b, c, g)
    ensures SamePart(a, b, g) <==> SamePart(a, c, g)
  {
  }

  /** Some update of the run commits to `c` and sends `g`. */
  ghost predicate SentInRun(s: State, us: seq<Update>, c: Crtc, g: Part)
    requires Complete(s) && c in s.current
    requires forall i :: 0 <= i < |us| ==> us[i].accepted
    decreases |us|
  {
    us != [] &&
    ((Commits(s, us[0], c) && Sends(c, s.current[c], us[0], g))
     || (Complete(Step(s, us[0])) && c in Step(s, us[0]).current && SentInRun(Step(s, us[0]), us[1..], c, g)))
  }

  lemma {:induction false} StaleAfterRun(s: State, us: seq<Update>, c: Crtc, g: Part)
    requires Complete(s) && c in s.current
    requires forall i :: 0 <= i < |us| ==> us[i].accepted
    ensures var t := Exec(Step, s, us);
      Complete(t) && c in t.current && (Stale(t, c, g) <==> Stale(s, c, g) && !SentInRun(s, us, c, g))
    decreases |us|
  {
    if us != [] {
      AcceptedStepCures(s, us[0], c, g);
      StaleAfterRun(Step(s, us[0]), us[1..], c, g);
    }
  }

  /** Whatever refusals have left behind: after the last of them, a run is in sync again if and only if
      every part they left stale has been sent since. */
  lemma InSyncAgainIff(s: State, us: seq<Update>)
    requires Complete(s) && forall i :: 0 <= i < |us| ==> us[i].accepted
    ensures InSync(Exec(Step, s, us)) <==>
      forall c: Crtc, g: Part :: c in s.current && Stale(s, c, g) ==> SentInRun(s, us, c, g)
  {
    var t := Exec(Step, s, us);
    RunIsComplete(s, us);
    forall c: Crtc, g: Part | c in s.current
      ensures c in t.current && (Stale(t, c, g) <==> Stale(s, c, g) && !SentInRun(s, us, c, g))
    {
      StaleAfterRun(s, us, c, g);
    }
    forall c | c in t.current
      ensures HeadInSync(t, c) <==> forall g: Part :: !Stale(t, c, g)
    {
      SameIffAllParts(t.engine[c], Full(t.current[c]));
      assert forall g: Part :: Stale(t, c, g) <==> !SamePart(t.engine[c], Full(t.current[c]), g);
    }
  }

  /** Every run, refusals included, keeps both sides complete and the same heads. */
  lemma {:induction false} RunIsComplete(s: State, us: seq<Update>)
    requires Complete(s)
    ensures Complete(Exec(Step, s, us)) && Exec(Step, s, us).current.Keys == s.current.Keys
    decreases |us|
  {
    if us != [] {
      UpdateKeepsHeads(s, us[0]);
      RunIsComplete(Step(s, us[0]), us[1..]);
    }
  }

  /** The same check asked for again finds what it asks for stored. */
  lemma SentOnlyOnce(c: Crtc, req: HeadReq, u: Update, slot: nat, f: Field)
    requires WellFormed(req) && c in u.crtcs && OncePerSlot(c, u.planes) && Checked(c, req, u).Ok?
    requires slot < PLANE_MAX && !f.SurfaceField? && SendsSlot(c, req.planes[slot].config, u, slot, f)
    ensures !SendsSlot(c, Checked(c, req, u).value.planes[slot].config, u, slot, f)
  {
    var r := Checked(c, req, u).value;
    PlanesChecked(c, Duplicate(req), u.planes, slot);
    assert r.planes == CheckPlanes(c, Duplicate(req), u.planes).planes;
    var i :| 0 <= i < |u.planes| && At(u.planes[i], c, slot) && SendsField(u.planes[i], c, req.planes[slot].config, f);
    assert r.planes[slot].config == ConfigOf(u.planes[i].ps);
    forall j | 0 <= j < |u.planes| && At(u.planes[j], c, slot)
      ensures !SendsField(u.planes[j], c, r.planes[slot].config, f)
    {
      OneCheckAt(c, u.planes, slot, i, j);
    }
  }

  /** So repeating a refused update that moved a plane does not cure the place it left stale. */
  lemma RepeatingDoesNotCure(s: State, u: Update, again: Update, c: Crtc, slot: nat, f: Field)
    requires Complete(s) && Commits(s, u, c) && !u.accepted && again == u.(accepted := true)
    requires slot < PLANE_MAX && !f.SurfaceField? && SendsSlot(c, s.current[c].planes[slot].config, u, slot, f)
    requires Stale(Step(s, u), c, PlanePart(slot, f))
    ensures c in Step(Step(s, u), again).current && c in Step(Step(s, u), again).engine
    ensures Stale(Step(Step(s, u), again), c, PlanePart(slot, f))
  {
    StepIsComplete(s, u);
    CommitStores(s, u, c);
    SentOnlyOnce(c, s.current[c], u, slot, f);
    SameSends(c, Step(s, u).current[c].planes[slot].config, u, again, slot, f);
    AcceptedStepCures(Step(s, u), again, c, PlanePart(slot, f));
  }

  lemma SameSends(c: Crtc, stored: PlaneConfig, u: Update, again: Update, slot: nat, f: Field)
    requires again.planes == u.planes
    ensures SendsSlot(c, stored, again, slot, f) <==> SendsSlot(c, stored, u, slot, f)
  {
  }

  /** One active head that shows surface 1 at the origin. */
  function OneHead(): HeadReq {
    var shown := PlaneReq(PlaneConfig(Some(1), 0, 0, 0, 0, 0, 0, 0, 0), NO_FLAGS);
    var blank := PlaneReq(PlaneConfig(None, 0, 0, 0, 0, 0, 0, 0, 0), NO_FLAGS);
    HeadReq(ModeSet(true, 0, NoDisplays(), 0), HeadFlags(false, false, false), [shown, blank, blank])
  }

  /** Its plane is to be shown one to the right. */
  function MoveRight(accepted: bool): Update {
    Update(map[0 := CrtcUpdate(false, 0, false, false, false)],
           [PlaneCheck(0, Some(0), PlaneState(Some(0), Some(1), 0, 0, 0, 0, 1, 0, 0, 0))],
           [], true, accepted)
  }

  lemma MoveRightChecks(accepted: bool, req: HeadReq)
    requires WellFormed(req) && req.planes[0].config.surface == Some(1)
    ensures Checked(0, req, MoveRight(accepted)).Ok?
    ensures Checked(0, req, MoveRight(accepted)).value.planes[0].config == PlaneConfig(Some(1), 0, 0, 0, 0, 1, 0, 0, 0)
  {
    var u := MoveRight(accepted);
    CheckFailsIff(0, req, u);
    PlanesChecked(0, Duplicate(req), u.planes, 0);
    assert At(u.planes[0], 0, 0);
  }

  function AtOrigin(): State {
    State(map[0 := OneHead()], map[0 := Full(OneHead())])
  }

  lemma AtOriginInSync()
    ensures InSync(AtOrigin()) && Complete(AtOrigin()) && AtOrigin().current.Keys == {0}
    ensures AtOrigin().current[0].planes[0].config == PlaneConfig(Some(1), 0, 0, 0, 0, 0, 0, 0, 0)
    ensures AtOrigin().engine[0].planes[0] == PlaneConfig(Some(1), 0, 0, 0, 0, 0, 0, 0, 0)
  {
    assert Full(OneHead()).planes[0] == OneHead().planes[0].config;
    assert HeadInSync(AtOrigin(), 0);
  }

  lemma MoveCommits(s: State, accepted: bool)
    requires Complete(s) && s.current.Keys == {0} && s.current[0].planes[0].config.surface == Some(1)
    ensures Commits(s, MoveRight(accepted), 0)
  {
    MoveRightChecks(accepted, s.current[0]);
  }

  /** Refused, the move leaves the engine behind. */
  lemma RefusedMoveLeavesBehind(s: State)
    requires s == AtOrigin()
    ensures var behind := Step(s, MoveRight(false));
      && Complete(behind) && behind.current.Keys == {0} && !InSync(behind)
      && behind.current[0].planes[0].config == PlaneConfig(Some(1), 0, 0, 0, 0, 1, 0, 0, 0)
      && behind.engine[0].planes[0].dstX == 0 && behind.engine[0].planes[0].dstY == 0
      && Stale(behind, 0, PlanePart(0, DstXY))
  {
    var u := MoveRight(false);
    AtOriginInSync();
    MoveRightChecks(false, s.current[0]);
    MoveCommits(s, false);
    StepIsComplete(s, u);
    var behind := Step(s, u);
    assert behind.current[0] == Checked(0, s.current[0], u).value && behind.engine == s.engine;
    assert Full(behind.current[0]).planes[0] == behind.current[0].planes[0].config;
    assert !HeadInSync(behind, 0);
  }

  /** And asked for again and accepted, it is still not made. */
  lemma RefusedMoveIsLost()
    ensures InSync(AtOrigin()) && !InSync(Step(AtOrigin(), MoveRight(false)))
    ensures var still := Step(Step(AtOrigin(), MoveRight(false)), MoveRight(true));
      && !InSync(still) && Complete(still) && 0 in still.current
      && still.current[0].planes[0].config.dstX == 1 && still.engine[0].planes[0].dstX == 0
  {
    var s, u := AtOrigin(), MoveRight(false);
    AtOriginInSync();
    RefusedMoveLeavesBehind(s);
    MoveCommits(s, false);
    assert At(u.planes[0], 0, 0) && SendsField(u.planes[0], 0, s.current[0].planes[0].config, DstXY);
    RepeatingDoesNotCure(s, u, MoveRight(true), 0, 0, DstXY);
    MoveRightAgain(Step(s, u));
  }

  lemma MoveRightAgain(s: State)
    requires Complete(s) && s.current.Keys == {0}
    requires s.current[0].planes[0].config == PlaneConfig(Some(1), 0, 0, 0, 0, 1, 0, 0, 0)
    requires s.engine[0].planes[0].dstX == 0 && s.engine[0].planes[0].dstY == 0
    ensures var t := Step(s, MoveRight(true));
      && Complete(t) && 0 in t.current && t.current[0].planes[0].config.dstX == 1
      && (Stale(t, 0, PlanePart(0, DstXY)) ==> !InSync(t) && t.engine[0].planes[0].dstX == 0)
  {
    var u := MoveRight(true);
    MoveRightChecks(true, s.current[0]);
    MoveCommits(s, true);
    StepIsComplete(s, u);
    HeadAfterAccepted(s, u, 0);
    var t := Step(s, u);
    assert Full(t.current[0]).planes[0] == t.current[0].planes[0].config;
    if Stale(t, 0, PlanePart(0, DstXY)) {
      assert !HeadInSync(t, 0);
    }
  }

  // ------------------------------------------------------------------ the objects

  class CrtcStateObject {
    const crtc: Crtc
    var modeSet: ModeSet
    var flags: HeadFlags
    var planes: seq<PlaneReq>

    function View(): HeadReq
      reads this
    {
      HeadReq(modeSet, flags, planes)
    }

    /** `nv_drm_atomic_crtc_duplicate_state`. */
    constructor (was: CrtcStateObject)
      ensures crtc == was.crtc && View() == Duplicate(was.View())
    {
      crtc := was.crtc;
      modeSet, flags := was.modeSet, HeadFlags(false, false, false);
      planes := was.planes;
      new;
      for i := 0 to |planes|
        invariant |planes| == |was.planes| && modeSet == was.modeSet && flags == HeadFlags(false, false, false)
        invariant forall k :: 0 <= k < i ==> planes[k] == PlaneReq(was.planes[k].config, NO_FLAGS)
        invariant forall k :: i <= k < |planes| ==> planes[k] == was.planes[k]
      {
        planes := planes[i := PlaneReq(was.planes[i].config, NO_FLAGS)];
      }
    }

    method Disable(slot: nat)
      requires slot < |planes|
      modifies this`planes
      ensures planes == old(planes)[slot := DisablePlane(old(planes)[slot])]
    {
      var p := planes[slot];
      p := p.(config := p.config.(surface := None));
      p := p.(flags := p.flags.(surface := true));
      planes := planes[slot := p];
    }

    /** `plane_req_config_update`, with its two early returns. */
    method UpdateSlot(slot: nat, ps: PlaneState)
      requires slot < |planes|
      modifies this`planes
      ensures planes == old(planes)[slot := UpdatePlane(old(planes)[slot], ps)]
      ensures if ps.fb.Some? then ShowsPlane(planes[slot].config, ps)
              else planes[slot].config == old(planes[slot].config).(surface := None)
    {
      ShownIsStored(ConfigOf(ps), ps);
      var was := planes[slot].config;
      if ps.fb == None {
        Disable(slot);
        return;
      }
      var now := ConfigOf(ps);
      var f := NO_FLAGS.(surface := true);
      if was.surface == None && was.surface != now.surface {
        f := f.(srcXY := true, srcWH := true, dstXY := true, dstWH := true);
        planes := planes[slot := PlaneReq(now, f)];
        return;
      }
      f := f.(srcXY := was.srcX != now.srcX || was.srcY != now.srcY);
      f := f.(srcWH := was.srcWidth != now.srcWidth || was.srcHeight != now.srcHeight);
      f := f.(dstXY := was.dstX != now.dstX || was.dstY != now.dstY);
      f := f.(dstWH := was.dstWidth != now.dstWidth || was.dstHeight != now.dstHeight);
      planes := planes[slot := PlaneReq(now, f)];
    }

    /** `nv_drm_crtc_atomic_check`. On failure the object may be half changed; it is then discarded. */
    method AtomicCheck(u: CrtcUpdate, cs: seq<Connector>) returns (ok: bool)
      requires WellFormed(View())
      modifies this
      ensures ok <==> CheckCrtc(crtc, old(View()), u, cs).Ok?
      ensures ok ==> View() == CheckCrtc(crtc, old(View()), u, cs).value
      ensures ok ==> planes == old(planes)
      ensures ok ==> modeSet.mode == if u.modeChanged then u.mode else old(modeSet.mode)
      ensures ok ==> modeSet.active == if u.activeChanged then u.active else old(modeSet.active)
      ensures ok ==>
        flags == HeadFlags(old(flags.active) || u.activeChanged, old(flags.displays) || u.connectorsChanged,
                           old(flags.mode) || u.modeChanged)
    {
      if u.modeChanged {
        modeSet := modeSet.(mode := u.mode);
        flags := flags.(mode := true);
      }
      if u.connectorsChanged {
        modeSet := modeSet.(numDisplays := 0, displays := NoDisplays());
        flags := flags.(displays := true);
        ghost var cleared := modeSet;
        ghost var flagged := flags;
        for j := 0 to |cs|
          invariant |modeSet.displays| == MAX_CLONE_DISPLAYS && flags == flagged && planes == old(planes)
          invariant Attach(crtc, cleared, cs) == Attach(crtc, modeSet, cs[j..])
        {
          if cs[j].crtc != Some(crtc) {
            continue;
          }
          if cs[j].display == None || modeSet.numDisplays >= MAX_CLONE_DISPLAYS {
            return false;
          }
          modeSet := modeSet.(displays := modeSet.displays[modeSet.numDisplays := cs[j].display.value],
                              numDisplays := modeSet.numDisplays + 1);
        }
      }
      if u.activeChanged {
        modeSet := modeSet.(active := u.active);
        flags := flags.(active := true);
      }
      return true;
    }
  }

  /** `nv_drm_plane_atomic_check`: the loop over the CRTC states of the update. */
  method PlaneAtomicCheck(states: seq<CrtcStateObject>, c: PlaneCheck)
    requires forall i, j :: 0 <= i < j < |states| ==> states[i] != states[j]
    requires forall i :: 0 <= i < |states| ==> c.slot < |states[i].planes|
    modifies states
    ensures forall i :: 0 <= i < |states| ==> states[i].View() == CheckSlot(states[i].crtc, old(states[i].View()), c)
    ensures forall i :: 0 <= i < |states| && c.slot < |states[i].planes| ==>
              AsAsked(states[i].crtc, c, old(states[i].planes[c.slot].config), states[i].planes[c.slot].config)
  {
    for i := 0 to |states|
      invariant forall k :: 0 <= k < i ==> states[k].View() == CheckSlot(states[k].crtc, old(states[k].View()), c)
      invariant forall k :: i <= k < |states| ==> states[k].View() == old(states[k].View())
    {
      var crtc := states[i].crtc;
      if c.was == Some(crtc) && c.was != c.ps.crtc {
        states[i].Disable(c.slot);
        continue;
      }
      if c.ps.crtc == Some(crtc) {
        states[i].UpdateSlot(c.slot, c.ps);
      }
    }
    forall i | 0 <= i < |states|
      ensures c.slot < |states[i].planes|
      ensures AsAsked(states[i].crtc, c, old(states[i].planes[c.slot].config), states[i].planes[c.slot].config)
    {
      CheckedAsAsked(states[i].crtc, old(states[i].planes[c.slot]), c);
      assert states[i].View() == CheckSlot(states[i].crtc, old(states[i].View()), c);
    }
  }
}
