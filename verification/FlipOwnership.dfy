/** Who owns a flip object in nvidia-410.93/nvidia-drm, in the build with nonblocking commits:
    `nv_drm_atomic_crtc_duplicate_state` and `..._destroy_state` in nvidia-drm-crtc.c, and the
    commit tail and flip handler in nvidia-drm-modeset.c.

    Any number of updates are prepared, discarded, committed and completed side by side. The DRM
    core appears as guards: it destroys a state object only while nothing refers to it, and it
    installs a new state on a CRTC only after the tail of the previous commit there has run. */
module FlipOwnership {
  import opened Options
  import opened Runs

  type Crtc = nat
  type StateId = nat
  type FlipId = nat
  type EventId = nat

  /** A CRTC state object: its CRTC, whether it is active, `nv_flip` and the completion event.
      `installed` records whether a commit has put it on its CRTC. */
  datatype CrtcState = CrtcState(
    crtc: Crtc, active: bool, flip: Option<FlipId>, event: Option<EventId>, installed: bool)

  /** Where the hand-overs so far have taken a flip object. `Handled` is between the handler's two
      locked sections and its free. */
  datatype Place = Owned(state: StateId) | Listed(crtc: Crtc) | Handled(eventSent: bool) | Freed

  /** A flip object and its event; `madeFor` is the state duplicated together with it. */
  datatype Flip = Flip(event: Option<EventId>, place: Place, madeFor: StateId)

  /** Where a completion event is; an event whose state is destroyed unsent is `Dropped`. */
  datatype EventPlace = OnState(state: StateId) | OnFlip(flip: FlipId) | Sent | Dropped

  datatype EventRec = EventRec(place: EventPlace, attachedTo: StateId)

  /** `tails` gives, for each CRTC whose commit tail has still to run, the state it replaced; `sent`
      every event sent, with the flip that carried it. `fault` is set when the tail dereferences a
      missing flip, or when a flip that is already freed is freed again. */
  datatype State = State(
    states: map<StateId, CrtcState>,
    used: set<StateId>,
    current: map<Crtc, StateId>,
    tails: map<Crtc, StateId>,
    flips: map<FlipId, Flip>,
    lists: map<Crtc, seq<FlipId>>,
    events: map<EventId, EventRec>,
    sent: seq<(EventId, FlipId)>,
    fault: bool)

  datatype Action =
    | Duplicate(c: Crtc, st: StateId, f: FlipId)  // both allocations succeed; otherwise nothing remains
    | SetActive(st: StateId, active: bool)        // the update being prepared
    | Attach(st: StateId, e: EventId)
    | Destroy(st: StateId)
    | Install(c: Crtc, st: StateId)               // drm_atomic_helper_swap_state
    | Tail(c: Crtc)                               // one turn of the loop in commit_tail
    | Dequeue(c: Crtc)                            // the handler's flip_lock section
    | Send(f: FlipId)                             // its event_lock section
    | Free(f: FlipId)

  /** Every CRTC starts with a state that carries no flip object. */
  function Init(heads: set<Crtc>): State {
    State(map c | c in heads :: CrtcState(c, false, None, None, true), heads, map c | c in heads :: c, map[],
          map[], map c | c in heads :: [], map[], [], false)
  }

  predicate Proposed(s: State, st: StateId) {
    st in s.states && !s.states[st].installed
  }

  predicate Enabled(s: State, a: Action) {
    match a
    case Duplicate(c, st, f) => c in s.current && s.current[c] in s.states && st !in s.used && f !in s.flips
    case SetActive(st, active) => Proposed(s, st)
    case Attach(st, e) => Proposed(s, st) && s.states[st].event == None && e !in s.events
    case Destroy(st) => st in s.states && st !in s.current.Values && st !in s.tails.Values
    case Install(c, st) => Proposed(s, st) && s.states[st].crtc == c && c in s.current && c !in s.tails
    case Tail(c) => c in s.tails && c in s.current && c in s.lists && s.current[c] in s.states && s.tails[c] in s.states
    case Dequeue(c) => c in s.lists && s.lists[c] != []
    case Send(f) => f in s.flips && s.flips[f].place == Handled(false)
    case Free(f) => f in s.flips && s.flips[f].place == Handled(true)
  }

  /** `nv_drm_free` of a flip pointer that may be null. */
  function FreeFlip(s: State, f: Option<FlipId>): State {
    if f == None then s
    else if f.value !in s.flips || s.flips[f.value].place == Freed then s.(fault := true)
    else s.(flips := s.flips[f.value := s.flips[f.value].(place := Freed)])
  }

  function MoveEvent(events: map<EventId, EventRec>, e: Option<EventId>, p: EventPlace): map<EventId, EventRec> {
    if e.Some? && e.value in events then events[e.value := events[e.value].(place := p)] else events
  }

  function DoDuplicate(s: State, c: Crtc, st: StateId, f: FlipId): State
    requires Enabled(s, Duplicate(c, st, f))
  {
    s.(states := s.states[st := CrtcState(c, s.states[s.current[c]].active, Some(f), None, false)],
       used := s.used + {st}, flips := s.flips[f := Flip(None, Owned(st), st)])
  }

  function DoDestroy(s: State, st: StateId): State
    requires Enabled(s, Destroy(st))
  {
    var events := MoveEvent(s.events, s.states[st].event, Dropped);
    FreeFlip(s.(states := s.states - {st}, events := events), s.states[st].flip)
  }

  function DoInstall(s: State, c: Crtc, st: StateId): State
    requires Enabled(s, Install(c, st))
  {
    s.(states := s.states[st := s.states[st].(installed := true)], current := s.current[c := st],
       tails := s.tails[c := s.current[c]])
  }

  function DoDequeue(s: State, c: Crtc): State
    requires Enabled(s, Dequeue(c))
  {
    var f := s.lists[c][0];
    var popped := s.(lists := s.lists[c := s.lists[c][1..]]);
    if f in s.flips then popped.(flips := s.flips[f := s.flips[f].(place := Handled(false))]) else popped
  }

  function DoSend(s: State, f: FlipId): State
    requires Enabled(s, Send(f))
  {
    var e := s.flips[f].event;
    s.(flips := s.flips[f := s.flips[f].(place := Handled(true))],
       events := MoveEvent(s.events, e, Sent),
       sent := if e.Some? then s.sent + [(e.value, f)] else s.sent)
  }

  function DoTail(s: State, c: Crtc): State
    requires Enabled(s, Tail(c))
  {
    var st := s.current[c];
    var cs := s.states[st];
    if !cs.active && !s.states[s.tails[c]].active then
      FreeFlip(s.(states := s.states[st := cs.(flip := None)], tails := s.tails - {c}), cs.flip)
    else if cs.flip == None || cs.flip.value !in s.flips then
      s.(tails := s.tails - {c}, fault := true)
    else
      var f := cs.flip.value;
      s.(states := s.states[st := cs.(flip := None, event := None)],
         tails := s.tails - {c},
         flips := s.flips[f := s.flips[f].(event := cs.event, place := Listed(c))],
         lists := s.lists[c := [f] + s.lists[c]],
         events := MoveEvent(s.events, cs.event, OnFlip(f)))
  }

  function Step(s: State, a: Action): State {
    if !Enabled(s, a) then s else
    match a
    case Duplicate(c, st, f) => DoDuplicate(s, c, st, f)
    case SetActive(st, active) => s.(states := s.states[st := s.states[st].(active := active)])
    case Attach(st, e) =>
      s.(states := s.states[st := s.states[st].(event := Some(e))], events := s.events[e := EventRec(OnState(st), st)])
    case Destroy(st) => DoDestroy(s, st)
    case Install(c, st) => DoInstall(s, c, st)
    case Tail(c) => DoTail(s, c)
    case Dequeue(c) => DoDequeue(s, c)
    case Send(f) => DoSend(s, f)
    case Free(f) => FreeFlip(s, Some(f))
  }

  // ------------------------------------------------------------------ the invariant

  ghost predicate NoDup<T>(xs: seq<T>) {
    forall i, j :: 0 <= i < j < |xs| ==> xs[i] != xs[j]
  }

  /** Event `e`, if any, is at `p` and was attached to state `st`. */
  ghost predicate EventAt(s: State, e: Option<EventId>, p: EventPlace, st: StateId) {
    e.Some? ==> e.value in s.events && s.events[e.value] == EventRec(p, st)
  }

  ghost predicate FlipAt(s: State, f: Option<FlipId>, p: Place, st: StateId) {
    f.Some? ==> f.value in s.flips && s.flips[f.value].place == p && s.flips[f.value].madeFor == st
  }

  ghost predicate StateInv(s: State, st: StateId)
    requires st in s.states
  {
    && st in s.used
    && FlipAt(s, s.states[st].flip, Owned(st), st)
    && EventAt(s, s.states[st].event, OnState(st), st)
    && (!s.states[st].installed ==> s.states[st].flip.Some?)
  }

  ghost predicate CrtcInv(s: State, c: Crtc)
    requires c in s.current
  {
    && s.current[c] in s.states && s.states[s.current[c]].crtc == c && s.states[s.current[c]].installed
    && (c in s.tails ==>
          && s.tails[c] in s.states && s.states[s.tails[c]].installed && s.states[s.tails[c]].crtc == c
          && s.tails[c] != s.current[c] && s.states[s.current[c]].flip.Some?)
  }

  ghost predicate ListInv(s: State, c: Crtc)
    requires c in s.lists
  {
    NoDup(s.lists[c]) && forall f :: f in s.lists[c] ==> f in s.flips && s.flips[f].place == Listed(c)
  }

  /** A flip is found where its place says, and carries the event of the state it was made for
      until that event has been sent. */
  ghost predicate FlipInv(s: State, f: FlipId)
    requires f in s.flips
  {
    match s.flips[f].place
    case Owned(st) => st in s.states && s.states[st].flip == Some(f)
    case Listed(c) => c in s.lists && f in s.lists[c] && EventAt(s, s.flips[f].event, OnFlip(f), s.flips[f].madeFor)
    case Handled(eventSent) => !eventSent ==> EventAt(s, s.flips[f].event, OnFlip(f), s.flips[f].madeFor)
    case Freed => true
  }

  ghost predicate SentInv(s: State) {
    && (forall i :: 0 <= i < |s.sent| ==>
          && s.sent[i].1 in s.flips
          && s.sent[i].0 in s.events && s.events[s.sent[i].0] == EventRec(Sent, s.flips[s.sent[i].1].madeFor))
    && (forall i, j :: 0 <= i < j < |s.sent| ==> s.sent[i].0 != s.sent[j].0)
  }

  ghost predicate KeysInv(s: State) {
    s.lists.Keys == s.current.Keys && s.tails.Keys <= s.current.Keys
  }

  ghost predicate Inv(s: State) {
    && !s.fault && KeysInv(s) && SentInv(s)
    && (forall st {:trigger StateInv(s, st)} :: st in s.states ==> StateInv(s, st))
    && (forall c {:trigger CrtcInv(s, c)} :: c in s.current ==> CrtcInv(s, c))
    && (forall c {:trigger ListInv(s, c)} :: c in s.lists ==> ListInv(s, c))
    && (forall f {:trigger FlipInv(s, f)} :: f in s.flips ==> FlipInv(s, f))
  }

  lemma TailKeepsObjects(s: State, c: Crtc)
    requires Inv(s) && Enabled(s, Tail(c))
    ensures forall st {:trigger StateInv(DoTail(s, c), st)} :: st in DoTail(s, c).states ==> StateInv(DoTail(s, c), st)
    ensures forall f {:trigger FlipInv(DoTail(s, c), f)} :: f in DoTail(s, c).flips ==> FlipInv(DoTail(s, c), f)
  {
    var s' := DoTail(s, c);
    assert CrtcInv(s, c) && StateInv(s, s.current[c]);
    forall st | st in s'.states ensures StateInv(s', st) { assert StateInv(s, st); }
    forall f | f in s'.flips ensures FlipInv(s', f) { assert FlipInv(s, f); }
  }

  lemma TailKeepsInv(s: State, c: Crtc)
    requires Inv(s) && Enabled(s, Tail(c))
    ensures Inv(DoTail(s, c))
  {
    var s' := DoTail(s, c);
    TailKeepsObjects(s, c);
    TailKeepsPlaces(s, c);
    assert CrtcInv(s, c) && StateInv(s, s.current[c]);
    assert KeysInv(s') && SentInv(s');
  }

  lemma TailKeepsPlaces(s: State, c: Crtc)
    requires Inv(s) && Enabled(s, Tail(c))
    ensures forall d {:trigger CrtcInv(DoTail(s, c), d)} :: d in DoTail(s, c).current ==> CrtcInv(DoTail(s, c), d)
    ensures forall d {:trigger ListInv(DoTail(s, c), d)} :: d in DoTail(s, c).lists ==> ListInv(DoTail(s, c), d)
  {
    var s' := DoTail(s, c);
    assert CrtcInv(s, c) && StateInv(s, s.current[c]);
    forall d | d in s'.current ensures CrtcInv(s', d) { assert CrtcInv(s, d); }
    forall d | d in s'.lists ensures ListInv(s', d) { assert ListInv(s, d); }
  }

  lemma DestroyKeepsInv(s: State, st: StateId)
    requires Inv(s) && Enabled(s, Destroy(st))
    ensures Inv(DoDestroy(s, st))
  {
    var s' := DoDestroy(s, st);
    assert StateInv(s, st);
    forall x | x in s'.states ensures StateInv(s', x) { assert StateInv(s, x); }
    forall d | d in s'.current ensures CrtcInv(s', d) { assert CrtcInv(s, d); }
    forall d | d in s'.lists ensures ListInv(s', d) { assert ListInv(s, d); }
    forall f | f in s'.flips ensures FlipInv(s', f) { assert FlipInv(s, f); }
  }

  lemma DequeueKeepsInv(s: State, c: Crtc)
    requires Inv(s) && Enabled(s, Dequeue(c))
    ensures Inv(DoDequeue(s, c))
  {
    var s' := DoDequeue(s, c);
    assert ListInv(s, c);
    forall x | x in s'.states ensures StateInv(s', x) { assert StateInv(s, x); }
    forall d | d in s'.current ensures CrtcInv(s', d) { assert CrtcInv(s, d); }
    forall d | d in s'.lists ensures ListInv(s', d) { assert ListInv(s, d); }
    forall f | f in s'.flips ensures FlipInv(s', f) { assert FlipInv(s, f); }
  }

  lemma DuplicateKeepsInv(s: State, c: Crtc, st: StateId, f: FlipId)
    requires Inv(s) && Enabled(s, Duplicate(c, st, f))
    ensures Inv(DoDuplicate(s, c, st, f))
  {
    var s' := DoDuplicate(s, c, st, f);
    assert st in s.states ==> StateInv(s, st);
    forall x | x in s'.states ensures StateInv(s', x) { assert x in s.states ==> StateInv(s, x); }
    forall d | d in s'.current ensures CrtcInv(s', d) {
      assert CrtcInv(s, d) && StateInv(s, s.current[d]);
    }
    forall d | d in s'.lists ensures ListInv(s', d) { assert ListInv(s, d); }
    forall g | g in s'.flips ensures FlipInv(s', g) { assert g in s.flips ==> FlipInv(s, g); }
  }

  lemma InstallKeepsInv(s: State, c: Crtc, st: StateId)
    requires Inv(s) && Enabled(s, Install(c, st))
    ensures Inv(DoInstall(s, c, st))
  {
    var s' := DoInstall(s, c, st);
    assert CrtcInv(s, c) && StateInv(s, st);
    forall x | x in s'.states ensures StateInv(s', x) { assert x in s.states ==> StateInv(s, x); }
    forall d | d in s'.current ensures CrtcInv(s', d) { assert CrtcInv(s, d); }
    forall d | d in s'.lists ensures ListInv(s', d) { assert ListInv(s, d); }
    forall g | g in s'.flips ensures FlipInv(s', g) { assert g in s.flips ==> FlipInv(s, g); }
  }

  lemma SendKeepsInv(s: State, f: FlipId)
    requires Inv(s) && Enabled(s, Send(f))
    ensures Inv(DoSend(s, f))
  {
    var s' := DoSend(s, f);
    assert FlipInv(s, f);
    forall x | x in s'.states ensures StateInv(s', x) { assert x in s.states ==> StateInv(s, x); }
    forall d | d in s'.current ensures CrtcInv(s', d) { assert CrtcInv(s, d); }
    forall d | d in s'.lists ensures ListInv(s', d) { assert ListInv(s, d); }
    forall g | g in s'.flips ensures FlipInv(s', g) { assert g in s.flips ==> FlipInv(s, g); }
  }

  lemma FreeKeepsInv(s: State, f: FlipId)
    requires Inv(s) && Enabled(s, Free(f))
    ensures Inv(FreeFlip(s, Some(f)))
  {
    var s' := FreeFlip(s, Some(f));
    assert FlipInv(s, f);
    forall x | x in s'.states ensures StateInv(s', x) { assert StateInv(s, x); }
    forall d | d in s'.current ensures CrtcInv(s', d) { assert CrtcInv(s, d); }
    forall d | d in s'.lists ensures ListInv(s', d) { assert ListInv(s, d); }
    forall g | g in s'.flips ensures FlipInv(s', g) { assert FlipInv(s, g); }
  }

  /** `SetActive` and `Attach`: a state still being prepared is changed in place. */
  lemma PrepareKeepsInv(s: State, a: Action)
    requires Inv(s) && Enabled(s, a) && (a.SetActive? || a.Attach?)
    ensures Inv(Step(s, a))
  {
    var s' := Step(s, a);
    assert StateInv(s, a.st);
    forall x | x in s'.states ensures StateInv(s', x) { assert StateInv(s, x); }
    forall d | d in s'.current ensures CrtcInv(s', d) { assert CrtcInv(s, d); }
    forall d | d in s'.lists ensures ListInv(s', d) { assert ListInv(s, d); }
    forall g | g in s'.flips ensures FlipInv(s', g) { assert FlipInv(s, g); }
  }

  lemma StepKeepsInv(s: State, a: Action)
    requires Inv(s)
    ensures Inv(Step(s, a))
  {
    if Enabled(s, a) {
      match a
      case Duplicate(c, st, f) => DuplicateKeepsInv(s, c, st, f);
      case SetActive(_, _) => PrepareKeepsInv(s, a);
      case Attach(_, _) => PrepareKeepsInv(s, a);
      case Destroy(st) => DestroyKeepsInv(s, st);
      case Install(c, st) => InstallKeepsInv(s, c, st);
      case Tail(c) => TailKeepsInv(s, c);
      case Dequeue(c) => DequeueKeepsInv(s, c);
      case Send(f) => SendKeepsInv(s, f);
      case Free(f) => FreeKeepsInv(s, f);
    }
  }

  // ------------------------------------------------------------------ what every run guarantees

  ghost predicate OwnedBy(s: State, f: FlipId, st: StateId) {
    st in s.states && s.states[st].flip == Some(f)
  }

  ghost predicate OnList(s: State, f: FlipId, c: Crtc) {
    c in s.lists && f in s.lists[c]
  }

  /** Flip `f` is in exactly one place: one state's `nv_flip`, one entry of one list, the handler's
      hands, or freed. */
  ghost predicate ExactlyOnePlace(s: State, f: FlipId)
    requires f in s.flips
  {
    var p := s.flips[f].place;
    && (forall st :: OwnedBy(s, f, st) <==> p == Owned(st))
    && (forall c :: OnList(s, f, c) <==> p == Listed(c))
    && (forall c, i, j ::
          (OnList(s, f, c) && 0 <= i < j < |s.lists[c]|) ==> !(s.lists[c][i] == f && s.lists[c][j] == f))
  }

  /** The event of this delivery was attached to the state its flip was made for. */
  ghost predicate SentForItsState(s: State, d: (EventId, FlipId)) {
    d.0 in s.events && d.1 in s.flips && s.events[d.0].attachedTo == s.flips[d.1].madeFor
  }

  /** In every run: no flip is lost, doubly owned or freed twice; no tail ever runs on a state that
      has lost its flip; no event is sent twice, and each goes out with the flip that was made
      for the very state it was attached to. */
  lemma FlipSafety(heads: set<Crtc>, run: seq<Action>)
    ensures var s := Exec(Step, Init(heads), run);
      && !s.fault
      && (forall f :: f in s.flips ==> ExactlyOnePlace(s, f))
      && (forall st :: Proposed(s, st) ==> s.states[st].flip.Some?)
      && (forall c :: c in s.tails && c in s.current ==> s.current[c] in s.states && s.states[s.current[c]].flip.Some?)
      && (forall i, j :: 0 <= i < j < |s.sent| ==> s.sent[i].0 != s.sent[j].0)
      && (forall i :: 0 <= i < |s.sent| ==> SentForItsState(s, s.sent[i]))
  {
    forall s, a | Inv(s) ensures Inv(Step(s, a)) { StepKeepsInv(s, a); }
    InvariantHolds(Step, Inv, Init(heads), run);
    var s := Exec(Step, Init(heads), run);
    forall f | f in s.flips ensures ExactlyOnePlace(s, f) {
      PlacesAreExact(s, f);
    }
    forall st | Proposed(s, st) ensures s.states[st].flip.Some? { assert StateInv(s, st); }
    forall c | c in s.tails && c in s.current
      ensures s.current[c] in s.states && s.states[s.current[c]].flip.Some?
    {
      assert CrtcInv(s, c);
    }
  }

  lemma PlacesAreExact(s: State, f: FlipId)
    requires Inv(s) && f in s.flips
    ensures ExactlyOnePlace(s, f)
  {
    assert FlipInv(s, f);
    forall st | OwnedBy(s, f, st) ensures s.flips[f].place == Owned(st) { assert StateInv(s, st); }
    forall c | OnList(s, f, c) ensures s.flips[f].place == Listed(c) && NoDup(s.lists[c]) { assert ListInv(s, c); }
  }
}
