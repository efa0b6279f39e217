/** The commit tail and the flip handler of nvidia-410.93/nvidia-drm/nvidia-drm-modeset.c, in the build with
    nonblocking commits, with other commits, handlers and state hooks running between any two turns of the
    tail and between any two sections of the handler. */
module FlipInterleaved {
  import opened Options
  import opened Runs
  import opened FlipOwnership
  import opened FlipCalls

  /** Others neither run the tails of these CRTCs, which belong to the commit at work, nor handle a flip that
      a handler has taken off its list. */
  predicate Foreign(a: Action, mine: set<Crtc>, held: set<FlipId>) {
    && (a.Tail? ==> a.c !in mine)
    && (a.Send? || a.Free? ==> a.f !in held)
  }

  ghost predicate ByOthers(es: seq<Action>, mine: set<Crtc>, held: set<FlipId>) {
    forall i :: 0 <= i < |es| ==> Foreign(es[i], mine, held)
  }

  /** Objects are added, and what a name of `w` stands for stays. */
  ghost predicate Grows(w: World, w': World) {
    && w'.crtcs == w.crtcs
    && (forall st :: st in w.states ==> st in w'.states && w'.states[st] == w.states[st])
    && (forall f :: f in w.flips ==> f in w'.flips && w'.flips[f] == w.flips[f])
  }

  /** What others do in the meantime, allocating objects or not. Nothing is known of it but this contract,
      which any sequence of foreign steps meets; so what the callers prove holds for all of them. */
  method OthersRun(ghost w: World, ghost s: State, ghost mine: set<Crtc>, ghost held: set<FlipId>)
    returns (ghost w': World, ghost es: seq<Action>)
    requires Mirrors(w, s)
    modifies w.crtcs.Values, w.states.Values, w.flips.Values
    ensures ByOthers(es, mine, held) && Grows(w, w') && Mirrors(w', Exec(Step, s, es))
    ensures forall o :: o in w'.states.Values ==> o in w.states.Values || fresh(o)
    ensures forall o :: o in w'.flips.Values ==> o in w.flips.Values || fresh(o)
  {
    w', es := w, [];
  }

  // ---------------------------------------------------------------------------------------------------
  // The commit tail
  // ---------------------------------------------------------------------------------------------------

  /** A tail that is due stays due, with the same old state: its CRTC gets no new state before it has run,
      and the states it needs are not destroyed. */
  lemma TailStaysDue(s: State, a: Action, c: Crtc)
    requires Enabled(s, Tail(c)) && a != Tail(c) && KeysInv(s)
    ensures Enabled(Step(s, a), Tail(c)) && Step(s, a).tails[c] == s.tails[c]
  {
    match a
    case Duplicate(d, st, f) => DuplicateLeavesTail(s, d, st, f, c);
    case Destroy(st) => DestroyLeavesTail(s, st, c);
    case Install(d, st) => InstallLeavesTail(s, d, st, c);
    case Tail(d) => if Enabled(s, Tail(d)) { TailLeavesOthers(s, d, c); }
    case _ =>
  }

  lemma DuplicateLeavesTail(s: State, d: Crtc, st: StateId, f: FlipId, c: Crtc)
    requires Enabled(s, Tail(c))
    ensures Enabled(Step(s, Duplicate(d, st, f)), Tail(c)) && Step(s, Duplicate(d, st, f)).tails[c] == s.tails[c]
  {
  }

  lemma DestroyLeavesTail(s: State, st: StateId, c: Crtc)
    requires Enabled(s, Tail(c))
    ensures Enabled(Step(s, Destroy(st)), Tail(c)) && Step(s, Destroy(st)).tails[c] == s.tails[c]
  {
  }

  lemma InstallLeavesTail(s: State, d: Crtc, st: StateId, c: Crtc)
    requires Enabled(s, Tail(c))
    ensures Enabled(Step(s, Install(d, st)), Tail(c)) && Step(s, Install(d, st)).tails[c] == s.tails[c]
  {
  }

  lemma {:induction false} TailStaysDueInRun(s: State, es: seq<Action>, mine: set<Crtc>, held: set<FlipId>, c: Crtc)
    requires Inv(s) && ByOthers(es, mine, held) && c in mine && Enabled(s, Tail(c))
    ensures Enabled(Exec(Step, s, es), Tail(c)) && Exec(Step, s, es).tails[c] == s.tails[c]
    decreases |es|
  {
    if es != [] {
      assert Foreign(es[0], mine, held);
      TailStaysDue(s, es[0], c);
      StepKeepsInv(s, es[0]);
      TailStaysDueInRun(Step(s, es[0]), es[1..], mine, held, c);
    }
  }

  lemma {:induction false} InvInRun(s: State, es: seq<Action>)
    requires Inv(s)
    ensures Inv(Exec(Step, s, es))
    decreases |es|
  {
    if es != [] {
      StepKeepsInv(s, es[0]);
      InvInRun(Step(s, es[0]), es[1..]);
    }
  }

  /** The tails of the CRTCs in `mine` that a run contains, in order. */
  function TailsOf(es: seq<Action>, mine: set<Crtc>): seq<Action> {
    if es == [] then []
    else
      var last := es[|es| - 1];
      TailsOf(es[..|es| - 1], mine) + (if last.Tail? && last.c in mine then [last] else [])
  }

  lemma {:induction false} ForeignRunHasNone(es: seq<Action>, fs: seq<Action>, mine: set<Crtc>, held: set<FlipId>)
    requires ByOthers(fs, mine, held)
    ensures TailsOf(es + fs, mine) == TailsOf(es, mine)
    decreases |fs|
  {
    if fs == [] {
      assert es + fs == es;
    } else {
      var n := |fs| - 1;
      assert (es + fs)[..|es| + n] == es + fs[..n] && (es + fs)[|es| + n] == fs[n];
      ForeignRunHasNone(es, fs[..n], mine, held);
    }
  }

  lemma OneMoreTail(es: seq<Action>, c: Crtc, mine: set<Crtc>)
    requires c in mine
    ensures TailsOf(es + [Tail(c)], mine) == TailsOf(es, mine) + [Tail(c)]
  {
    assert (es + [Tail(c)])[..|es|] == es;
  }

  /** The state a commit tail has reached before turn `i`, and the run that led there: reachable, with the
      first `i` tails run and the others still due. */
  ghost predicate Reached(s: State, es: seq<Action>, now: State, order: seq<Crtc>, i: nat) {
    && i <= |order| && now == Exec(Step, s, es) && Inv(now)
    && TailsOf(es, set c | c in order) == Tails(order)[..i]
    && forall j {:trigger order[j]} :: i <= j < |order| ==>
         Enabled(now, Tail(order[j])) && order[j] in s.tails && now.tails[order[j]] == s.tails[order[j]]
  }

  lemma ReachedByOthers(s: State, es: seq<Action>, now: State, order: seq<Crtc>, i: nat, fs: seq<Action>)
    requires Reached(s, es, now, order, i) && ByOthers(fs, set c | c in order, {})
    ensures Reached(s, es + fs, Exec(Step, now, fs), order, i)
  {
    ExecSplit(Step, s, es, fs);
    InvInRun(now, fs);
    ForeignRunHasNone(es, fs, set c | c in order, {});
    forall j | i <= j < |order|
      ensures Enabled(Exec(Step, now, fs), Tail(order[j]))
      ensures Exec(Step, now, fs).tails[order[j]] == now.tails[order[j]]
    {
      TailStaysDueInRun(now, fs, set c | c in order, {}, order[j]);
    }
  }

  lemma ReachedByTail(s: State, es: seq<Action>, now: State, order: seq<Crtc>, i: nat)
    requires Reached(s, es, now, order, i) && i < |order|
    requires forall j, k :: 0 <= j < k < |order| ==> order[j] != order[k]
    ensures Reached(s, es + [Tail(order[i])], Step(now, Tail(order[i])), order, i + 1)
  {
    ExecSnoc(Step, s, es, Tail(order[i]));
    StepKeepsInv(now, Tail(order[i]));
    OneMoreTail(es, order[i], set c | c in order);
    TailsGrow(order, i);
    forall j | i + 1 <= j < |order|
      ensures Enabled(Step(now, Tail(order[i])), Tail(order[j]))
      ensures Step(now, Tail(order[i])).tails[order[j]] == now.tails[order[j]]
    {
      TailLeavesOthers(now, order[i], order[j]);
    }
  }

  lemma TailsGrow(order: seq<Crtc>, i: nat)
    requires i < |order|
    ensures Tails(order)[..i + 1] == Tails(order)[..i] + [Tail(order[i])]
  {
  }

  /** nv_drm_atomic_helper_commit_tail among others: whatever they do before each turn, the objects go
      through a run of the machine in which this commit runs the tails of its CRTCs, each once and in the
      order of the loop, and no turn finds anything missing. */
  method CommitTailAmongOthers(nvCrtcs: seq<NvCrtc>, oldStates: seq<NvCrtcState>,
                               ghost w: World, ghost s: State, ghost order: seq<Crtc>)
    returns (ghost w': World, ghost es: seq<Action>)
    requires Inv(s) && Due(s, order) && Mirrors(w, s)
    requires |nvCrtcs| == |oldStates| == |order|
    requires forall i :: 0 <= i < |order| ==> TurnMeets(w, s, order[i], nvCrtcs[i], oldStates[i])
    modifies w.crtcs.Values, w.states.Values, w.flips.Values
    ensures Grows(w, w') && Mirrors(w', Exec(Step, s, es)) && Inv(Exec(Step, s, es))
    ensures TailsOf(es, set c | c in order) == Tails(order)
  {
    w', es := w, [];
    ghost var now := s;
    StartReached(s, order);
    for i := 0 to |nvCrtcs|
      invariant Reached(s, es, now, order, i) && Mirrors(w', now) && Grows(w, w')
      invariant forall o :: o in w'.states.Values ==> o in w.states.Values || fresh(o)
      invariant forall o :: o in w'.flips.Values ==> o in w.flips.Values || fresh(o)
    {
      assert TurnMeets(w, s, order[i], nvCrtcs[i], oldStates[i]);
      w', es, now := TurnAmongOthers(nvCrtcs[i], oldStates[i], w, w', s, es, now, order, i);
    }
    AllReached(s, es, now, order);
  }

  lemma AllReached(s: State, es: seq<Action>, now: State, order: seq<Crtc>)
    requires Reached(s, es, now, order, |order|)
    ensures now == Exec(Step, s, es) && Inv(now) && TailsOf(es, set c | c in order) == Tails(order)
  {
    assert Tails(order)[..|order|] == Tails(order);
  }

  lemma StartReached(s: State, order: seq<Crtc>)
    requires Inv(s) && Due(s, order)
    ensures Reached(s, [], s, order, 0)
  {
  }

  lemma GrowsFurther(w0: World, w: World, w': World)
    requires Grows(w0, w) && Grows(w, w')
    ensures Grows(w0, w')
  {
  }

  /** A turn, with others before it. */
  method TurnAmongOthers(nvCrtc: NvCrtc, oldState: NvCrtcState, ghost w0: World, ghost w: World, ghost s: State,
                         ghost es: seq<Action>, ghost now: State, ghost order: seq<Crtc>, ghost i: nat)
    returns (ghost w': World, ghost es': seq<Action>, ghost now': State)
    requires Reached(s, es, now, order, i) && i < |order| && Mirrors(w, now)
    requires forall j, k :: 0 <= j < k < |order| ==> order[j] != order[k]
    requires Grows(w0, w) && TurnMeets(w0, s, order[i], nvCrtc, oldState)
    modifies w.crtcs.Values, w.states.Values, w.flips.Values
    ensures Reached(s, es', now', order, i + 1) && Mirrors(w', now') && Grows(w0, w')
    ensures forall o :: o in w'.states.Values ==> o in w.states.Values || fresh(o)
    ensures forall o :: o in w'.flips.Values ==> o in w.flips.Values || fresh(o)
  {
    ghost var fs;
    w', fs := OthersRun(w, now, set c | c in order, {});
    GrowsFurther(w0, w, w');
    ReachedByOthers(s, es, now, order, i, fs);
    ghost var mid := Exec(Step, now, fs);
    ReachedByTail(s, es + fs, mid, order, i);
    now' := Step(mid, Tail(order[i]));
    TurnIsReadyStill(w0, w', s, es + fs, mid, order, i, nvCrtc, oldState);
    TailTurn(nvCrtc, oldState, w', mid, now', order[i]);
    es' := (es + fs) + [Tail(order[i])];
  }

  lemma TurnIsReadyStill(w: World, w': World, s: State, es: seq<Action>, now: State, order: seq<Crtc>, i: nat,
                         nvCrtc: NvCrtc, oldState: NvCrtcState)
    requires Reached(s, es, now, order, i) && i < |order| && Grows(w, w')
    requires TurnMeets(w, s, order[i], nvCrtc, oldState)
    ensures TurnReady(w', now, Step(now, Tail(order[i])), order[i], nvCrtc, oldState)
  {
  }

  // ---------------------------------------------------------------------------------------------------
  // The flip handler
  // ---------------------------------------------------------------------------------------------------

  /** A flip in the hands of a handler stays there, event and all, until that handler goes on. */
  lemma HeldFlipStays(s: State, a: Action, f: FlipId)
    requires Inv(s) && f in s.flips && s.flips[f].place.Handled? && Foreign(a, {}, {f})
    ensures f in Step(s, a).flips && Step(s, a).flips[f] == s.flips[f]
  {
    if Enabled(s, a) {
      assert FlipInv(s, f);
      match a
      case Tail(c) => assert CrtcInv(s, c) && StateInv(s, s.current[c]);
      case Dequeue(c) => assert ListInv(s, c);
      case Destroy(st) => assert StateInv(s, st);
      case _ =>
    }
  }

  lemma {:induction false} HeldFlipStaysInRun(s: State, es: seq<Action>, f: FlipId)
    requires Inv(s) && f in s.flips && s.flips[f].place.Handled? && ByOthers(es, {}, {f})
    ensures var t := Exec(Step, s, es);
            Inv(t) && f in t.flips && t.flips[f] == s.flips[f]
    decreases |es|
  {
    if es != [] {
      assert Foreign(es[0], {}, {f});
      HeldFlipStays(s, es[0], f);
      StepKeepsInv(s, es[0]);
      HeldFlipStaysInRun(Step(s, es[0]), es[1..], f);
    }
  }

  /** The handler's section under flip_lock. */
  method TakeFirst(nvCrtc: NvCrtc, ghost w: World, ghost s: State, ghost c: Crtc) returns (nvFlip: NvFlip)
    requires Inv(s) && Mirrors(w, s) && c in w.crtcs && nvCrtc == w.crtcs[c]
    requires s.lists[c] != [] && nvCrtc.flipList != []
    modifies nvCrtc`flipList
    ensures nvFlip == old(nvCrtc.flipList)[0] && nvCrtc.flipList == old(nvCrtc.flipList)[1..]
    ensures var f := FirstFlip(s, c); f in w.flips && nvFlip == w.flips[f]
    ensures Mirrors(w, Step(s, Dequeue(c)))
  {
    HandlerFindsFlip(s, c);
    var list := nvCrtc.flipList;
    assert Lists(w.flips, list, s.lists[c]) && Lists(w.flips, list[1..], s.lists[c][1..]);
    nvFlip := list[0];
    SetList(nvCrtc, list[1..], w.crtcs, w.flips, s.lists, c, s.lists[c][1..]);
    PlaceIsNotShown(w.flips, s.flips, FirstFlip(s, c), Handled(false));
  }

  /** A flip object does not show where it is, as long as it is not freed. */
  lemma PlaceIsNotShown(flips: map<FlipId, NvFlip>, named: map<FlipId, Flip>, f: FlipId, place: Place)
    requires FlipsMirror(flips, named) && f in named && named[f].place != Freed && place != Freed
    ensures FlipsMirror(flips, named[f := named[f].(place := place)])
  {
    assert ShowsFlip(flips[f], f, named[f]);
  }

  /** Its section under event_lock. */
  method SendTaken(nvFlip: NvFlip, ghost w: World, ghost s: State, ghost f: FlipId) returns (sent: Option<EventId>)
    requires Mirrors(w, s) && f in s.flips && s.flips[f].place == Handled(false)
    requires f in w.flips && nvFlip == w.flips[f]
    ensures sent == nvFlip.event == s.flips[f].event && Mirrors(w, Step(s, Send(f)))
  {
    assert ShowsFlip(nvFlip, f, s.flips[f]);
    sent := nvFlip.event;
    SendsEvent(s, f);
    PlaceIsNotShown(w.flips, s.flips, f, Handled(true));
  }

  /** And its last line. */
  method FreeTaken(nvFlip: NvFlip, ghost w: World, ghost s: State, ghost f: FlipId)
    requires Mirrors(w, s) && f in s.flips && s.flips[f].place == Handled(true)
    requires f in w.flips && nvFlip == w.flips[f]
    modifies nvFlip
    ensures nvFlip.freed && Mirrors(w, Step(s, FlipOwnership.Action.Free(f)))
  {
    FreesFlip(s, f);
    FreeFlipObject(nvFlip, w.flips, s.flips, f);
  }

  /** The handler among others. An empty list is only warned about; otherwise the first flip is taken, its
      event sent, and it is freed, in three steps of a run in which others may do anything else. */
  method HandleFlipEventAmongOthers(nvCrtc: NvCrtc, ghost w: World, ghost s: State, ghost c: Crtc)
    returns (sent: Option<EventId>, ghost w': World, ghost between: (seq<Action>, seq<Action>))
    requires Inv(s) && Mirrors(w, s) && c in w.crtcs && nvCrtc == w.crtcs[c]
    modifies w.crtcs.Values, w.states.Values, w.flips.Values
    ensures Grows(w, w')
    ensures s.lists[c] == [] ==> Mirrors(w', s) && sent == None
    ensures s.lists[c] != [] ==>
              var f := FirstFlip(s, c);
              && ByOthers(between.0, {}, {f}) && ByOthers(between.1, {}, {f})
              && f in s.flips && sent == s.flips[f].event
              && Mirrors(w', HandledAmong(s, c, f, between))
              && f in HandledAmong(s, c, f, between).flips && HandledAmong(s, c, f, between).flips[f].place == Freed
  {
    assert Lists(w.flips, nvCrtc.flipList, s.lists[c]);
    if nvCrtc.flipList == [] {
      return None, w, ([], []);
    }
    ghost var f := FirstFlip(s, c);
    TakenFlip(s, c);
    var nvFlip := TakeFirst(nvCrtc, w, s, c);
    ghost var es, fs;
    sent, w', es, fs := FinishTaken(nvFlip, w, Step(s, Dequeue(c)), f);
    between := (es, fs);
  }

  /** What the handler does with a flip it has taken off the list. */
  method FinishTaken(nvFlip: NvFlip, ghost w: World, ghost s: State, ghost f: FlipId)
    returns (sent: Option<EventId>, ghost w': World, ghost es: seq<Action>, ghost fs: seq<Action>)
    requires Inv(s) && Mirrors(w, s) && f in w.flips && nvFlip == w.flips[f]
    requires f in s.flips && s.flips[f].place == Handled(false)
    modifies w.crtcs.Values, w.states.Values, w.flips.Values
    ensures Grows(w, w') && ByOthers(es, {}, {f}) && ByOthers(fs, {}, {f}) && sent == s.flips[f].event
    ensures Mirrors(w', FinishedAmong(s, f, es, fs))
    ensures f in FinishedAmong(s, f, es, fs).flips && FinishedAmong(s, f, es, fs).flips[f].place == Freed
  {
    ghost var w1;
    w1, es := OthersRun(w, s, {}, {f});
    HeldFlipStaysInRun(s, es, f);
    sent := SendTaken(nvFlip, w1, Exec(Step, s, es), f);
    SendsEvent(Exec(Step, s, es), f);
    StepKeepsInv(Exec(Step, s, es), Send(f));
    w', fs := FreeAmongOthers(nvFlip, w1, Step(Exec(Step, s, es), Send(f)), f);
  }

  method FreeAmongOthers(nvFlip: NvFlip, ghost w: World, ghost s: State, ghost f: FlipId)
    returns (ghost w': World, ghost fs: seq<Action>)
    requires Inv(s) && Mirrors(w, s) && f in w.flips && nvFlip == w.flips[f]
    requires f in s.flips && s.flips[f].place == Handled(true)
    modifies w.crtcs.Values, w.states.Values, w.flips.Values
    ensures Grows(w, w') && ByOthers(fs, {}, {f})
    ensures Mirrors(w', Step(Exec(Step, s, fs), FlipOwnership.Action.Free(f)))
    ensures var t := Step(Exec(Step, s, fs), FlipOwnership.Action.Free(f)); f in t.flips && t.flips[f].place == Freed
  {
    w', fs := OthersRun(w, s, {}, {f});
    HeldFlipStaysInRun(s, fs, f);
    FreesFlip(Exec(Step, s, fs), f);
    FreeTaken(nvFlip, w', Exec(Step, s, fs), f);
  }

  /** Sending and freeing a taken flip, with others before each. */
  function FinishedAmong(s: State, f: FlipId, es: seq<Action>, fs: seq<Action>): State {
    Step(Exec(Step, Step(Exec(Step, s, es), Send(f)), fs), FlipOwnership.Action.Free(f))
  }

  /** The handler's three steps on flip `f`, with others in between. */
  function HandledAmong(s: State, c: Crtc, f: FlipId, between: (seq<Action>, seq<Action>)): State {
    FinishedAmong(Step(s, Dequeue(c)), f, between.0, between.1)
  }

  lemma TakenFlip(s: State, c: Crtc)
    requires Inv(s) && c in s.lists && s.lists[c] != []
    ensures var f := FirstFlip(s, c);
            var s' := Step(s, Dequeue(c));
            f in s.flips && Inv(s') && f in s'.flips && s'.flips[f] == s.flips[f].(place := Handled(false))
  {
    HandlerFindsFlip(s, c);
    StepKeepsInv(s, Dequeue(c));
  }
}
