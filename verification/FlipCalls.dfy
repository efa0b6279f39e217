/** The commit tail, the flip handler and the state hooks of nvidia-410.93/nvidia-drm as the code runs
    them: pointers moved between CRTC state objects, flip objects and the flip lists of the CRTCs.

    Each method is proved to be steps of the machine in `FlipOwnership`. The machine's invariant in turn
    justifies what the code takes for granted, such as a flip object behind every `nv_flip` that the
    tail writes through. */
module FlipCalls {
  import opened Options
  import opened Runs
  import opened FlipOwnership

  class NvFlip {
    ghost const id: FlipId
    var event: Option<EventId>
    ghost var freed: bool

    constructor (ghost id: FlipId)
      ensures this.id == id && event == None && !freed
    {
      this.id := id;
      event := None;
      freed := false;
    }

    /** nv_drm_free; a second call on the same object cannot be made. */
    method Free()
      requires !freed
      modifies this
      ensures freed && event == old(event)
    {
      freed := true;
    }
  }

  class NvCrtcState {
    ghost const id: StateId
    var active: bool
    var event: Option<EventId>
    var nvFlip: NvFlip?

    constructor (ghost id: StateId, active: bool, nvFlip: NvFlip)
      ensures this.id == id && this.active == active && event == None && this.nvFlip == nvFlip
    {
      this.id := id;
      this.active := active;
      event := None;
      this.nvFlip := nvFlip;
    }
  }

  class NvCrtc {
    const head: Crtc
    var state: NvCrtcState
    var flipList: seq<NvFlip>

    constructor (head: Crtc, state: NvCrtcState)
      ensures this.head == head && this.state == state && flipList == []
    {
      this.head := head;
      this.state := state;
      flipList := [];
    }
  }

  /** The objects behind the names of the machine. */
  datatype World = World(crtcs: map<Crtc, NvCrtc>, states: map<StateId, NvCrtcState>, flips: map<FlipId, NvFlip>)

  ghost predicate ShowsFlip(o: NvFlip, f: FlipId, flip: Flip)
    reads o
  {
    o.id == f && o.event == flip.event && o.freed == (flip.place == Freed)
  }

  /** A flip pointer is null or leads to the object of that name. */
  ghost predicate PointsTo(flips: map<FlipId, NvFlip>, p: NvFlip?, f: Option<FlipId>) {
    if f == None then p == null else f.value in flips && p == flips[f.value]
  }

  ghost predicate ShowsState(o: NvCrtcState, flips: map<FlipId, NvFlip>, st: StateId, cs: CrtcState)
    reads o
  {
    o.id == st && o.active == cs.active && o.event == cs.event && PointsTo(flips, o.nvFlip, cs.flip)
  }

  ghost predicate Lists(flips: map<FlipId, NvFlip>, list: seq<NvFlip>, names: seq<FlipId>) {
    |list| == |names| && forall i :: 0 <= i < |names| ==> names[i] in flips && list[i] == flips[names[i]]
  }

  ghost predicate FlipsMirror(flips: map<FlipId, NvFlip>, named: map<FlipId, Flip>)
    reads flips.Values
  {
    forall f {:trigger f in named} :: f in named ==> f in flips && ShowsFlip(flips[f], f, named[f])
  }

  ghost predicate StatesMirror(states: map<StateId, NvCrtcState>, flips: map<FlipId, NvFlip>,
                               named: map<StateId, CrtcState>)
    reads states.Values
  {
    forall st {:trigger st in named} :: st in named ==> st in states && ShowsState(states[st], flips, st, named[st])
  }

  /** Every CRTC object leads to its current state object. */
  ghost predicate CurrentMirror(crtcs: map<Crtc, NvCrtc>, states: map<StateId, NvCrtcState>,
                                current: map<Crtc, StateId>)
    reads crtcs.Values`state
  {
    && crtcs.Keys == current.Keys
    && forall c {:trigger c in current} :: c in current ==>
         crtcs[c].head == c && current[c] in states && crtcs[c].state == states[current[c]]
  }

  ghost predicate ListsMirror(crtcs: map<Crtc, NvCrtc>, flips: map<FlipId, NvFlip>, lists: map<Crtc, seq<FlipId>>)
    reads crtcs.Values`flipList
  {
    && crtcs.Keys == lists.Keys
    && forall c {:trigger c in lists} :: c in lists ==> crtcs[c].head == c && Lists(flips, crtcs[c].flipList, lists[c])
  }

  ghost predicate Mirrors(w: World, s: State)
    reads w.crtcs.Values, w.states.Values, w.flips.Values
  {
    && FlipsMirror(w.flips, s.flips) && StatesMirror(w.states, w.flips, s.states)
    && CurrentMirror(w.crtcs, w.states, s.current) && ListsMirror(w.crtcs, w.flips, s.lists)
  }

  // ---------------------------------------------------------------------------------------------------
  // Single assignments
  // ---------------------------------------------------------------------------------------------------

  /** Assigning the flip pointer and the event of a state object. */
  method SetState(o: NvCrtcState, nvFlip: NvFlip?, event: Option<EventId>,
                  ghost states: map<StateId, NvCrtcState>, ghost flips: map<FlipId, NvFlip>,
                  ghost named: map<StateId, CrtcState>, ghost st: StateId, ghost f: Option<FlipId>)
    requires StatesMirror(states, flips, named) && st in named && o == states[st] && PointsTo(flips, nvFlip, f)
    modifies o
    ensures o.nvFlip == nvFlip && o.event == event && o.active == old(o.active)
    ensures StatesMirror(states, flips, named[st := named[st].(flip := f, event := event)])
  {
    assert ShowsState(o, flips, st, named[st]);
    o.nvFlip := nvFlip;
    o.event := event;
    forall x | x in named && x != st
      ensures x in states && ShowsState(states[x], flips, x, named[x])
    {
      assert states[x].id != o.id;
    }
  }

  /** Assigning the event of a flip object that is not freed; its place may change with it. */
  method SetFlipEvent(o: NvFlip, event: Option<EventId>, ghost flips: map<FlipId, NvFlip>,
                      ghost named: map<FlipId, Flip>, ghost f: FlipId, ghost place: Place)
    requires FlipsMirror(flips, named) && f in named && o == flips[f]
    requires named[f].place != Freed && place != Freed
    modifies o
    ensures o.event == event && o.freed == old(o.freed)
    ensures FlipsMirror(flips, named[f := named[f].(event := event, place := place)])
  {
    assert ShowsFlip(o, f, named[f]);
    o.event := event;
    forall g | g in named && g != f
      ensures g in flips && ShowsFlip(flips[g], g, named[g])
    {
      assert flips[g].id != o.id;
    }
  }

  /** nv_drm_free of a flip object, which must not have been freed before. */
  method FreeFlipObject(o: NvFlip, ghost flips: map<FlipId, NvFlip>, ghost named: map<FlipId, Flip>, ghost f: FlipId)
    requires FlipsMirror(flips, named) && f in named && o == flips[f] && named[f].place != Freed
    modifies o
    ensures o.freed && o.event == old(o.event)
    ensures FlipsMirror(flips, named[f := named[f].(place := Freed)])
  {
    assert ShowsFlip(o, f, named[f]);
    o.Free();
    forall g | g in named && g != f
      ensures g in flips && ShowsFlip(flips[g], g, named[g])
    {
      assert flips[g].id != o.id;
    }
  }

  /** Assigning the flip list of a CRTC. */
  method SetList(o: NvCrtc, list: seq<NvFlip>, ghost crtcs: map<Crtc, NvCrtc>, ghost flips: map<FlipId, NvFlip>,
                 ghost named: map<Crtc, seq<FlipId>>, ghost c: Crtc, ghost names: seq<FlipId>)
    requires ListsMirror(crtcs, flips, named) && c in named && o == crtcs[c] && Lists(flips, list, names)
    modifies o`flipList
    ensures o.flipList == list
    ensures ListsMirror(crtcs, flips, named[c := names])
  {
    o.flipList := list;
    forall d | d in named && d != c
      ensures crtcs[d].head == d && Lists(flips, crtcs[d].flipList, named[d])
    {
      assert crtcs[d].head != o.head;
    }
  }

  // ---------------------------------------------------------------------------------------------------
  // The commit tail
  // ---------------------------------------------------------------------------------------------------

  /** What one turn of the tail does to states, flips and lists, for a state `st` that holds flip `f`. */
  ghost predicate Tailed(s: State, s': State, c: Crtc, st: StateId, f: FlipId, quiet: bool)
    requires st in s.states && f in s.flips && c in s.lists
  {
    && s'.current == s.current
    && if quiet then
         && s'.states == s.states[st := s.states[st].(flip := None)]
         && s'.flips == s.flips[f := s.flips[f].(place := Freed)]
         && s'.lists == s.lists
       else
         && s'.states == s.states[st := s.states[st].(flip := None, event := None)]
         && s'.flips == s.flips[f := s.flips[f].(event := s.states[st].event, place := Listed(c))]
         && s'.lists == s.lists[c := [f] + s.lists[c]]
  }

  /** Neither the old nor the new state of the CRTC is active. */
  predicate Quiet(s: State, c: Crtc)
    requires Enabled(s, Tail(c))
  {
    !s.states[s.current[c]].active && !s.states[s.tails[c]].active
  }

  /** In every reachable state the tail finds a flip object that nobody has freed. */
  lemma TailFindsFlip(s: State, c: Crtc)
    requires Inv(s) && Enabled(s, Tail(c))
    ensures s.states[s.current[c]].flip.Some?
    ensures var f := s.states[s.current[c]].flip.value;
            && f in s.flips && s.flips[f].place == Owned(s.current[c])
            && Tailed(s, Step(s, Tail(c)), c, s.current[c], f, Quiet(s, c))
  {
    assert CrtcInv(s, c) && StateInv(s, s.current[c]);
  }

  /** The turn for a CRTC that is and stays off: the flip object is freed. */
  method TailQuiet(state: NvCrtcState, ghost w: World, ghost s: State, ghost s': State,
                   ghost c: Crtc, ghost st: StateId, ghost f: FlipId)
    requires Mirrors(w, s) && c in s.lists && st in s.states && state == w.states[st]
    requires s.states[st].flip == Some(f) && f in s.flips && s.flips[f].place != Freed
    requires Tailed(s, s', c, st, f, true)
    modifies state, state.nvFlip
    ensures old(state.nvFlip) != null && old(state.nvFlip).freed
    ensures state.nvFlip == null && state.event == old(state.event) && state.active == old(state.active)
    ensures Mirrors(w, s')
  {
    assert ShowsState(state, w.flips, st, s.states[st]);
    var nvFlip := state.nvFlip;
    SetState(state, null, state.event, w.states, w.flips, s.states, st, None);
    FreeFlipObject(nvFlip, w.flips, s.flips, f);
  }

  /** The flip object leaves the state together with the state's event. */
  method TakeFlip(state: NvCrtcState, ghost states: map<StateId, NvCrtcState>, ghost flips: map<FlipId, NvFlip>,
                  ghost s: State, ghost c: Crtc, ghost st: StateId, ghost f: FlipId)
    returns (nvFlip: NvFlip)
    requires FlipsMirror(flips, s.flips) && StatesMirror(states, flips, s.states)
    requires st in s.states && state == states[st]
    requires s.states[st].flip == Some(f) && f in s.flips && s.flips[f].place != Freed
    modifies state, state.nvFlip
    ensures f in flips && nvFlip == flips[f]
    ensures old(state.nvFlip) == nvFlip && nvFlip.event == old(state.event) && nvFlip.freed == old(nvFlip.freed)
    ensures state.nvFlip == null && state.event == None && state.active == old(state.active)
    ensures FlipsMirror(flips, s.flips[f := s.flips[f].(event := s.states[st].event, place := Listed(c))])
    ensures StatesMirror(states, flips, s.states[st := s.states[st].(flip := None, event := None)])
  {
    assert ShowsState(state, flips, st, s.states[st]);
    nvFlip := state.nvFlip;
    SetFlipEvent(nvFlip, state.event, flips, s.flips, f, Listed(c));
    SetState(state, null, None, states, flips, s.states, st, None);
  }

  /** The turn for any other CRTC: the flip object takes the event along to the head of the list. */
  method TailLists(nvCrtc: NvCrtc, ghost w: World, ghost s: State, ghost c: Crtc, ghost st: StateId, ghost f: FlipId)
    requires Mirrors(w, s) && c in w.crtcs && nvCrtc == w.crtcs[c] && st == s.current[c] && st in s.states
    requires s.states[st].flip == Some(f) && f in s.flips && s.flips[f].place != Freed
    modifies nvCrtc`flipList, nvCrtc.state, nvCrtc.state.nvFlip
    ensures nvCrtc.state == old(nvCrtc.state) && nvCrtc.state.nvFlip == null && nvCrtc.state.event == None
    ensures old(nvCrtc.state.nvFlip) != null && nvCrtc.flipList == [old(nvCrtc.state.nvFlip)] + old(nvCrtc.flipList)
    ensures old(nvCrtc.state.nvFlip).event == old(nvCrtc.state.event)
    ensures FlipsMirror(w.flips, s.flips[f := s.flips[f].(event := s.states[st].event, place := Listed(c))])
    ensures StatesMirror(w.states, w.flips, s.states[st := s.states[st].(flip := None, event := None)])
    ensures CurrentMirror(w.crtcs, w.states, s.current)
    ensures ListsMirror(w.crtcs, w.flips, s.lists[c := [f] + s.lists[c]])
  {
    var list := nvCrtc.flipList;
    assert Lists(w.flips, list, s.lists[c]);
    var nvFlip := TakeFlip(nvCrtc.state, w.states, w.flips, s, c, st, f);
    assert Lists(w.flips, [nvFlip] + list, [f] + s.lists[c]);
    SetList(nvCrtc, [nvFlip] + list, w.crtcs, w.flips, s.lists, c, [f] + s.lists[c]);
  }

  function Tails(order: seq<Crtc>): seq<Action> {
    seq(|order|, i requires 0 <= i < |order| => Tail(order[i]))
  }

  /** The machine after the first `i` turns of the loop. */
  ghost function After(s: State, order: seq<Crtc>, i: nat): State
    requires i <= |order|
  {
    if i == 0 then s else Step(After(s, order, i - 1), Tail(order[i - 1]))
  }

  lemma {:induction false} AfterIsRun(s: State, order: seq<Crtc>, i: nat)
    requires i <= |order|
    ensures After(s, order, i) == Exec(Step, s, Tails(order)[..i])
    decreases i
  {
    if i > 0 {
      AfterIsRun(s, order, i - 1);
      assert Tails(order)[..i] == Tails(order)[..i - 1] + [Tail(order[i - 1])];
      ExecSnoc(Step, s, Tails(order)[..i - 1], Tail(order[i - 1]));
    }
  }

  /** The CRTCs of a commit, each once, and each with its tail still to run. */
  ghost predicate Due(s: State, order: seq<Crtc>) {
    && (forall i, j :: 0 <= i < j < |order| ==> order[i] != order[j])
    && (forall i :: 0 <= i < |order| ==> Enabled(s, Tail(order[i])))
  }

  lemma TailLeavesOthers(s: State, c: Crtc, d: Crtc)
    requires Enabled(s, Tail(c)) && Enabled(s, Tail(d)) && c != d
    ensures Enabled(Step(s, Tail(c)), Tail(d)) && Step(s, Tail(c)).tails[d] == s.tails[d]
  {
  }

  /** Running some tails leaves the others due, and leaves alone the states they replace. */
  lemma {:induction false} TailsRun(s: State, order: seq<Crtc>, i: nat)
    requires Inv(s) && Due(s, order) && i <= |order|
    ensures Inv(After(s, order, i))
    ensures forall j :: i <= j < |order| ==>
              Enabled(After(s, order, i), Tail(order[j])) && After(s, order, i).tails[order[j]] == s.tails[order[j]]
    decreases i
  {
    if i > 0 {
      TailsRun(s, order, i - 1);
      var before := After(s, order, i - 1);
      StepKeepsInv(before, Tail(order[i - 1]));
      forall j | i <= j < |order|
        ensures Enabled(Step(before, Tail(order[i - 1])), Tail(order[j]))
        ensures Step(before, Tail(order[i - 1])).tails[order[j]] == s.tails[order[j]]
      {
        TailLeavesOthers(before, order[i - 1], order[j]);
      }
    }
  }

  /** The objects a turn of the loop meets: the CRTC and the state it had before. */
  ghost predicate TurnMeets(w: World, s: State, c: Crtc, nvCrtc: NvCrtc, oldState: NvCrtcState) {
    && c in w.crtcs && nvCrtc == w.crtcs[c]
    && c in s.tails && s.tails[c] in w.states && oldState == w.states[s.tails[c]]
  }

  /** What a turn finds when it begins, and where it leads. */
  ghost predicate TurnReady(w: World, now: State, next: State, c: Crtc, nvCrtc: NvCrtc, oldState: NvCrtcState) {
    && Inv(now) && Enabled(now, Tail(c)) && next == Step(now, Tail(c))
    && TurnMeets(w, now, c, nvCrtc, oldState)
  }

  ghost function TailStates(s: State, order: seq<Crtc>): seq<State> {
    seq(|order| + 1, i requires 0 <= i <= |order| => After(s, order, i))
  }

  /** Every turn of a commit that is due finds a tail to run, whatever the turns before it did. */
  lemma AllTurnsReady(w: World, s: State, order: seq<Crtc>, nvCrtcs: seq<NvCrtc>, oldStates: seq<NvCrtcState>)
    requires Inv(s) && Due(s, order) && |nvCrtcs| == |oldStates| == |order|
    requires forall i :: 0 <= i < |order| ==> TurnMeets(w, s, order[i], nvCrtcs[i], oldStates[i])
    ensures var run := TailStates(s, order);
            forall i :: 0 <= i < |order| ==> TurnReady(w, run[i], run[i + 1], order[i], nvCrtcs[i], oldStates[i])
  {
    var run := TailStates(s, order);
    forall i | 0 <= i < |order|
      ensures TurnReady(w, run[i], run[i + 1], order[i], nvCrtcs[i], oldStates[i])
    {
      assert TurnMeets(w, s, order[i], nvCrtcs[i], oldStates[i]);
      TurnIsReady(w, s, order, i, nvCrtcs[i], oldStates[i]);
    }
  }

  lemma TurnIsReady(w: World, s: State, order: seq<Crtc>, i: nat, nvCrtc: NvCrtc, oldState: NvCrtcState)
    requires Inv(s) && Due(s, order) && i < |order| && TurnMeets(w, s, order[i], nvCrtc, oldState)
    ensures TurnReady(w, After(s, order, i), After(s, order, i + 1), order[i], nvCrtc, oldState)
  {
    TailsRun(s, order, i);
  }

  /** The loop of nv_drm_atomic_helper_commit_tail over the CRTCs of a commit, which leads through the
      machine states of `run`. */
  method TailLoop(nvCrtcs: seq<NvCrtc>, oldStates: seq<NvCrtcState>,
                    ghost w: World, ghost run: seq<State>, ghost order: seq<Crtc>)
    requires |nvCrtcs| == |oldStates| == |order| && |run| == |order| + 1 && Mirrors(w, run[0])
    requires forall i :: 0 <= i < |order| ==>
               TurnReady(w, run[i], run[i + 1], order[i], nvCrtcs[i], oldStates[i])
    modifies w.crtcs.Values, w.states.Values, w.flips.Values
    ensures Mirrors(w, run[|order|])
  {
    for i := 0 to |nvCrtcs|
      invariant Mirrors(w, run[i])
    {
      TailTurn(nvCrtcs[i], oldStates[i], w, run[i], run[i + 1], order[i]);
    }
  }

  /** Those states are the ones along the run of the tails, one after the other. */
  lemma LoopIsRun(s: State, order: seq<Crtc>)
    ensures TailStates(s, order)[0] == s
    ensures TailStates(s, order)[|order|] == Exec(Step, s, Tails(order))
  {
    AfterIsRun(s, order, |order|);
    assert Tails(order)[..|order|] == Tails(order);
  }

  /** nv_drm_atomic_helper_commit_tail for a commit that is due, in any reachable state: the objects go
      through the run of the tails of its CRTCs. */
  method CommitTail(nvCrtcs: seq<NvCrtc>, oldStates: seq<NvCrtcState>,
                    ghost w: World, ghost s: State, ghost order: seq<Crtc>)
    requires Inv(s) && Due(s, order) && Mirrors(w, s)
    requires |nvCrtcs| == |oldStates| == |order|
    requires forall i :: 0 <= i < |order| ==> TurnMeets(w, s, order[i], nvCrtcs[i], oldStates[i])
    modifies w.crtcs.Values, w.states.Values, w.flips.Values
    ensures Mirrors(w, Exec(Step, s, Tails(order)))
  {
    AllTurnsReady(w, s, order, nvCrtcs, oldStates);
    LoopIsRun(s, order);
    TailLoop(nvCrtcs, oldStates, w, TailStates(s, order), order);
  }

  /** A turn in a reachable state is the machine's step. */
  method TailTurn(nvCrtc: NvCrtc, oldState: NvCrtcState,
                  ghost w: World, ghost s: State, ghost next: State, ghost c: Crtc)
    requires Mirrors(w, s) && TurnReady(w, s, next, c, nvCrtc, oldState)
    modifies w.crtcs.Values, w.states.Values, w.flips.Values
    ensures nvCrtc.state == old(nvCrtc.state) && nvCrtc.state.nvFlip == null && old(nvCrtc.state.nvFlip) != null
    ensures if !old(nvCrtc.state.active) && !old(oldState.active)
            then nvCrtc.flipList == old(nvCrtc.flipList) && old(nvCrtc.state.nvFlip).freed
            else && nvCrtc.flipList == [old(nvCrtc.state.nvFlip)] + old(nvCrtc.flipList)
                 && old(nvCrtc.state.nvFlip).event == old(nvCrtc.state.event) && nvCrtc.state.event == None
    ensures Mirrors(w, next)
  {
    TailFindsFlip(s, c);
    ghost var st := s.current[c];
    ghost var f := s.states[st].flip.value;
    assert s.tails[c] in s.states && ShowsState(oldState, w.flips, s.tails[c], s.states[s.tails[c]]);
    assert nvCrtc.state == w.states[st] && ShowsState(nvCrtc.state, w.flips, st, s.states[st]);
    if !nvCrtc.state.active && !oldState.active {
      TailQuiet(nvCrtc.state, w, s, next, c, st, f);
    } else {
      TailLists(nvCrtc, w, s, c, st, f);
    }
  }

  // ---------------------------------------------------------------------------------------------------
  // The flip handler
  // ---------------------------------------------------------------------------------------------------

  function FirstFlip(s: State, c: Crtc): FlipId
    requires c in s.lists && s.lists[c] != []
  {
    s.lists[c][0]
  }

  function HandlerSteps(c: Crtc, f: FlipId): seq<Action> {
    [Dequeue(c)] + [Send(f)] + [FlipOwnership.Action.Free(f)]
  }

  ghost predicate HandledOne(s: State, s': State, c: Crtc, f: FlipId)
    requires f in s.flips && c in s.lists && s.lists[c] != []
  {
    && s'.states == s.states && s'.current == s.current
    && s'.flips == s.flips[f := s.flips[f].(place := Freed)]
    && s'.lists == s.lists[c := s.lists[c][1..]]
    && s'.sent == if s.flips[f].event.Some? then s.sent + [(s.flips[f].event.value, f)] else s.sent
  }

  lemma ExecThree(s: State, a: Action, b: Action, c: Action)
    ensures Exec(Step, s, [a] + [b] + [c]) == Step(Step(Step(s, a), b), c)
  {
    ExecSnoc(Step, s, [a] + [b], c);
    ExecSnoc(Step, s, [a], b);
    assert [] + [a] == [a];
    ExecSnoc(Step, s, [], a);
  }

  lemma SendsEvent(s: State, f: FlipId)
    requires f in s.flips && s.flips[f].place == Handled(false)
    ensures var s' := Step(s, Send(f));
            && s'.states == s.states && s'.current == s.current && s'.lists == s.lists
            && s'.flips == s.flips[f := s.flips[f].(place := Handled(true))]
            && s'.sent == if s.flips[f].event.Some? then s.sent + [(s.flips[f].event.value, f)] else s.sent
  {
  }

  lemma FreesFlip(s: State, f: FlipId)
    requires f in s.flips && s.flips[f].place == Handled(true)
    ensures Step(s, FlipOwnership.Action.Free(f)) == s.(flips := s.flips[f := s.flips[f].(place := Freed)])
  {
  }

  /** The three steps of the handler take the first flip from its list to the free, with its event
      sent on the way. */
  lemma HandlerSequence(s: State, c: Crtc, f: FlipId)
    requires c in s.lists && s.lists[c] != [] && f == s.lists[c][0] && f in s.flips
    ensures HandledOne(s, Exec(Step, s, HandlerSteps(c, f)), c, f)
  {
    ExecThree(s, Dequeue(c), Send(f), FlipOwnership.Action.Free(f));
    var s1 := Step(s, Dequeue(c));
    assert s1 == s.(lists := s.lists[c := s.lists[c][1..]],
                    flips := s.flips[f := s.flips[f].(place := Handled(false))]);
    SendsEvent(s1, f);
    FreesFlip(Step(s1, Send(f)), f);
  }

  /** In every reachable state the handler finds a flip that has not been freed. */
  lemma HandlerFindsFlip(s: State, c: Crtc)
    requires Inv(s) && c in s.lists && s.lists[c] != []
    ensures FirstFlip(s, c) in s.flips && s.flips[FirstFlip(s, c)].place == Listed(c)
  {
    assert ListInv(s, c);
  }

  /** The handler on a CRTC whose list is not empty. */
  method HandleFirst(nvCrtc: NvCrtc, ghost w: World, ghost s: State, ghost c: Crtc, ghost f: FlipId)
    returns (sent: Option<EventId>)
    requires Mirrors(w, s) && c in w.crtcs && nvCrtc == w.crtcs[c] && nvCrtc.flipList != []
    requires f == FirstFlip(s, c) && f in s.flips && s.flips[f].place != Freed
    modifies nvCrtc`flipList, nvCrtc.flipList[0]
    ensures nvCrtc.flipList == old(nvCrtc.flipList)[1..] && old(nvCrtc.flipList)[0].freed
    ensures sent == old(nvCrtc.flipList[0].event)
    ensures sent == s.flips[f].event
    ensures FlipsMirror(w.flips, s.flips[f := s.flips[f].(place := Freed)])
    ensures StatesMirror(w.states, w.flips, s.states) && CurrentMirror(w.crtcs, w.states, s.current)
    ensures ListsMirror(w.crtcs, w.flips, s.lists[c := s.lists[c][1..]])
  {
    var list := nvCrtc.flipList;
    assert Lists(w.flips, list, s.lists[c]) && Lists(w.flips, list[1..], s.lists[c][1..]);
    var nvFlip := list[0];
    assert nvFlip == w.flips[f] && ShowsFlip(nvFlip, f, s.flips[f]);
    SetList(nvCrtc, list[1..], w.crtcs, w.flips, s.lists, c, s.lists[c][1..]);
    sent := nvFlip.event;
    FreeFlipObject(nvFlip, w.flips, s.flips, f);
  }

  /** The handler: an empty list is only warned about. */
  method HandleFlipEvent(nvCrtc: NvCrtc, ghost w: World, ghost s: State, ghost c: Crtc)
    returns (sent: Option<EventId>)
    requires Inv(s) && Mirrors(w, s) && c in w.crtcs && nvCrtc == w.crtcs[c]
    modifies nvCrtc`flipList, nvCrtc.flipList
    ensures if old(nvCrtc.flipList) == [] then nvCrtc.flipList == [] && sent == None
            else && nvCrtc.flipList == old(nvCrtc.flipList)[1..] && old(nvCrtc.flipList)[0].freed
                 && sent == old(nvCrtc.flipList[0].event)
    ensures s.lists[c] == [] ==> Mirrors(w, s) && sent == None
    ensures s.lists[c] != [] ==>
              && FirstFlip(s, c) in s.flips && sent == s.flips[FirstFlip(s, c)].event
              && Mirrors(w, Exec(Step, s, HandlerSteps(c, FirstFlip(s, c))))
  {
    assert Lists(w.flips, nvCrtc.flipList, s.lists[c]);
    if nvCrtc.flipList == [] {
      return None;
    }
    HandlerFindsFlip(s, c);
    ghost var f := FirstFlip(s, c);
    HandlerSequence(s, c, f);
    sent := HandleFirst(nvCrtc, w, s, c, f);
  }

  // ---------------------------------------------------------------------------------------------------
  // The state hooks
  // ---------------------------------------------------------------------------------------------------

  ghost predicate Destroyed(s: State, s': State, st: StateId, f: Option<FlipId>)
    requires f.Some? ==> f.value in s.flips
  {
    && s'.states == s.states - {st} && s'.current == s.current && s'.lists == s.lists
    && s'.flips == if f.Some? then s.flips[f.value := s.flips[f.value].(place := Freed)] else s.flips
  }

  /** In every reachable state the flip that goes with a destroyed state is still its own. */
  lemma DestroyFreesOwnFlip(s: State, st: StateId)
    requires Inv(s) && Enabled(s, Destroy(st))
    ensures var f := s.states[st].flip;
            && (f.Some? ==> f.value in s.flips && s.flips[f.value].place == Owned(st))
            && Destroyed(s, Step(s, Destroy(st)), st, f)
  {
    assert StateInv(s, st);
  }

  /** The destroy hook: a flip object that the commit did not take is freed with its state. */
  method DropState(state: NvCrtcState, ghost w: World, ghost s: State, ghost s': State,
                   ghost st: StateId, ghost f: Option<FlipId>)
    requires Mirrors(w, s) && st in s.states && state == w.states[st] && f == s.states[st].flip
    requires f.Some? ==> f.value in s.flips && s.flips[f.value].place != Freed
    requires Destroyed(s, s', st, f)
    modifies state, state.nvFlip
    ensures old(state.nvFlip) != null ==> old(state.nvFlip).freed
    ensures Mirrors(w, s')
  {
    assert ShowsState(state, w.flips, st, s.states[st]);
    if state.nvFlip != null {
      FreeFlipObject(state.nvFlip, w.flips, s.flips, f.value);
      SetState(state, null, state.event, w.states, w.flips, s.states, st, None);
    }
  }

  /** The destroy hook on any state that nothing refers to any more, in any reachable state. */
  method DestroyState(state: NvCrtcState, ghost w: World, ghost s: State, ghost st: StateId)
    requires Inv(s) && Mirrors(w, s) && st in s.states && st in w.states && state == w.states[st]
    requires st !in s.current.Values && st !in s.tails.Values
    modifies state, state.nvFlip
    ensures old(state.nvFlip) != null ==> old(state.nvFlip).freed
    ensures Mirrors(w, Step(s, Destroy(st)))
  {
    DestroyFreesOwnFlip(s, st);
    DropState(state, w, s, Step(s, Destroy(st)), st, s.states[st].flip);
  }

  /** Every name in use is the name of an object made earlier, so a new name is nobody's. */
  ghost predicate NamesKnown(s: State) {
    && (forall d :: d in s.current ==> s.current[d] in s.states)
    && (forall x :: x in s.states && s.states[x].flip.Some? ==> s.states[x].flip.value in s.flips)
    && (forall d, i :: d in s.lists && 0 <= i < |s.lists[d]| ==> s.lists[d][i] in s.flips)
  }

  lemma NamesAreKnown(s: State)
    requires Inv(s)
    ensures NamesKnown(s)
  {
    forall d | d in s.current
      ensures s.current[d] in s.states
    {
      assert CrtcInv(s, d);
    }
    forall x | x in s.states && s.states[x].flip.Some?
      ensures s.states[x].flip.value in s.flips
    {
      assert StateInv(s, x);
    }
    forall d, i | d in s.lists && 0 <= i < |s.lists[d]|
      ensures s.lists[d][i] in s.flips
    {
      assert ListInv(s, d);
    }
  }

  /** Naming a new flip object does not disturb what the old pointers lead to. */
  lemma NewFlipNamed(w: World, s: State, st: StateId, f: FlipId, nvFlip: NvFlip)
    requires Mirrors(w, s) && NamesKnown(s) && f !in s.flips
    requires ShowsFlip(nvFlip, f, Flip(None, Owned(st), st))
    ensures StatesMirror(w.states, w.flips[f := nvFlip], s.states)
    ensures ListsMirror(w.crtcs, w.flips[f := nvFlip], s.lists)
    ensures FlipsMirror(w.flips[f := nvFlip], s.flips[f := Flip(None, Owned(st), st)])
  {
    forall x | x in s.states
      ensures x in w.states && ShowsState(w.states[x], w.flips[f := nvFlip], x, s.states[x])
    {
      assert ShowsState(w.states[x], w.flips, x, s.states[x]);
    }
    forall d | d in s.lists
      ensures Lists(w.flips[f := nvFlip], w.crtcs[d].flipList, s.lists[d])
    {
      assert Lists(w.flips, w.crtcs[d].flipList, s.lists[d]);
    }
  }

  /** Nor does naming a new state object. */
  lemma NewStateNamed(crtcs: map<Crtc, NvCrtc>, states: map<StateId, NvCrtcState>, flips: map<FlipId, NvFlip>,
                      s: State, st: StateId, cs: CrtcState, state: NvCrtcState)
    requires StatesMirror(states, flips, s.states) && CurrentMirror(crtcs, states, s.current) && NamesKnown(s)
    requires st !in s.states && ShowsState(state, flips, st, cs)
    ensures StatesMirror(states[st := state], flips, s.states[st := cs])
    ensures CurrentMirror(crtcs, states[st := state], s.current)
  {
  }

  /** The duplicate hook: a new state with a new flip object, or nothing at all if either allocation
      fails. */
  method DuplicateState(nvCrtc: NvCrtc, stateMemory: bool, flipMemory: bool, ghost w: World, ghost s: State,
                        ghost c: Crtc, ghost st: StateId, ghost f: FlipId)
    returns (state: NvCrtcState?, ghost w': World)
    requires Inv(s) && Mirrors(w, s) && st !in s.used && f !in s.flips
    requires c in w.crtcs && nvCrtc == w.crtcs[c]
    ensures state != null <==> stateMemory && flipMemory
    ensures state == null ==> w' == w && Mirrors(w, s)
    ensures state != null ==>
              && fresh(state) && state.nvFlip != null && fresh(state.nvFlip)
              && state.active == nvCrtc.state.active && state.event == None
              && state.nvFlip.event == None && !state.nvFlip.freed
              && w' == w.(states := w.states[st := state], flips := w.flips[f := state.nvFlip])
              && Mirrors(w', Step(s, Duplicate(c, st, f)))
  {
    if !stateMemory || !flipMemory {
      return null, w;
    }
    NamesAreKnown(s);
    NewNameIsNobodys(s, st);
    state, w' := NewState(nvCrtc, w, s, c, st, f);
  }

  /** A state that exists has been named before. */
  lemma NewNameIsNobodys(s: State, st: StateId)
    requires Inv(s) && st !in s.used
    ensures st !in s.states
  {
    assert st in s.states ==> StateInv(s, st);
  }

  method NewState(nvCrtc: NvCrtc, ghost w: World, ghost s: State, ghost c: Crtc, ghost st: StateId, ghost f: FlipId)
    returns (state: NvCrtcState, ghost w': World)
    requires Mirrors(w, s) && NamesKnown(s) && Enabled(s, Duplicate(c, st, f)) && st !in s.states
    requires c in w.crtcs && nvCrtc == w.crtcs[c]
    ensures fresh(state) && state.nvFlip != null && fresh(state.nvFlip)
    ensures state.active == nvCrtc.state.active && state.event == None
    ensures state.nvFlip.event == None && !state.nvFlip.freed
    ensures w' == w.(states := w.states[st := state], flips := w.flips[f := state.nvFlip])
    ensures Mirrors(w', DoDuplicate(s, c, st, f))
  {
    var current := nvCrtc.state;
    assert s.current[c] in s.states && current == w.states[s.current[c]];
    assert ShowsState(current, w.flips, s.current[c], s.states[s.current[c]]);
    var nvFlip := new NvFlip(f);
    state := new NvCrtcState(st, current.active, nvFlip);
    w' := w.(states := w.states[st := state], flips := w.flips[f := nvFlip]);
    ghost var s' := DoDuplicate(s, c, st, f);
    NewFlipNamed(w, s, st, f, nvFlip);
    NewStateNamed(w.crtcs, w.states, w'.flips, s, st, s'.states[st], state);
  }
}
