/** The way of a flip object and its event through the machine in `FlipOwnership`, from the duplicate hook
    to the free, told for every reachable state. */
module FlipHistory {
  import opened Options
  import opened Runs
  import opened FlipOwnership

  /** Names that no object of `s` has. */
  predicate New(s: State, st: StateId, f: FlipId, e: EventId) {
    st !in s.used && st !in s.states && f !in s.flips && e !in s.events
  }

  /** An update of one CRTC is prepared and swapped in, with event `e`. */
  function Proposal(c: Crtc, st: StateId, active: bool, f: FlipId, e: EventId): seq<Action> {
    [Duplicate(c, st, f)] + [SetActive(st, active)] + [Attach(st, e)] + [Install(c, st)]
  }

  lemma ExecFour(s: State, a: Action, b: Action, c: Action, d: Action)
    ensures Exec(Step, s, [a] + [b] + [c] + [d]) == Step(Step(Step(Step(s, a), b), c), d)
  {
    ExecSnoc(Step, s, [a] + [b] + [c], d);
    ExecSnoc(Step, s, [a] + [b], c);
    ExecSnoc(Step, s, [a], b);
    assert [] + [a] == [a];
    ExecSnoc(Step, s, [], a);
  }

  /** The new state object is current, carries its own flip and the event, is active or not as it was asked
      for, and its tail is due on the state it replaces. Nothing else has changed. */
  ghost predicate SwappedIn(s: State, t: State, c: Crtc, st: StateId, active: bool, f: FlipId, e: EventId)
    requires c in s.current
  {
    && t.states == s.states[st := CrtcState(c, active, Some(f), Some(e), true)]
    && t.flips == s.flips[f := Flip(None, Owned(st), st)]
    && t.events == s.events[e := EventRec(OnState(st), st)]
    && t.current == s.current[c := st] && t.tails == s.tails[c := s.current[c]]
    && t.lists == s.lists && t.sent == s.sent && t.fault == s.fault
  }

  lemma ProposalIsSwappedIn(s: State, c: Crtc, st: StateId, active: bool, f: FlipId, e: EventId)
    requires c in s.current && s.current[c] in s.states && c !in s.tails && New(s, st, f, e)
    ensures SwappedIn(s, Exec(Step, s, Proposal(c, st, active, f, e)), c, st, active, f, e)
  {
    ExecFour(s, Duplicate(c, st, f), SetActive(st, active), Attach(st, e), Install(c, st));
    ProposalIsPrepared(s, c, st, active, f, e);
    var prepared := Step(Step(Step(s, Duplicate(c, st, f)), SetActive(st, active)), Attach(st, e));
    Installs(prepared, c, st);
    var now := CrtcState(c, active, Some(f), Some(e), true);
    assert prepared.states[st := now] == s.states[st := now];
  }

  lemma Installs(s: State, c: Crtc, st: StateId)
    requires st in s.states && !s.states[st].installed && s.states[st].crtc == c && c in s.current && c !in s.tails
    ensures Step(s, Install(c, st)) == s.(states := s.states[st := s.states[st].(installed := true)],
                                          current := s.current[c := st], tails := s.tails[c := s.current[c]])
  {
  }

  lemma ProposalIsPrepared(s: State, c: Crtc, st: StateId, active: bool, f: FlipId, e: EventId)
    requires c in s.current && s.current[c] in s.states && New(s, st, f, e)
    ensures Step(Step(Step(s, Duplicate(c, st, f)), SetActive(st, active)), Attach(st, e))
         == s.(states := s.states[st := CrtcState(c, active, Some(f), Some(e), false)], used := s.used + {st},
               flips := s.flips[f := Flip(None, Owned(st), st)], events := s.events[e := EventRec(OnState(st), st)])
  {
    var s1 := Step(s, Duplicate(c, st, f));
    assert s1.states == s.states[st := CrtcState(c, s.states[s.current[c]].active, Some(f), None, false)];
    var s2 := Step(s1, SetActive(st, active));
    assert s2 == s1.(states := s.states[st := CrtcState(c, active, Some(f), None, false)]);
  }

  /** Then the tail runs, and the handler on the flip that it lists. */
  function Completion(c: Crtc, f: FlipId): seq<Action> {
    [Tail(c)] + [Dequeue(c)] + [Send(f)] + [FlipOwnership.Action.Free(f)]
  }

  /** The event has gone out with the flip of its state, which is freed; list and CRTC are as before. */
  ghost predicate Completed(s: State, t: State, c: Crtc, f: FlipId, e: EventId)
    requires c in s.current && s.current[c] in s.states && f in s.flips && e in s.events
  {
    && t.sent == s.sent + [(e, f)] && t.lists == s.lists && t.current == s.current && t.tails == s.tails - {c}
    && t.flips == s.flips[f := Flip(Some(e), Freed, s.flips[f].madeFor)]
    && t.events == s.events[e := EventRec(Sent, s.events[e].attachedTo)]
    && t.states == s.states[s.current[c] := s.states[s.current[c]].(flip := None, event := None)]
  }

  lemma TailTakesEvent(s: State, c: Crtc, f: FlipId, e: EventId)
    requires Enabled(s, Tail(c)) && f in s.flips && e in s.events
    requires s.states[s.current[c]].flip == Some(f) && s.states[s.current[c]].event == Some(e)
    requires s.states[s.current[c]].active || s.states[s.tails[c]].active
    ensures var t := Step(s, Tail(c));
      && t.states == s.states[s.current[c] := s.states[s.current[c]].(flip := None, event := None)]
      && t.flips == s.flips[f := Flip(Some(e), Listed(c), s.flips[f].madeFor)]
      && t.events == s.events[e := EventRec(OnFlip(f), s.events[e].attachedTo)]
      && t.lists == s.lists[c := [f] + s.lists[c]] && t.tails == s.tails - {c}
      && t.current == s.current && t.sent == s.sent
  {
  }

  lemma HandlerSendsEvent(s: State, c: Crtc, f: FlipId, e: EventId)
    requires c in s.lists && s.lists[c] != [] && s.lists[c][0] == f
    requires f in s.flips && s.flips[f].event == Some(e) && e in s.events
    ensures var t := Step(Step(Step(s, Dequeue(c)), Send(f)), FlipOwnership.Action.Free(f));
      && t == s.(lists := s.lists[c := s.lists[c][1..]],
                 flips := s.flips[f := s.flips[f].(place := Freed)],
                 events := s.events[e := s.events[e].(place := Sent)],
                 sent := s.sent + [(e, f)])
  {
    var s1 := Step(s, Dequeue(c));
    assert s1 == s.(lists := s.lists[c := s.lists[c][1..]],
                    flips := s.flips[f := s.flips[f].(place := Handled(false))]);
    var s2 := Step(s1, Send(f));
    assert s2 == s1.(flips := s.flips[f := s.flips[f].(place := Handled(true))],
                     events := s.events[e := s.events[e].(place := Sent)], sent := s.sent + [(e, f)]);
  }

  lemma TailThenHandler(s: State, c: Crtc, f: FlipId, e: EventId)
    requires Enabled(s, Tail(c)) && f in s.flips && e in s.events
    requires s.states[s.current[c]].flip == Some(f) && s.states[s.current[c]].event == Some(e)
    requires s.states[s.current[c]].active || s.states[s.tails[c]].active
    ensures Completed(s, Exec(Step, s, Completion(c, f)), c, f, e)
  {
    ExecFour(s, Tail(c), Dequeue(c), Send(f), FlipOwnership.Action.Free(f));
    TailTakesEvent(s, c, f, e);
    var t := Step(s, Tail(c));
    assert t.lists[c][1..] == s.lists[c] && s.lists[c := [f] + s.lists[c]][c := s.lists[c]] == s.lists;
    HandlerSendsEvent(t, c, f, e);
  }

  /** In every reachable state, whatever else is under way on other CRTCs or on the list of this one: an
      update with an event, of a CRTC that is on before or after it, sends that event with its own flip
      and frees the flip; and the CRTC is left with the state that was asked for. */
  lemma UpdateSendsItsEvent(heads: set<Crtc>, run: seq<Action>, c: Crtc, st: StateId, active: bool,
                            f: FlipId, e: EventId)
    requires var s := Exec(Step, Init(heads), run);
             && c in s.current && c !in s.tails && New(s, st, f, e)
             && s.current[c] in s.states && (active || s.states[s.current[c]].active)
    ensures var s := Exec(Step, Init(heads), run);
            var t := Exec(Step, s, Proposal(c, st, active, f, e) + Completion(c, f));
      && t.sent == s.sent + [(e, f)] && t.lists == s.lists && t.tails == s.tails
      && t.current == s.current[c := st] && st in t.states
      && t.states[st] == CrtcState(c, active, None, None, true)
      && f in t.flips && t.flips[f].place == Freed
  {
    var s := Exec(Step, Init(heads), run);
    RunKeepsInv(heads, run);
    assert CrtcInv(s, c);
    ProposalIsSwappedIn(s, c, st, active, f, e);
    var mid := Exec(Step, s, Proposal(c, st, active, f, e));
    assert s.tails[c := s.current[c]] - {c} == s.tails;
    TailThenHandler(mid, c, f, e);
    ExecSplit(Step, s, Proposal(c, st, active, f, e), Completion(c, f));
  }

  /** On a CRTC that is and stays off, the tail frees the flip, sends nothing and leaves the event where it
      is. */
  lemma QuietTailFreesFlip(heads: set<Crtc>, run: seq<Action>, c: Crtc)
    requires var s := Exec(Step, Init(heads), run);
             Enabled(s, Tail(c)) && !s.states[s.current[c]].active && !s.states[s.tails[c]].active
    ensures var s := Exec(Step, Init(heads), run);
            var t := Exec(Step, Init(heads), run + [Tail(c)]);
      && s.states[s.current[c]].flip.Some? && s.states[s.current[c]].flip.value in t.flips
      && t.flips[s.states[s.current[c]].flip.value].place == Freed
      && t.lists == s.lists && t.sent == s.sent && t.events == s.events && t.current == s.current
      && t.states == s.states[s.current[c] := s.states[s.current[c]].(flip := None)]
  {
    var s := Exec(Step, Init(heads), run);
    RunKeepsInv(heads, run);
    assert CrtcInv(s, c) && StateInv(s, s.current[c]);
    ExecSnoc(Step, Init(heads), run, Tail(c));
  }

  /** A state that is destroyed unsent takes its flip and its event with it. */
  lemma DestroyDropsBoth(heads: set<Crtc>, run: seq<Action>, st: StateId)
    requires var s := Exec(Step, Init(heads), run);
             st in s.states && st !in s.current.Values && st !in s.tails.Values
    ensures var s := Exec(Step, Init(heads), run);
            var t := Exec(Step, Init(heads), run + [Destroy(st)]);
      && t.states == s.states - {st} && t.current == s.current && t.lists == s.lists && t.sent == s.sent
      && (s.states[st].flip.Some? ==>
            s.states[st].flip.value in t.flips && t.flips[s.states[st].flip.value].place == Freed)
      && (s.states[st].event.Some? ==>
            s.states[st].event.value in t.events && t.events[s.states[st].event.value].place == Dropped)
  {
    var s := Exec(Step, Init(heads), run);
    RunKeepsInv(heads, run);
    assert StateInv(s, st);
    ExecSnoc(Step, Init(heads), run, Destroy(st));
  }

  lemma RunKeepsInv(heads: set<Crtc>, run: seq<Action>)
    ensures Inv(Exec(Step, Init(heads), run))
  {
    forall s, a | Inv(s) ensures Inv(Step(s, a)) { StepKeepsInv(s, a); }
    InvariantHolds(Step, Inv, Init(heads), run);
  }
}
