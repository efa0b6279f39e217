/** What a run of the machine in `CommitProtocol` comes to for each commit: which CRTCs it marks for a flip,
    what its task programs, and which events go out. */
module CommitHistory {
  import opened Options
  import opened Runs
  import opened CommitProtocol

  // ------------------------------------------------------------------ which CRTCs get a flip

  /** The CRTCs among `crtcs` that are on now or will be: all but those that are and stay off. */
  function ToFlip(s: State, req: Request, crtcs: set<Crtc>): set<Crtc> {
    set c | c in crtcs && c in s.current && (s.current[c].active || c in req.active)
  }

  predicate MarksExactly(s: State, t: Task) {
    t.phase.Marking? ==> t.phase.flips == ToFlip(s, t.req, t.phase.marked) && QuietStayQuiet(s, t)
  }

  /** Those that are and stay off have no flip pending. */
  predicate QuietStayQuiet(s: State, t: Task)
    requires t.phase.Marking?
  {
    t.phase.marked - t.phase.flips !! s.pendingFlip
  }

  ghost predicate MarksInv(s: State) {
    forall k :: k in s.tasks ==> MarksExactly(s, s.tasks[k])
  }

  /** While a commit is marking, nobody turns its CRTCs on or off. */
  lemma MarkedStayAsTheyAre(s: State, a: Action, k: Commit, c: Crtc)
    requires Enabled(s, a) && k in s.tasks && c in s.tasks[k].req.crtcs && c in s.current
    requires a.Swap? ==> c !in s.tasks[a.k].req.crtcs
    ensures c in Step(s, a).current && Step(s, a).current[c].active == s.current[c].active
  {
  }

  lemma OwnMarksKept(s: State, a: Action, k: Commit)
    requires Enabled(s, a) && Actor(a) == Some(k) && (k in s.tasks ==> MarksExactly(s, s.tasks[k]))
    requires a.Mark? ==> s.tasks[k].phase.marked <= s.tasks[k].req.crtcs && a.c !in s.pendingFlip
    ensures k in Step(s, a).tasks && MarksExactly(Step(s, a), Step(s, a).tasks[k])
  {
  }

  lemma OthersMarksKept(s: State, a: Action, k: Commit)
    requires Enabled(s, a) && Actor(a) != Some(k) && k in s.tasks && MarksExactly(s, s.tasks[k])
    requires s.tasks[k].phase.Marking? ==> s.tasks[k].phase.marked <= s.tasks[k].req.crtcs <= s.current.Keys
    requires a.Swap? && s.tasks[k].phase.Marking? ==> s.tasks[k].req.crtcs !! s.tasks[a.k].req.crtcs
    requires a.Mark? && s.tasks[k].phase.Marking? ==> a.c !in s.tasks[k].req.crtcs
    ensures k in Step(s, a).tasks && MarksExactly(Step(s, a), Step(s, a).tasks[k])
  {
    var s' := Step(s, a);
    assert s'.tasks[k] == s.tasks[k];
    if s.tasks[k].phase.Marking? {
      var t := s.tasks[k];
      forall c | c in t.req.crtcs
        ensures c in s'.current && s'.current[c].active == s.current[c].active
      {
        MarkedStayAsTheyAre(s, a, k, c);
      }
      assert ToFlip(s', t.req, t.phase.marked) == ToFlip(s, t.req, t.phase.marked);
    }
  }

  lemma MarksKept(s: State, a: Action, k: Commit)
    requires Inv(s) && Enabled(s, a) && k in Step(s, a).tasks && (k in s.tasks ==> MarksExactly(s, s.tasks[k]))
    ensures MarksExactly(Step(s, a), Step(s, a).tasks[k])
  {
    assert k in s.tasks ==> FlagsInv(s, s.tasks[k]);
    if Actor(a) == Some(k) {
      assert a.Mark? ==> a.c !in s.pendingFlip;
      OwnMarksKept(s, a, k);
    } else {
      if (a.Swap? || a.Mark?) && s.tasks[k].phase.Marking? {
        CallsApart(s, k, a.k);
      }
      OthersMarksKept(s, a, k);
    }
  }

  // ------------------------------------------------------------------ whose state a due flip is for

  /** The state object that commit `k` proposed for `c`, event still attached. */
  predicate IsOwn(st: CrtcState, k: Commit, req: Request, c: Crtc) {
    && st.owner == Some(k)
    && (st.active <==> c in req.active)
    && st.event == if c in req.events then Some(Event(k, c)) else None
  }

  /** The states that commit `k` proposed, and no others. */
  predicate IsProposal(config: map<Crtc, CrtcState>, k: Commit, req: Request) {
    config.Keys == req.crtcs && forall c :: c in config ==> IsOwn(config[c], k, req, c)
  }

  ghost predicate DueIsOwn(s: State, f: (Crtc, Commit)) {
    f.1 in s.tasks && f.0 in s.current && IsOwn(s.current[f.0], f.1, s.tasks[f.1].req, f.0)
  }

  ghost predicate DueInv(s: State) {
    forall f :: f in s.flipsDue ==> DueIsOwn(s, f)
  }

  /** A flip that is due stays due on the state that it is for, until it is handled. */
  lemma DueKept(s: State, a: Action, f: (Crtc, Commit))
    requires Enabled(s, a) && f in s.flipsDue && DueIsOwn(s, f) && f in Step(s, a).flipsDue
    requires a.Swap? ==> f.0 !in s.tasks[a.k].req.crtcs
    requires a.SendFlip? && a.c == f.0 ==> a.k == f.1
    ensures DueIsOwn(Step(s, a), f)
  {
  }

  lemma DueKeptInRun(s: State, a: Action, f: (Crtc, Commit))
    requires Inv(s) && Enabled(s, a) && f in s.flipsDue && DueIsOwn(s, f) && f in Step(s, a).flipsDue
    ensures DueIsOwn(Step(s, a), f)
  {
    assert FlipInv(s, f);
    if a.Swap? {
      assert FlipApart(s.tasks[a.k], f.0) && FlagsInv(s, s.tasks[a.k]);
    }
    if a.SendFlip? {
      assert FlipInv(s, (a.c, a.k));
    }
    DueKept(s, a, f);
  }

  lemma RaisedIsOwn(s: State, a: Action, f: (Crtc, Commit))
    requires Inv(s) && Enabled(s, a) && f in Step(s, a).flipsDue && f !in s.flipsDue
    ensures DueIsOwn(Step(s, a), f)
  {
    assert FlagsInv(s, s.tasks[a.k]) && InstalledInv(s, a.k, s.tasks[a.k]);
  }

  // ------------------------------------------------------------------ what has been programmed

  /** This state is that of a commit whose task has got there, on one of its CRTCs. */
  predicate OfProgrammed(s: State, x: Applying) {
    && x.commit in s.tasks && Programmed(s.tasks[x.commit]) && x.crtc in s.tasks[x.commit].req.crtcs
    && x.installedBy == Some(x.commit)
  }

  ghost predicate AppliedInv(s: State) {
    forall x :: x in s.applied <==> OfProgrammed(s, x)
  }

  lemma AppliedKept(s: State, a: Action, x: Applying)
    requires Enabled(s, a) && (x in s.applied <==> OfProgrammed(s, x))
    requires a.Apply? ==> InstalledInv(s, a.k, s.tasks[a.k])
    ensures x in Step(s, a).applied <==> OfProgrammed(Step(s, a), x)
  {
  }

  // ------------------------------------------------------------------ all of it, in every run

  ghost predicate Exact(s: State) {
    Inv(s) && MarksInv(s) && DueInv(s) && AppliedInv(s)
  }

  lemma StepKeepsExact(s: State, a: Action)
    requires Exact(s)
    ensures Exact(Step(s, a))
  {
    StepKeepsInv(s, a);
    if Enabled(s, a) {
      var s' := Step(s, a);
      forall k | k in s'.tasks ensures MarksExactly(s', s'.tasks[k]) { MarksKept(s, a, k); }
      forall f | f in s'.flipsDue ensures DueIsOwn(s', f) {
        if f in s.flipsDue { DueKeptInRun(s, a, f); } else { RaisedIsOwn(s, a, f); }
      }
      assert a.Apply? ==> InstalledInv(s, a.k, s.tasks[a.k]);
      forall x
        ensures x in s'.applied <==> OfProgrammed(s', x)
      {
        AppliedKept(s, a, x);
      }
    }
  }

  lemma RunIsExact(heads: set<Crtc>, active: set<Crtc>, es: seq<Action>)
    ensures Exact(Exec(Step, Init(heads, active), es))
  {
    forall s, a | Exact(s) ensures Exact(Step(s, a)) { StepKeepsExact(s, a); }
    InvariantHolds(Step, Exact, Init(heads, active), es);
  }

  /** In every run: when a commit is swapped in, the CRTCs it has marked for a flip are exactly those of its
      request that are active in the replaced state or in the proposed one; all of its CRTCs are marked
      as having a commit pending, and then carry just what it proposed. */
  lemma SwappedInAsProposed(heads: set<Crtc>, active: set<Crtc>, es: seq<Action>, k: Commit)
    requires var s := Exec(Step, Init(heads, active), es);
             k in s.tasks && s.tasks[k].phase.Marking? && s.tasks[k].phase.marked == s.tasks[k].req.crtcs
    ensures var s := Exec(Step, Init(heads, active), es);
            var t, req := Exec(Step, Init(heads, active), es + [Swap(k)]), s.tasks[k].req;
      && k in t.tasks && t.tasks[k] == Task(req, Queued(ToFlip(s, req, req.crtcs)))
      && req.crtcs <= t.pendingCommit && req.crtcs * t.pendingFlip == ToFlip(s, req, req.crtcs)
      && t.current.Keys == s.current.Keys
      && (forall c :: c in t.current ==>
            if c in req.crtcs then IsOwn(t.current[c], k, req, c) else t.current[c] == s.current[c])
  {
    RunIsExact(heads, active, es);
    ExecSnoc(Step, Init(heads, active), es, Swap(k));
    SwapInstalls(Exec(Step, Init(heads, active), es), k);
  }

  lemma SwapInstalls(s: State, k: Commit)
    requires Exact(s) && k in s.tasks && s.tasks[k].phase.Marking? && s.tasks[k].phase.marked == s.tasks[k].req.crtcs
    ensures var t, req := Step(s, Swap(k)), s.tasks[k].req;
      && k in t.tasks && t.tasks[k] == Task(req, Queued(ToFlip(s, req, req.crtcs)))
      && req.crtcs <= t.pendingCommit && req.crtcs * t.pendingFlip == ToFlip(s, req, req.crtcs)
      && t.current.Keys == s.current.Keys
      && (forall c :: c in t.current ==>
            if c in req.crtcs then IsOwn(t.current[c], k, req, c) else t.current[c] == s.current[c])
  {
    assert FlagsInv(s, s.tasks[k]) && MarksExactly(s, s.tasks[k]) && s.tasks[k].req.crtcs <= s.current.Keys;
  }

  /** In every run: a flip that is reported while it is due sends the event its commit attached to that
      CRTC, if it did, and nothing else. */
  lemma HandledFlipSendsItsEvent(heads: set<Crtc>, active: set<Crtc>, es: seq<Action>, c: Crtc, k: Commit)
    requires (c, k) in Exec(Step, Init(heads, active), es).flipsDue
    ensures var s := Exec(Step, Init(heads, active), es);
            var t := Exec(Step, Init(heads, active), es + [SendFlip(c, k)]);
      && k in s.tasks && c in t.current && t.current[c].event == None
      && t.delivered == s.delivered + if c in s.tasks[k].req.events then [Delivery(Event(k, c), k)] else []
  {
    RunIsExact(heads, active, es);
    ExecSnoc(Step, Init(heads, active), es, SendFlip(c, k));
    assert DueIsOwn(Exec(Step, Init(heads, active), es), (c, k));
  }

  /** In every run: the states programmed are those of the commits whose task has come to that, on every
      CRTC of the commit, each the one this commit installed. */
  lemma ProgrammedAsCommitted(heads: set<Crtc>, active: set<Crtc>, es: seq<Action>, k: Commit, c: Crtc)
    ensures var s := Exec(Step, Init(heads, active), es);
      Applying(k, c, Some(k)) in s.applied <==>
        k in s.tasks && (s.tasks[k].phase.Applied? || s.tasks[k].phase.Finished?) && c in s.tasks[k].req.crtcs
  {
    RunIsExact(heads, active, es);
  }
}
