/** The whole of nv_drm_atomic_commit_internal and of the commit task in
    nvidia-410.93/nvidia-drm/nvidia-drm-modeset.c, with other commits, tasks and flip handlers running
    between any two of their atomic sections. */
module CommitInterleaved {
  import opened Options
  import opened Runs
  import opened CommitProtocol
  import opened CommitHistory
  import opened CommitCalls

  datatype Rc = Success | NoMemory | Busy

  ghost predicate ByOthers(es: seq<Action>, k: Commit) {
    forall i :: 0 <= i < |es| ==> Actor(es[i]) != Some(k)
  }

  /** What others do in the meantime. Nothing is known of it but this contract, which any sequence of
      steps meets that commit `k` takes no part in; so what the callers prove holds for all of them. */
  method OthersRun(crtcs: Crtcs, ghost k: Commit, ghost s: State) returns (ghost es: seq<Action>)
    requires Mirrors(crtcs, s)
    modifies crtcs.Values
    ensures ByOthers(es, k) && Mirrors(crtcs, Exec(Step, s, es))
  {
    es := [];
  }

  lemma OthersKeepTask(s: State, a: Action, k: Commit)
    requires LocksInv(s) && Actor(a) != Some(k) && k in s.tasks
    ensures k in Step(s, a).tasks && Step(s, a).tasks[k] == s.tasks[k]
    ensures Step(s, a).current.Keys == s.current.Keys
  {
    if Enabled(s, a) { RequestsKept(s, a, k); }
  }

  /** A commit that has not written its states yet. */
  predicate Proposing(t: Task) {
    t.phase.Checking? || t.phase.Marking?
  }

  /** Each of these CRTCs is on in one state exactly if it is in the other. */
  ghost predicate SameActive(s: State, t: State, crtcs: set<Crtc>) {
    forall c :: c in crtcs && c in s.current ==> c in t.current && t.current[c].active == s.current[c].active
  }

  /** None of these CRTCs has got a flip pending. */
  ghost predicate NoNewFlips(s: State, t: State, crtcs: set<Crtc>) {
    forall c :: c in crtcs && c in t.pendingFlip ==> c in s.pendingFlip
  }

  lemma OthersKeepActive(s: State, a: Action, k: Commit)
    requires Inv(s) && Actor(a) != Some(k) && k in s.tasks && Proposing(s.tasks[k])
    ensures SameActive(s, Step(s, a), s.tasks[k].req.crtcs) && NoNewFlips(s, Step(s, a), s.tasks[k].req.crtcs)
  {
    if Enabled(s, a) {
      if a.Swap? || a.Mark? {
        CallsApart(s, k, a.k);
      }
      forall c | c in s.tasks[k].req.crtcs && c in s.current
        ensures c in Step(s, a).current && Step(s, a).current[c].active == s.current[c].active
      {
        MarkedStayAsTheyAre(s, a, k, c);
      }
    }
  }

  /** Others leave the invariant and the commit's own record alone, and until it is swapped in they neither
      turn its CRTCs on or off nor mark them for a flip. */
  lemma {:induction false} OthersKeep(s: State, es: seq<Action>, k: Commit)
    requires Inv(s) && k in s.tasks && ByOthers(es, k)
    ensures var t := Exec(Step, s, es);
            && Inv(t) && k in t.tasks && t.tasks[k] == s.tasks[k] && t.current.Keys == s.current.Keys
            && (Proposing(s.tasks[k]) ==>
                  SameActive(s, t, s.tasks[k].req.crtcs) && NoNewFlips(s, t, s.tasks[k].req.crtcs))
    decreases |es|
  {
    if es != [] {
      StepKeepsInv(s, es[0]);
      OthersKeepTask(s, es[0], k);
      if Proposing(s.tasks[k]) {
        OthersKeepActive(s, es[0], k);
      }
      OthersKeep(Step(s, es[0]), es[1..], k);
    }
  }

  /** Until it is swapped in, a call that began in `s` finds its CRTCs on or off as they were then, and has
      marked for a flip those that were on or will be. */
  ghost predicate AsFound(s: State, now: State, t: Task) {
    && (Proposing(t) ==> SameActive(s, now, t.req.crtcs) && t.req.crtcs <= s.current.Keys)
    && (t.phase.Marking? ==>
          t.phase.flips == ToFlip(s, t.req, t.phase.marked) && t.phase.marked <= t.req.crtcs && QuietStayQuiet(now, t))
  }

  /** The state a call has reached, and the run that led there. */
  ghost predicate Reached(s: State, es: seq<Action>, now: State, k: Commit, t: Task) {
    && now == Exec(Step, s, es) && Inv(now) && k in now.tasks && now.tasks[k] == t
    && t.req.crtcs <= now.current.Keys && AsFound(s, now, t)
  }

  lemma ReachedByOthers(s: State, es: seq<Action>, now: State, k: Commit, t: Task, fs: seq<Action>)
    requires Reached(s, es, now, k, t) && ByOthers(fs, k)
    ensures Reached(s, es + fs, Exec(Step, now, fs), k, t)
  {
    ExecSplit(Step, s, es, fs);
    OthersKeep(now, fs, k);
  }

  lemma ReachedByStep(s: State, es: seq<Action>, now: State, k: Commit, t: Task, a: Action, t': Task)
    requires Reached(s, es, now, k, t) && t'.req == t.req
    requires k in Step(now, a).tasks && Step(now, a).tasks[k] == t' && Step(now, a).current.Keys == now.current.Keys
    requires AsFound(s, Step(now, a), t')
    ensures Reached(s, es + [a], Step(now, a), k, t')
  {
    ExecSnoc(Step, s, es, a);
    StepKeepsInv(now, a);
  }

  /** Reading a flag, in the nonblocking check or at the end of a wait that others had time to end: down,
      and the commit goes on; or up, and it gives up. */
  method SeeFlag(crtcs: Crtcs, c: Crtc, flip: bool, ghost k: Commit, ghost s: State, ghost es: seq<Action>,
                 ghost now: State, ghost t: Task)
    returns (idle: bool, ghost es': seq<Action>, ghost now': State, ghost t': Task)
    requires Mirrors(crtcs, now) && Reached(s, es, now, k, t) && t.phase.Checking? && c in t.req.crtcs
    modifies crtcs.Values
    ensures Mirrors(crtcs, now') && Reached(s, es', now', k, t')
    ensures !idle ==> t' == t.(phase := CommitProtocol.Busy)
    ensures idle ==> t' == t.(phase := if flip then t.phase.(flipIdle := t.phase.flipIdle + {c})
                                       else t.phase.(commitIdle := t.phase.commitIdle + {c}))
  {
    ghost var fs := OthersRun(crtcs, k, now);
    ReachedByOthers(s, es, now, k, t, fs);
    ghost var mid := Exec(Step, now, fs);
    assert Shows(crtcs[c], c, mid);
    idle := if flip then !crtcs[c].hasPendingFlipEvent else !crtcs[c].hasPendingCommit;
    ghost var a := if !idle then GiveUp(k) else if flip then SeeFlipIdle(k, c) else SeeCommitIdle(k, c);
    SeeingKeepsDevice(mid, k, c, a);
    t' := Step(mid, a).tasks[k];
    ReachedByStep(s, es + fs, mid, k, t, a, t');
    MirrorKept(crtcs, mid, Step(mid, a));
    es', now' := (es + fs) + [a], Step(mid, a);
  }

  lemma SeeingKeepsDevice(s: State, k: Commit, c: Crtc, a: Action)
    requires k in s.tasks && s.tasks[k].phase.Checking? && c in s.tasks[k].req.crtcs
    requires if c in s.pendingFlip then a == GiveUp(k) || (c !in s.pendingCommit && a == SeeCommitIdle(k, c))
             else a == SeeFlipIdle(k, c) || (if c in s.pendingCommit then a == GiveUp(k) else a == SeeCommitIdle(k, c))
    ensures SameDevice(s, Step(s, a)) && k in Step(s, a).tasks && Step(s, a).tasks[k].req == s.tasks[k].req
    ensures a.GiveUp? ==> Step(s, a).tasks[k].phase == CommitProtocol.Busy
    ensures var p := s.tasks[k].phase;
            && (a.SeeFlipIdle? ==> Step(s, a).tasks[k].phase == p.(flipIdle := p.flipIdle + {c}))
            && (a.SeeCommitIdle? ==> Step(s, a).tasks[k].phase == p.(commitIdle := p.commitIdle + {c}))
  {
    if a.GiveUp? {
      assert c in s.tasks[k].req.crtcs * (s.pendingFlip + s.pendingCommit);
    }
  }

  /** Both branches of the check: the nonblocking one reads the flags as they are, commit flag first, the
      blocking one waits for each, flip flag first. The first flag found up ends the commit. */
  method CheckAll(crtcs: Crtcs, order: seq<Crtc>, req: Request, ghost k: Commit, ghost s: State,
                  ghost es: seq<Action>, ghost now: State)
    returns (idle: bool, ghost es': seq<Action>, ghost now': State, ghost t: Task)
    requires Mirrors(crtcs, now) && Visits(order, req) && Reached(s, es, now, k, Task(req, Checking({}, {})))
    modifies crtcs.Values
    ensures Mirrors(crtcs, now') && Reached(s, es', now', k, t) && t.req == req
    ensures idle ==> t.phase == Checking(req.crtcs, req.crtcs)
    ensures !idle ==> t.phase == CommitProtocol.Busy
  {
    es', now', t := es, now, Task(req, Checking({}, {}));
    assert Visited(order, 0) == {};
    for i := 0 to |order|
      invariant Mirrors(crtcs, now') && Reached(s, es', now', k, t)
      invariant t == Task(req, Checking(Visited(order, i), Visited(order, i)))
    {
      var c := order[i];
      VisitedGrows(order, req, i);
      idle, es', now', t := SeeFlag(crtcs, c, !req.nonblock, k, s, es', now', t);
      if !idle {
        return;
      }
      idle, es', now', t := SeeFlag(crtcs, c, req.nonblock, k, s, es', now', t);
      if !idle {
        return;
      }
    }
    assert Visited(order, |order|) == req.crtcs;
    idle := true;
  }

  /** The marking loop among others. */
  method MarkAll(crtcs: Crtcs, order: seq<Crtc>, req: Request, ghost k: Commit, ghost s: State,
                 ghost es: seq<Action>, ghost now: State)
    returns (ghost es': seq<Action>, ghost now': State, ghost t: Task)
    requires Mirrors(crtcs, now) && Visits(order, req) && Reached(s, es, now, k, Task(req, Marking({}, {})))
    modifies crtcs.Values
    ensures Mirrors(crtcs, now') && Reached(s, es', now', k, t)
    ensures t == Task(req, Marking(req.crtcs, ToFlip(s, req, req.crtcs)))
  {
    es', now', t := es, now, Task(req, Marking({}, {}));
    assert Visited(order, 0) == {};
    for i := 0 to |order|
      invariant Mirrors(crtcs, now') && Reached(s, es', now', k, t)
      invariant t.req == req && t.phase.Marking? && t.phase.marked == Visited(order, i)
    {
      VisitedGrows(order, req, i);
      es', now', t := MarkNext(crtcs, order[i], req.active, k, s, es', now', t);
    }
    assert Visited(order, |order|) == req.crtcs;
  }

  method MarkNext(crtcs: Crtcs, c: Crtc, active: set<Crtc>, ghost k: Commit, ghost s: State,
                  ghost es: seq<Action>, ghost now: State, ghost t: Task)
    returns (ghost es': seq<Action>, ghost now': State, ghost t': Task)
    requires Mirrors(crtcs, now) && Reached(s, es, now, k, t) && t.phase.Marking? && active == t.req.active
    requires c in t.req.crtcs - t.phase.marked
    modifies crtcs.Values
    ensures Mirrors(crtcs, now') && Reached(s, es', now', k, t')
    ensures t'.req == t.req && t'.phase.Marking? && t'.phase.marked == t.phase.marked + {c}
  {
    ghost var fs := OthersRun(crtcs, k, now);
    ReachedByOthers(s, es, now, k, t, fs);
    ghost var mid := Exec(Step, now, fs);
    MarkReached(s, es + fs, mid, k, t, c);
    MarkOne(crtcs, c, k, mid, active);
    es', now' := (es + fs) + [Mark(k, c)], Step(mid, Mark(k, c));
    t' := now'.tasks[k];
  }

  /** One more CRTC marked, for a flip if it was on when the call began or will be. */
  lemma MarkAsFound(s: State, now: State, k: Commit, t: Task, c: Crtc)
    requires AsFound(s, now, t) && t.phase.Marking? && c in t.req.crtcs - t.phase.marked && c in now.current
    requires k in now.tasks && now.tasks[k] == t && c !in now.pendingFlip
    ensures var now' := Step(now, Mark(k, c));
            && Enabled(now, Mark(k, c)) && k in now'.tasks && now'.current == now.current
            && now'.tasks[k] == Task(t.req, Marking(t.phase.marked + {c}, ToFlip(s, t.req, t.phase.marked + {c})))
            && QuietStayQuiet(now', now'.tasks[k])
  {
    assert ToFlip(s, t.req, t.phase.marked + {c})
        == ToFlip(s, t.req, t.phase.marked) + if s.current[c].active || c in t.req.active then {c} else {};
    assert Step(now, Mark(k, c)).tasks[k].phase.flips == ToFlip(s, t.req, t.phase.marked + {c});
  }

  lemma MarkReached(s: State, es: seq<Action>, now: State, k: Commit, t: Task, c: Crtc)
    requires Reached(s, es, now, k, t) && t.phase.Marking? && c in t.req.crtcs - t.phase.marked
    ensures var now' := Step(now, Mark(k, c));
            && Enabled(now, Mark(k, c)) && k in now'.tasks
            && Reached(s, es + [Mark(k, c)], now', k, now'.tasks[k])
            && now'.tasks[k].req == t.req && now'.tasks[k].phase.Marking?
            && now'.tasks[k].phase.marked == t.phase.marked + {c}
  {
    assert FlagsInv(now, t);
    MarkAsFound(s, now, k, t, c);
    ReachedByStep(s, es, now, k, t, Mark(k, c), Step(now, Mark(k, c)).tasks[k]);
  }

  /** nv_drm_atomic_commit_internal up to the hand-over to the commit task. Whatever others do meanwhile,
      the CRTC objects go through a run of the machine, in which the commit ends refused, or marked and
      swapped in; `BusyCommitChangesNothing` then says that a refused one has changed nothing itself. */
  method CommitInternal(crtcs: Crtcs, order: seq<Crtc>, k: Commit, req: Request, hasMemory: bool, ghost s: State)
    returns (rc: Rc, ghost es: seq<Action>)
    requires Inv(s) && Mirrors(crtcs, s) && Visits(order, req) && Enabled(s, Begin(k, req))
    modifies crtcs.Values
    ensures Mirrors(crtcs, Exec(Step, s, es)) && Inv(Exec(Step, s, es))
    ensures rc == NoMemory <==> !hasMemory
    ensures rc == NoMemory ==> es == []
    ensures rc != NoMemory ==>
              && k in Exec(Step, s, es).tasks && Exec(Step, s, es).tasks[k].req == req
              && if rc == Rc.Busy then Exec(Step, s, es).tasks[k].phase == CommitProtocol.Busy
                 else Exec(Step, s, es).tasks[k].phase == Queued(ToFlip(s, req, req.crtcs))
    ensures rc == Success ==>
              forall c :: c in req.crtcs ==>
                && c in crtcs && crtcs[c].hasPendingCommit && IsOwn(crtcs[c].state, k, req, c)
                && (crtcs[c].hasPendingFlipEvent <==> c in ToFlip(s, req, req.crtcs))
  {
    if !hasMemory {
      return NoMemory, [];
    }
    ghost var begun := Step(s, Begin(k, req));
    BeginReached(s, k, req);
    MirrorKept(crtcs, s, begun);
    ghost var now, t;
    var idle;
    idle, es, now, t := CheckAll(crtcs, order, req, k, s, [Begin(k, req)], begun);
    if !idle {
      return Rc.Busy, es;
    }
    ghost var started := Step(now, StartMarking(k));
    StartReached(s, es, now, k, t);
    MirrorKept(crtcs, now, started);
    es, now, t := MarkAll(crtcs, order, req, k, s, es + [StartMarking(k)], started);
    SwapState(crtcs, order, k, req, now);
    SwapReached(s, es, now, k, t);
    es := es + [Swap(k)];
    rc := Success;
    QueuedShows(crtcs, Exec(Step, s, es), k, Task(req, Queued(ToFlip(s, req, req.crtcs))));
  }

  /** What the objects of a queued commit look like. */
  lemma QueuedShows(crtcs: Crtcs, s: State, k: Commit, t: Task)
    requires Inv(s) && Mirrors(crtcs, s) && k in s.tasks && s.tasks[k] == t && t.phase.Queued?
    requires t.req.crtcs * s.pendingFlip == t.phase.flips
    ensures forall c :: c in t.req.crtcs ==>
              && c in crtcs && crtcs[c].hasPendingCommit && IsOwn(crtcs[c].state, k, t.req, c)
              && (crtcs[c].hasPendingFlipEvent <==> c in t.phase.flips)
  {
    assert FlagsInv(s, t) && InstalledInv(s, k, t);
    forall c | c in t.req.crtcs
      ensures c in crtcs && Shows(crtcs[c], c, s)
    {
    }
  }

  lemma BeginReached(s: State, k: Commit, req: Request)
    requires Inv(s) && Enabled(s, Begin(k, req))
    ensures SameDevice(s, Step(s, Begin(k, req)))
    ensures Reached(s, [Begin(k, req)], Step(s, Begin(k, req)), k, Task(req, Checking({}, {})))
  {
    assert Exec(Step, s, [Begin(k, req)]) == Step(s, Begin(k, req));
    StepKeepsInv(s, Begin(k, req));
  }

  lemma StartReached(s: State, es: seq<Action>, now: State, k: Commit, t: Task)
    requires Reached(s, es, now, k, t) && t.phase == Checking(t.req.crtcs, t.req.crtcs)
    ensures SameDevice(now, Step(now, StartMarking(k)))
    ensures Reached(s, es + [StartMarking(k)], Step(now, StartMarking(k)), k, Task(t.req, Marking({}, {})))
  {
    ReachedByStep(s, es, now, k, t, StartMarking(k), Task(t.req, Marking({}, {})));
  }

  lemma SwapReached(s: State, es: seq<Action>, now: State, k: Commit, t: Task)
    requires Reached(s, es, now, k, t) && t.phase.Marking? && t.phase.marked == t.req.crtcs
    ensures Reached(s, es + [Swap(k)], Step(now, Swap(k)), k, Task(t.req, Queued(t.phase.flips)))
    ensures t.req.crtcs * Step(now, Swap(k)).pendingFlip == t.phase.flips
  {
    assert FlagsInv(now, t);
    assert Step(now, Swap(k)).current.Keys == now.current.Keys;
    ReachedByStep(s, es, now, k, t, Swap(k), Task(t.req, Queued(t.phase.flips)));
  }

  // ---------------------------------------------------------------------------------------------------
  // The commit task
  // ---------------------------------------------------------------------------------------------------

  /** The commit task from beginning to end. Whatever others have done since the swap and do meanwhile, it
      hands over exactly the configuration its commit proposed and ends with no commit of its own pending. */
  method CommitTask(crtcs: Crtcs, order: seq<Crtc>, req: Request,
                    ghost k: Commit, ghost raises: set<Crtc>, ghost s: State)
    returns (config: map<Crtc, CrtcState>, ghost es: seq<Action>)
    requires Inv(s) && Mirrors(crtcs, s) && Visits(order, req)
    requires k in s.tasks && s.tasks[k].req == req && s.tasks[k].phase.Queued? && raises <= s.tasks[k].phase.flips
    modifies crtcs.Values
    ensures IsProposal(config, k, req)
    ensures Mirrors(crtcs, Exec(Step, s, es)) && Inv(Exec(Step, s, es))
    ensures k in Exec(Step, s, es).tasks && Exec(Step, s, es).tasks[k].phase.Finished?
  {
    ghost var now, t;
    config, es, now, t := ApplyConfig(crtcs, order, req, k, raises, s);
    es, now, t := ClearAll(crtcs, order, req, k, s, es, now, t);
    FinishReached(s, es, now, k, t);
    FinishKeepsDevice(now, k);
    MirrorKept(crtcs, now, Step(now, Finish(k)));
    es := es + [Finish(k)];
  }

  /** nv_drm_atomic_apply_modeset_config, called by the commit task some time after the swap. */
  method ApplyConfig(crtcs: Crtcs, order: seq<Crtc>, req: Request,
                    ghost k: Commit, ghost raises: set<Crtc>, ghost s: State)
    returns (config: map<Crtc, CrtcState>, ghost es: seq<Action>, ghost now: State, ghost t: Task)
    requires Inv(s) && Mirrors(crtcs, s) && Visits(order, req)
    requires k in s.tasks && s.tasks[k].req == req && s.tasks[k].phase.Queued? && raises <= s.tasks[k].phase.flips
    modifies crtcs.Values
    ensures IsProposal(config, k, req)
    ensures Mirrors(crtcs, now) && Reached(s, es, now, k, t)
    ensures t.req == req && t.phase.Applied? && t.phase.cleared == {}
  {
    QueuedReached(s, k);
    es := OthersRun(crtcs, k, s);
    ReachedByOthers(s, [], s, k, s.tasks[k], es);
    assert [] + es == es;
    ghost var before := Exec(Step, s, es);
    config := BuildConfig(crtcs, order, req, before);
    QueuedConfig(config, before, k, req);
    ApplyReached(s, es, before, k, s.tasks[k], raises);
    now, t := Step(before, Apply(k, raises)), Task(req, Applied(s.tasks[k].phase.flips, {}));
    MirrorSameView(crtcs, before, now);
    es := es + [Apply(k, raises)];
  }

  lemma QueuedConfig(config: map<Crtc, CrtcState>, s: State, k: Commit, req: Request)
    requires Inv(s) && k in s.tasks && s.tasks[k].phase.Queued? && s.tasks[k].req == req
    requires config.Keys == req.crtcs && forall c :: c in config ==> c in s.current && config[c] == s.current[c]
    ensures IsProposal(config, k, req)
  {
    assert InstalledInv(s, k, s.tasks[k]);
  }

  lemma QueuedReached(s: State, k: Commit)
    requires Inv(s) && k in s.tasks && s.tasks[k].phase.Queued?
    ensures Reached(s, [], s, k, s.tasks[k])
  {
  }

  lemma ApplyReached(s: State, es: seq<Action>, now: State, k: Commit, t: Task, raises: set<Crtc>)
    requires Reached(s, es, now, k, t) && t.phase.Queued? && raises <= t.phase.flips
    ensures Reached(s, es + [Apply(k, raises)], Step(now, Apply(k, raises)), k, Task(t.req, Applied(t.phase.flips, {})))
    ensures var s' := Step(now, Apply(k, raises));
            s'.current == now.current && s'.pendingFlip == now.pendingFlip && s'.pendingCommit == now.pendingCommit
  {
    ReachedByStep(s, es, now, k, t, Apply(k, raises), Task(t.req, Applied(t.phase.flips, {})));
  }

  lemma FinishReached(s: State, es: seq<Action>, now: State, k: Commit, t: Task)
    requires Reached(s, es, now, k, t) && t.phase.Applied? && t.phase.cleared == t.req.crtcs
    ensures Reached(s, es + [Finish(k)], Step(now, Finish(k)), k, t.(phase := Finished))
  {
    ReachedByStep(s, es, now, k, t, Finish(k), t.(phase := Finished));
  }

  lemma MirrorSameView(crtcs: Crtcs, s: State, s': State)
    requires Mirrors(crtcs, s)
    requires s'.current == s.current && s'.pendingFlip == s.pendingFlip && s'.pendingCommit == s.pendingCommit
    ensures Mirrors(crtcs, s')
  {
    forall c | c in crtcs
      ensures Shows(crtcs[c], c, s')
    {
      assert Shows(crtcs[c], c, s);
    }
  }

  /** The commit task's loop: each wait gives others time, ends one way or the other, and the flag comes down. */
  method ClearAll(crtcs: Crtcs, order: seq<Crtc>, req: Request, ghost k: Commit, ghost s: State,
                  ghost es: seq<Action>, ghost now: State, ghost t: Task)
    returns (ghost es': seq<Action>, ghost now': State, ghost t': Task)
    requires Mirrors(crtcs, now) && Visits(order, req) && Reached(s, es, now, k, t)
    requires t.req == req && t.phase.Applied? && t.phase.cleared == {}
    modifies crtcs.Values
    ensures Mirrors(crtcs, now') && Reached(s, es', now', k, t')
    ensures t'.req == req && t'.phase.Applied? && t'.phase.cleared == req.crtcs
  {
    es', now', t' := es, now, t;
    assert Visited(order, 0) == {};
    for i := 0 to |order|
      invariant Mirrors(crtcs, now') && Reached(s, es', now', k, t')
      invariant t'.req == req && t'.phase.Applied? && t'.phase.cleared == Visited(order, i)
    {
      VisitedGrows(order, req, i);
      es', now', t' := ClearNext(crtcs, order[i], k, s, es', now', t');
    }
    assert Visited(order, |order|) == req.crtcs;
  }

  method ClearNext(crtcs: Crtcs, c: Crtc, ghost k: Commit, ghost s: State,
                   ghost es: seq<Action>, ghost now: State, ghost t: Task)
    returns (ghost es': seq<Action>, ghost now': State, ghost t': Task)
    requires Mirrors(crtcs, now) && Reached(s, es, now, k, t) && t.phase.Applied?
    requires c in t.req.crtcs - t.phase.cleared
    modifies crtcs.Values
    ensures Mirrors(crtcs, now') && Reached(s, es', now', k, t')
    ensures t'.req == t.req && t'.phase.Applied? && t'.phase.cleared == t.phase.cleared + {c}
  {
    ghost var fs := OthersRun(crtcs, k, now);
    ReachedByOthers(s, es, now, k, t, fs);
    ghost var mid := Exec(Step, now, fs);
    ClearReached(s, es + fs, mid, k, t, c);
    ClearOne(crtcs, c, k, mid);
    es', now' := (es + fs) + [Clear(k, c)], Step(mid, Clear(k, c));
    t' := now'.tasks[k];
  }

  lemma ClearReached(s: State, es: seq<Action>, now: State, k: Commit, t: Task, c: Crtc)
    requires Reached(s, es, now, k, t) && t.phase.Applied? && c in t.req.crtcs - t.phase.cleared
    ensures var now' := Step(now, Clear(k, c));
            && Enabled(now, Clear(k, c)) && k in now'.tasks
            && Reached(s, es + [Clear(k, c)], now', k, now'.tasks[k])
            && now'.tasks[k].req == t.req && now'.tasks[k].phase.Applied?
            && now'.tasks[k].phase.cleared == t.phase.cleared + {c}
  {
    ReachedByStep(s, es, now, k, t, Clear(k, c), Step(now, Clear(k, c)).tasks[k]);
  }
}
