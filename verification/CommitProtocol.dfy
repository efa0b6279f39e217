/** The commit path of nvidia-410.93/nvidia-drm/nvidia-drm-modeset.c that is built when the kernel
    has no nonblocking helper: `nv_drm_atomic_commit_internal`, the commit task it queues or runs,
    and the flip-event handler.

    Commits, tasks and flip events interleave freely. Every read of a pending flag is an event of its
    own, and so is every CRTC's turn in a loop that sets or clears flags; the loops over the CRTCs of an
    update may visit them in any order, which includes the order of the code. The
    surroundings appear as guards: the DRM core holds the locks of the CRTCs of an update for as long as
    the commit call lasts, and the display engine raises at most one flip event per head and applied
    update, and only where the update marked one. */
module CommitProtocol {
  import opened Options
  import opened Runs

  type Crtc = nat
  type Commit = nat

  /** The completion event that commit `commit` attached to CRTC `crtc`. */
  datatype Event = Event(commit: Commit, crtc: Crtc)

  /** A CRTC state object: which commit installed it, whether the CRTC is active in it, and the
      event still to be sent. */
  datatype CrtcState = CrtcState(owner: Option<Commit>, active: bool, event: Option<Event>)

  datatype Request = Request(crtcs: set<Crtc>, nonblock: bool, active: set<Crtc>, events: set<Crtc>)

  /** How far a commit has come. `flips` are the CRTCs it marked as having a pending flip. */
  datatype Phase =
    | Checking(flipIdle: set<Crtc>, commitIdle: set<Crtc>)
    | Marking(marked: set<Crtc>, flips: set<Crtc>)
    | Queued(flips: set<Crtc>)
    | Applied(flips: set<Crtc>, cleared: set<Crtc>)
    | Finished
    | Busy

  datatype Task = Task(req: Request, phase: Phase)

  datatype Applying = Applying(commit: Commit, crtc: Crtc, installedBy: Option<Commit>)
  datatype Delivery = Delivery(event: Event, flipOf: Commit)

  /** `flipsDue` are flips the display engine has still to report, `flipsSent` those whose handler
      has passed the event section and not yet cleared the flag. `applied` and `delivered` record
      what was programmed and which events were sent. */
  datatype State = State(
    pendingCommit: set<Crtc>,
    pendingFlip: set<Crtc>,
    current: map<Crtc, CrtcState>,
    tasks: map<Commit, Task>,
    lock: map<Crtc, Commit>,
    flipsDue: set<(Crtc, Commit)>,
    flipsSent: set<(Crtc, Commit)>,
    applied: set<Applying>,
    delivered: seq<Delivery>)

  datatype Action =
    | Begin(k: Commit, req: Request)       // the call starts, with the CRTC locks held
    | SeeFlipIdle(k: Commit, c: Crtc)      // has_pending_flip_event was read as false
    | SeeCommitIdle(k: Commit, c: Crtc)    // has_pending_commit was read as false
    | GiveUp(k: Commit)                    // -EBUSY: a flag is set, at once or after 3 seconds
    | StartMarking(k: Commit)
    | Mark(k: Commit, c: Crtc)
    | Swap(k: Commit)                      // drm_atomic_helper_swap_state, then queue or run
    | Apply(k: Commit, raises: set<Crtc>)  // the commit task programs the heads; these will report a flip
    | Clear(k: Commit, c: Crtc)            // the flip wait ended, in time or not
    | Finish(k: Commit)
    | SendFlip(c: Crtc, k: Commit)         // the handler's event section
    | EndFlip(c: Crtc, k: Commit)          // the handler clears has_pending_flip_event

  /** The commit on whose behalf an action runs; a flip handler runs on nobody's. */
  function Actor(a: Action): Option<Commit> {
    if a.SendFlip? || a.EndFlip? then None else Some(a.k)
  }

  function Init(heads: set<Crtc>, active: set<Crtc>): State {
    State({}, {}, map c | c in heads :: CrtcState(None, c in active, None), map[], map[], {}, {}, {}, [])
  }

  predicate Enabled(s: State, a: Action) {
    match a
    case Begin(k, req) => k !in s.tasks && req.crtcs <= s.current.Keys && req.crtcs !! s.lock.Keys
    case SeeFlipIdle(k, c) =>
      k in s.tasks && s.tasks[k].phase.Checking? && c in s.tasks[k].req.crtcs && c !in s.pendingFlip
    case SeeCommitIdle(k, c) =>
      k in s.tasks && s.tasks[k].phase.Checking? && c in s.tasks[k].req.crtcs && c !in s.pendingCommit
    case GiveUp(k) =>
      k in s.tasks && s.tasks[k].phase.Checking? && s.tasks[k].req.crtcs * (s.pendingFlip + s.pendingCommit) != {}
    case StartMarking(k) =>
      && k in s.tasks && s.tasks[k].phase.Checking?
      && s.tasks[k].req.crtcs <= s.tasks[k].phase.flipIdle
      && s.tasks[k].req.crtcs <= s.tasks[k].phase.commitIdle
    case Mark(k, c) =>
      k in s.tasks && s.tasks[k].phase.Marking? && c in s.tasks[k].req.crtcs - s.tasks[k].phase.marked && c in s.current
    case Swap(k) => k in s.tasks && s.tasks[k].phase.Marking? && s.tasks[k].req.crtcs <= s.tasks[k].phase.marked
    case Apply(k, raises) =>
      && k in s.tasks && s.tasks[k].phase.Queued?
      && raises <= s.tasks[k].phase.flips && s.tasks[k].req.crtcs <= s.current.Keys
    case Clear(k, c) =>
      k in s.tasks && s.tasks[k].phase.Applied? && c in s.tasks[k].req.crtcs - s.tasks[k].phase.cleared
    case Finish(k) => k in s.tasks && s.tasks[k].phase.Applied? && s.tasks[k].req.crtcs <= s.tasks[k].phase.cleared
    case SendFlip(c, k) => (c, k) in s.flipsDue && c in s.current
    case EndFlip(c, k) => (c, k) in s.flipsSent
  }

  function SetPhase(s: State, k: Commit, p: Phase): State
    requires k in s.tasks
  {
    s.(tasks := s.tasks[k := s.tasks[k].(phase := p)])
  }

  function Unlock(s: State, k: Commit): State {
    s.(lock := map c | c in s.lock && s.lock[c] != k :: s.lock[c])
  }

  /** The state object commit `k` puts on CRTC `c`. */
  function Installed(k: Commit, req: Request, c: Crtc): CrtcState {
    CrtcState(Some(k), c in req.active, if c in req.events then Some(Event(k, c)) else None)
  }

  function Step(s: State, a: Action): State {
    if !Enabled(s, a) then s else
    match a
    case Begin(k, req) =>
      s.(tasks := s.tasks[k := Task(req, Checking({}, {}))], lock := s.lock + map c | c in req.crtcs :: k)
    case SeeFlipIdle(k, c) =>
      var p := s.tasks[k].phase;
      SetPhase(s, k, p.(flipIdle := p.flipIdle + {c}))
    case SeeCommitIdle(k, c) =>
      var p := s.tasks[k].phase;
      SetPhase(s, k, p.(commitIdle := p.commitIdle + {c}))
    case GiveUp(k) => Unlock(SetPhase(s, k, Busy), k)
    case StartMarking(k) => SetPhase(s, k, Marking({}, {}))
    case Mark(k, c) =>
      var p := s.tasks[k].phase;
      var marked := s.(pendingCommit := s.pendingCommit + {c});
      if !s.current[c].active && c !in s.tasks[k].req.active
      then SetPhase(marked, k, p.(marked := p.marked + {c}))
      else SetPhase(marked.(pendingFlip := s.pendingFlip + {c}), k,
                    p.(marked := p.marked + {c}, flips := p.flips + {c}))
    case Swap(k) =>
      var req := s.tasks[k].req;
      var swapped := SetPhase(s.(current := s.current + map c | c in req.crtcs :: Installed(k, req, c)),
                              k, Queued(s.tasks[k].phase.flips));
      if req.nonblock then Unlock(swapped, k) else swapped
    case Apply(k, raises) =>
      SetPhase(s.(applied := s.applied + set c | c in s.tasks[k].req.crtcs :: Applying(k, c, s.current[c].owner),
                  flipsDue := s.flipsDue + set c | c in raises :: (c, k)),
               k, Applied(s.tasks[k].phase.flips, {}))
    case Clear(k, c) =>
      var p := s.tasks[k].phase;
      SetPhase(s.(pendingCommit := s.pendingCommit - {c}), k, p.(cleared := p.cleared + {c}))
    case Finish(k) => Unlock(SetPhase(s, k, Finished), k)
    case SendFlip(c, k) =>
      var st := s.current[c];
      s.(flipsDue := s.flipsDue - {(c, k)}, flipsSent := s.flipsSent + {(c, k)},
         current := s.current[c := st.(event := None)],
         delivered := if st.event.Some? then s.delivered + [Delivery(st.event.value, k)] else s.delivered)
    case EndFlip(c, k) =>
      s.(flipsSent := s.flipsSent - {(c, k)}, pendingFlip := s.pendingFlip - {c})
  }

  // ------------------------------------------------------------------ the invariant

  /** The CRTCs a commit has marked and its task has not yet let go of. */
  function Holds(t: Task): set<Crtc> {
    match t.phase
    case Marking(marked, _) => marked
    case Queued(_) => t.req.crtcs
    case Applied(_, cleared) => t.req.crtcs - cleared
    case _ => {}
  }

  predicate Programmed(t: Task) {
    t.phase.Applied? || t.phase.Finished?
  }

  /** The commit call has not returned. */
  predicate InCall(t: Task) {
    t.phase.Checking? || t.phase.Marking? || (!t.req.nonblock && (t.phase.Queued? || t.phase.Applied?))
  }

  /** The CRTC locks are those of the calls in progress. */
  ghost predicate LocksInv(s: State) {
    && (forall k, c :: k in s.tasks && InCall(s.tasks[k]) && c in s.tasks[k].req.crtcs ==>
          c in s.lock && s.lock[c] == k)
    && (forall c :: c in s.lock ==>
          s.lock[c] in s.tasks && InCall(s.tasks[s.lock[c]]) && c in s.tasks[s.lock[c]].req.crtcs)
    && (forall k :: k in s.tasks ==> s.tasks[k].req.crtcs <= s.current.Keys)
  }

  /** What a commit has seen or written of the flags of its CRTCs. */
  ghost predicate FlagsInv(s: State, t: Task) {
    && Holds(t) <= s.pendingCommit
    && match t.phase
       case Checking(flipIdle, commitIdle) =>
         flipIdle + commitIdle <= t.req.crtcs && flipIdle !! s.pendingFlip && commitIdle !! s.pendingCommit
       case Marking(marked, flips) =>
         && flips <= marked <= t.req.crtcs && flips <= s.pendingFlip
         && t.req.crtcs - marked !! s.pendingCommit && t.req.crtcs - marked !! s.pendingFlip
       case Queued(flips) => flips <= t.req.crtcs && flips <= s.pendingFlip
       case _ => true
  }

  /** Until it is programmed, a commit that has been swapped in has its own state objects current. */
  ghost predicate InstalledInv(s: State, k: Commit, t: Task) {
    t.phase.Queued? ==> forall c :: c in t.req.crtcs ==> c in s.current && s.current[c] == Installed(k, t.req, c)
  }

  ghost predicate TasksInv(s: State) {
    && (forall k :: k in s.tasks ==> FlagsInv(s, s.tasks[k]) && InstalledInv(s, k, s.tasks[k]))
    && (forall k, k' :: k in s.tasks && k' in s.tasks && k != k' ==> Holds(s.tasks[k]) !! Holds(s.tasks[k']))
  }

  /** A flip still to be handled belongs to the commit whose state object is current. */
  ghost predicate FlipInv(s: State, f: (Crtc, Commit)) {
    && f.0 in s.pendingFlip
    && f.0 in s.current && s.current[f.0].owner == Some(f.1)
    && f.1 in s.tasks && Programmed(s.tasks[f.1])
  }

  /** No commit is between marking and programming a CRTC whose flip is still to be handled. */
  predicate FlipApart(t: Task, c: Crtc) {
    c in Holds(t) ==> t.phase.Applied?
  }

  ghost predicate FlipsInv(s: State) {
    && (forall f :: f in s.flipsDue ==> FlipInv(s, f))
    && (forall f :: f in s.flipsSent ==> FlipInv(s, f))
    && (forall f, k :: f in s.flipsDue + s.flipsSent && k in s.tasks ==> FlipApart(s.tasks[k], f.0))
    && s.flipsDue !! s.flipsSent
  }

  /** An event not yet sent sits on the state object of the commit that attached it. */
  ghost predicate EventInv(s: State, c: Crtc)
    requires c in s.current
  {
    s.current[c].event.Some? ==>
      && s.current[c].owner == Some(s.current[c].event.value.commit)
      && s.current[c].event.value.crtc == c
      && (forall i :: 0 <= i < |s.delivered| ==> s.delivered[i].event != s.current[c].event.value)
  }

  ghost predicate RecordInv(s: State) {
    && (forall x :: x in s.applied ==> x.installedBy == Some(x.commit))
    && (forall c :: c in s.current ==> EventInv(s, c))
    && (forall d :: d in s.delivered ==>
          d.flipOf == d.event.commit && d.flipOf in s.tasks && Programmed(s.tasks[d.flipOf]))
    && (forall i, j :: 0 <= i < j < |s.delivered| ==> s.delivered[i].event != s.delivered[j].event)
  }

  ghost predicate CommitFlagsInv(s: State) {
    forall c :: c in s.pendingCommit ==> exists k :: k in s.tasks && c in Holds(s.tasks[k])
  }

  ghost predicate Inv(s: State) {
    LocksInv(s) && TasksInv(s) && CommitFlagsInv(s) && FlipsInv(s) && RecordInv(s)
  }

  lemma LockKept(s: State, a: Action, k: Commit, c: Crtc)
    requires Enabled(s, a)
    requires k in s.tasks && InCall(s.tasks[k]) && c in s.tasks[k].req.crtcs ==> c in s.lock && s.lock[c] == k
    requires k in Step(s, a).tasks && InCall(Step(s, a).tasks[k]) && c in Step(s, a).tasks[k].req.crtcs
    ensures c in Step(s, a).lock && Step(s, a).lock[c] == k
  {
  }

  lemma LockUsed(s: State, a: Action, c: Crtc)
    requires Enabled(s, a) && c in Step(s, a).lock
    requires c in s.lock ==>
               s.lock[c] in s.tasks && InCall(s.tasks[s.lock[c]]) && c in s.tasks[s.lock[c]].req.crtcs
    ensures var s' := Step(s, a);
            s'.lock[c] in s'.tasks && InCall(s'.tasks[s'.lock[c]]) && c in s'.tasks[s'.lock[c]].req.crtcs
  {
  }

  lemma RequestsKept(s: State, a: Action, k: Commit)
    requires LocksInv(s) && Enabled(s, a) && k in Step(s, a).tasks
    ensures Step(s, a).tasks[k].req.crtcs <= Step(s, a).current.Keys
    ensures Step(s, a).current.Keys == s.current.Keys
  {
  }

  /** Two calls in progress never share a CRTC. */
  lemma CallsApart(s: State, k: Commit, k': Commit)
    requires LocksInv(s) && k in s.tasks && k' in s.tasks && k != k'
    requires InCall(s.tasks[k]) && InCall(s.tasks[k'])
    ensures s.tasks[k].req.crtcs !! s.tasks[k'].req.crtcs
  {
    assert forall c :: c in s.tasks[k].req.crtcs ==> s.lock[c] == k;
  }

  lemma OwnFlagsKept(s: State, a: Action, k: Commit)
    requires Actor(a) == Some(k) && k in s.tasks && Enabled(s, a) && FlagsInv(s, s.tasks[k])
    ensures FlagsInv(Step(s, a), Step(s, a).tasks[k])
  {
  }

  lemma OthersFlagsKept(s: State, a: Action, k: Commit)
    requires Actor(a) != Some(k) && k in s.tasks && Enabled(s, a) && FlagsInv(s, s.tasks[k])
    requires a.Mark? && InCall(s.tasks[k]) ==> a.c !in s.tasks[k].req.crtcs
    requires a.Clear? ==> a.c !in Holds(s.tasks[k])
    requires a.EndFlip? ==> (a.c in Holds(s.tasks[k]) ==> s.tasks[k].phase.Applied?)
    ensures FlagsInv(Step(s, a), Step(s, a).tasks[k])
  {
  }

  lemma InstalledKept(s: State, a: Action, k: Commit)
    requires Enabled(s, a) && k in Step(s, a).tasks && (k in s.tasks ==> InstalledInv(s, k, s.tasks[k]))
    requires a.Swap? && a.k != k && k in s.tasks ==> s.tasks[a.k].req.crtcs !! Holds(s.tasks[k])
    requires a.SendFlip? && k in s.tasks ==> FlipApart(s.tasks[k], a.c)
    ensures InstalledInv(Step(s, a), k, Step(s, a).tasks[k])
  {
  }

  lemma ApartKept(s: State, a: Action, k: Commit, k': Commit)
    requires Enabled(s, a) && k in Step(s, a).tasks && k' in Step(s, a).tasks && k != k'
    requires k in s.tasks ==> FlagsInv(s, s.tasks[k])
    requires k' in s.tasks ==> FlagsInv(s, s.tasks[k'])
    requires k in s.tasks && k' in s.tasks ==> Holds(s.tasks[k]) !! Holds(s.tasks[k'])
    ensures Holds(Step(s, a).tasks[k]) !! Holds(Step(s, a).tasks[k'])
  {
  }

  lemma FlipKept(s: State, a: Action, f: (Crtc, Commit))
    requires Enabled(s, a) && f in s.flipsDue + s.flipsSent && FlipInv(s, f) && s.flipsDue !! s.flipsSent
    requires a.Swap? ==> FlipApart(s.tasks[a.k], f.0) && s.tasks[a.k].phase.marked <= s.tasks[a.k].req.crtcs
    requires a.EndFlip? ==> f.0 == a.c ==> f.1 == a.k
    requires f in Step(s, a).flipsDue + Step(s, a).flipsSent
    ensures FlipInv(Step(s, a), f)
  {
  }

  lemma FlipStaysApart(s: State, a: Action, f: (Crtc, Commit), k: Commit)
    requires Enabled(s, a) && k in s.tasks && FlipApart(s.tasks[k], f.0) && f.0 in s.pendingFlip
    requires FlagsInv(s, s.tasks[k])
    ensures FlipApart(Step(s, a).tasks[k], f.0)
  {
  }

  lemma EventKept(s: State, a: Action, c: Crtc)
    requires Enabled(s, a) && c in s.current && EventInv(s, c)
    requires forall d :: d in s.delivered ==>
               d.flipOf == d.event.commit && d.flipOf in s.tasks && Programmed(s.tasks[d.flipOf])
    requires a.SendFlip? ==> EventInv(s, a.c)
    ensures EventInv(Step(s, a), c)
  {
    assert forall i :: 0 <= i < |s.delivered| ==> s.delivered[i] in s.delivered;
  }

  lemma TasksKept(s: State, a: Action)
    requires Inv(s) && Enabled(s, a)
    ensures TasksInv(Step(s, a))
  {
    var s' := Step(s, a);
    forall k | k in s'.tasks ensures FlagsInv(s', s'.tasks[k]) && InstalledInv(s', k, s'.tasks[k]) {
      if a.Swap? && a.k != k && k in s.tasks {
        assert FlagsInv(s, s.tasks[a.k]) && Holds(s.tasks[a.k]) !! Holds(s.tasks[k]);
      }
      if a.SendFlip? { assert FlipApart(s.tasks[k], (a.c, a.k).0); }
      InstalledKept(s, a, k);
      if Actor(a) != Some(k) {
        if a.Mark? && InCall(s.tasks[k]) { CallsApart(s, k, a.k); }
        if a.EndFlip? { assert FlipApart(s.tasks[k], (a.c, a.k).0); }
        OthersFlagsKept(s, a, k);
      } else if k in s.tasks {
        OwnFlagsKept(s, a, k);
      }
    }
    forall k, k' | k in s'.tasks && k' in s'.tasks && k != k' ensures Holds(s'.tasks[k]) !! Holds(s'.tasks[k']) {
      ApartKept(s, a, k, k');
    }
  }

  lemma FlipsKept(s: State, a: Action)
    requires Inv(s) && Enabled(s, a)
    ensures forall f :: f in Step(s, a).flipsDue + Step(s, a).flipsSent ==> FlipInv(Step(s, a), f)
    ensures Step(s, a).flipsDue !! Step(s, a).flipsSent
  {
    var s' := Step(s, a);
    forall f | f in s'.flipsDue + s'.flipsSent ensures FlipInv(s', f) {
      if f in s.flipsDue + s.flipsSent {
        FlipKept(s, a, f);
      }
    }
  }

  lemma FlipsStayApart(s: State, a: Action)
    requires Inv(s) && Enabled(s, a)
    ensures forall f, k :: f in Step(s, a).flipsDue + Step(s, a).flipsSent && k in Step(s, a).tasks
                ==> FlipApart(Step(s, a).tasks[k], f.0)
  {
    var s' := Step(s, a);
    forall f, k | f in s'.flipsDue + s'.flipsSent && k in s'.tasks ensures FlipApart(s'.tasks[k], f.0) {
      if f in s.flipsDue + s.flipsSent && k in s.tasks {
        FlipStaysApart(s, a, f, k);
      }
    }
  }

  lemma HolderKept(s: State, a: Action, k: Commit, c: Crtc)
    requires Enabled(s, a) && k in s.tasks && c in Holds(s.tasks[k]) && c in Step(s, a).pendingCommit
    requires FlagsInv(s, s.tasks[k])
    ensures k in Step(s, a).tasks && c in Holds(Step(s, a).tasks[k])
  {
  }

  lemma FlagRaisedByMark(s: State, a: Action, c: Crtc)
    requires Enabled(s, a) && c in Step(s, a).pendingCommit && c !in s.pendingCommit
    ensures a.Mark? && a.k in Step(s, a).tasks && c in Holds(Step(s, a).tasks[a.k])
  {
  }

  /** A raised commit flag belongs to some commit, which lowers it only by letting go. */
  lemma HoldersKept(s: State, a: Action)
    requires TasksInv(s) && CommitFlagsInv(s) && Enabled(s, a)
    ensures CommitFlagsInv(Step(s, a))
  {
    var s' := Step(s, a);
    forall c | c in s'.pendingCommit ensures exists k :: k in s'.tasks && c in Holds(s'.tasks[k]) {
      if c in s.pendingCommit {
        var k :| k in s.tasks && c in Holds(s.tasks[k]);
        HolderKept(s, a, k, c);
      } else {
        FlagRaisedByMark(s, a, c);
      }
    }
  }

  lemma DeliveriesKept(s: State, a: Action)
    requires Enabled(s, a) && RecordInv(s)
    requires a.SendFlip? ==> FlipInv(s, (a.c, a.k))
    ensures var s' := Step(s, a);
      && (forall x :: x in s'.applied ==>
            x in s.applied
            || (a.Apply? && x.commit == a.k && x.crtc in s.tasks[a.k].req.crtcs
                && x.installedBy == s.current[x.crtc].owner))
      && (forall d :: d in s'.delivered ==>
            d.flipOf == d.event.commit && d.flipOf in s'.tasks && Programmed(s'.tasks[d.flipOf]))
      && (forall i, j :: 0 <= i < j < |s'.delivered| ==> s'.delivered[i].event != s'.delivered[j].event)
  {
  }

  lemma RecordsKept(s: State, a: Action)
    requires Inv(s) && Enabled(s, a)
    ensures RecordInv(Step(s, a))
  {
    var s' := Step(s, a);
    DeliveriesKept(s, a);
    forall x | x in s'.applied ensures x.installedBy == Some(x.commit) {
      if x !in s.applied { assert InstalledInv(s, a.k, s.tasks[a.k]); }
    }
    forall c | c in s'.current ensures EventInv(s', c) {
      if a.Begin? || c in s.current { EventKept(s, a, c); }
    }
  }

  lemma LocksKept(s: State, a: Action)
    requires LocksInv(s) && Enabled(s, a)
    ensures LocksInv(Step(s, a))
  {
    var s' := Step(s, a);
    forall k, c | k in s'.tasks && InCall(s'.tasks[k]) && c in s'.tasks[k].req.crtcs
      ensures c in s'.lock && s'.lock[c] == k { LockKept(s, a, k, c); }
    forall c | c in s'.lock
      ensures s'.lock[c] in s'.tasks && InCall(s'.tasks[s'.lock[c]]) && c in s'.tasks[s'.lock[c]].req.crtcs
    {
      LockUsed(s, a, c);
    }
    forall k | k in s'.tasks ensures s'.tasks[k].req.crtcs <= s'.current.Keys { RequestsKept(s, a, k); }
  }

  lemma StepKeepsInv(s: State, a: Action)
    requires Inv(s)
    ensures Inv(Step(s, a))
  {
    if Enabled(s, a) {
      LocksKept(s, a);
      TasksKept(s, a);
      HoldersKept(s, a);
      FlipsKept(s, a);
      FlipsStayApart(s, a);
      RecordsKept(s, a);
    }
  }

  // ------------------------------------------------------------------ what every run guarantees

  lemma {:induction false} RunKeepsInv(heads: set<Crtc>, active: set<Crtc>, es: seq<Action>)
    ensures Inv(Exec(Step, Init(heads, active), es))
  {
    forall s, a | Inv(s) ensures Inv(Step(s, a)) { StepKeepsInv(s, a); }
    InvariantHolds(Step, Inv, Init(heads, active), es);
  }

  /** has_pending_commit is up exactly where a commit is outstanding, and there is only one. */
  ghost predicate OneTaskPerCrtc(s: State) {
    && (forall c :: c in s.pendingCommit <==> exists k :: k in s.tasks && c in Holds(s.tasks[k]))
    && (forall k, k' :: k in s.tasks && k' in s.tasks && k != k' ==> Holds(s.tasks[k]) !! Holds(s.tasks[k']))
  }

  /** At most one flip is outstanding per CRTC; its flag is up, and the state object of the commit
      that caused it is still the current one. */
  ghost predicate OneFlipPerCrtc(s: State) {
    && (forall f :: f in s.flipsDue + s.flipsSent ==>
          f.0 in s.pendingFlip && f.0 in s.current && s.current[f.0].owner == Some(f.1))
    && (forall f, g :: f in s.flipsDue + s.flipsSent && g in s.flipsDue + s.flipsSent && f.0 == g.0 ==> f == g)
  }

  /** Every task programmed the state objects its own commit installed. */
  ghost predicate TasksApplyOwnState(s: State) {
    forall x :: x in s.applied ==> x.installedBy == Some(x.commit)
  }

  /** Every event was sent for a flip of the commit it was attached to, and none twice. */
  ghost predicate EventsGoHomeOnce(s: State) {
    && (forall d :: d in s.delivered ==> d.flipOf == d.event.commit)
    && (forall i, j :: 0 <= i < j < |s.delivered| ==> s.delivered[i].event != s.delivered[j].event)
  }

  /** In every interleaving, timeouts and lost flips included. */
  lemma CommitSafety(heads: set<Crtc>, active: set<Crtc>, es: seq<Action>)
    ensures var s := Exec(Step, Init(heads, active), es);
      OneTaskPerCrtc(s) && OneFlipPerCrtc(s) && TasksApplyOwnState(s) && EventsGoHomeOnce(s)
  {
    RunKeepsInv(heads, active, es);
    var s := Exec(Step, Init(heads, active), es);
    forall k, c | k in s.tasks && c in Holds(s.tasks[k]) ensures c in s.pendingCommit {
      assert FlagsInv(s, s.tasks[k]);
    }
  }

  // ------------------------------------------------------------------ -EBUSY

  /** Everything outside the bookkeeping of calls and locks. */
  ghost predicate SameDevice(s: State, s': State) {
    s' == s.(tasks := s'.tasks, lock := s'.lock)
  }

  predicate Writing(s: State, k: Commit) {
    k in s.tasks && !s.tasks[k].phase.Checking? && !s.tasks[k].phase.Busy?
  }

  lemma WritingIsForGood(s: State, a: Action, k: Commit)
    ensures Writing(s, k) ==> Writing(Step(s, a), k)
    ensures Actor(a) == Some(k) && !SameDevice(s, Step(s, a)) ==> Writing(Step(s, a), k)
  {
  }

  /** A commit that ends in -EBUSY has changed nothing at any of its steps. */
  lemma BusyCommitChangesNothing(s: State, es: seq<Action>, k: Commit, i: nat)
    requires i < |es| && Actor(es[i]) == Some(k)
    requires k in Exec(Step, s, es).tasks && Exec(Step, s, es).tasks[k].phase.Busy?
    ensures SameDevice(Exec(Step, s, es[..i]), Exec(Step, s, es[..i + 1]))
  {
    var before, after := Exec(Step, s, es[..i]), Exec(Step, s, es[..i + 1]);
    assert es[..i] + [es[i]] == es[..i + 1];
    ExecSplit(Step, s, es[..i], [es[i]]);
    assert Exec(Step, before, [es[i]]) == Step(before, es[i]);
    WritingIsForGood(before, es[i], k);
    if !SameDevice(before, after) {
      forall s0, a | Writing(s0, k) ensures Writing(Step(s0, a), k) { WritingIsForGood(s0, a, k); }
      InvariantHolds(Step, (s0: State) => Writing(s0, k), after, es[i + 1..]);
      assert es[..i + 1] + es[i + 1..] == es;
      ExecSplit(Step, s, es[..i + 1], es[i + 1..]);
    }
  }

  // ------------------------------------------------------------------ a flip that never comes

  /** Commit `t` is not on its way to a flip on `c`, and has not been told that `c` is idle. */
  ghost predicate KeepsOff(t: Task, c: Crtc) {
    match t.phase
    case Checking(flipIdle, _) => c !in flipIdle
    case Marking(marked, flips) => c !in t.req.crtcs && flips <= marked <= t.req.crtcs
    case Queued(flips) => c !in t.req.crtcs && flips <= t.req.crtcs
    case _ => true
  }

  /** The flip flag of `c` is up, but the display engine owes no flip and no commit is about to
      cause one: programming failed, or reported nothing for this head. */
  ghost predicate Wedged(s: State, c: Crtc) {
    && c in s.pendingFlip
    && (forall f :: f in s.flipsDue ==> f.0 != c)
    && (forall f :: f in s.flipsSent ==> f.0 != c)
    && (forall k :: k in s.tasks ==> KeepsOff(s.tasks[k], c))
  }

  lemma TaskKeepsOff(s: State, a: Action, c: Crtc, k: Commit)
    requires Enabled(s, a) && c in s.pendingFlip && k in Step(s, a).tasks
    requires k in s.tasks ==> KeepsOff(s.tasks[k], c)
    ensures KeepsOff(Step(s, a).tasks[k], c)
  {
  }

  lemma HeadStays(s: State, a: Action, c: Crtc)
    requires Wedged(s, c) && Enabled(s, a)
    ensures c in Step(s, a).pendingFlip
    ensures forall f :: f in Step(s, a).flipsDue + Step(s, a).flipsSent ==> f.0 != c
    ensures c in s.current ==> c in Step(s, a).current && Step(s, a).current[c] == s.current[c]
  {
    assert Actor(a).Some? && a.k in s.tasks ==> KeepsOff(s.tasks[a.k], c);
  }

  lemma WedgedStep(s: State, a: Action, c: Crtc)
    requires Wedged(s, c)
    ensures Wedged(Step(s, a), c)
    ensures c in s.current ==> c in Step(s, a).current && Step(s, a).current[c] == s.current[c]
  {
    if Enabled(s, a) {
      HeadStays(s, a, c);
      forall k | k in Step(s, a).tasks ensures KeepsOff(Step(s, a).tasks[k], c) {
        TaskKeepsOff(s, a, c, k);
      }
    }
  }

  /** The flip flag of `c` is never lowered again, whatever happens. */
  ghost predicate NeverIdle(s: State, c: Crtc) {
    forall es: seq<Action> :: c in Exec(Step, s, es).pendingFlip
  }

  lemma SilentHeadIsWedged(s: State, k: Commit, raises: set<Crtc>, c: Crtc)
    requires Inv(s) && Enabled(s, Apply(k, raises)) && c in s.tasks[k].phase.flips && c !in raises
    ensures Wedged(Step(s, Apply(k, raises)), c)
  {
    var s' := Step(s, Apply(k, raises));
    assert FlagsInv(s, s.tasks[k]) && c in Holds(s.tasks[k]);
    forall f | f in s.flipsDue + s.flipsSent ensures f.0 != c { assert FlipApart(s.tasks[k], f.0); }
    forall j | j in s'.tasks ensures KeepsOff(s'.tasks[j], c) {
      assert FlagsInv(s, s.tasks[j]);
      assert j != k ==> Holds(s.tasks[k]) !! Holds(s.tasks[j]);
    }
  }

  /** A flip that is due can be handled, which makes its head idle. */
  lemma DueFlipFreesHead(s: State, c: Crtc, k: Commit)
    requires (c, k) in s.flipsDue && c in s.current
    ensures c !in Exec(Step, s, [SendFlip(c, k)] + [EndFlip(c, k)]).pendingFlip
  {
    ExecSnoc(Step, s, [SendFlip(c, k)], EndFlip(c, k));
    assert Exec(Step, s, [SendFlip(c, k)]) == Step(s, SendFlip(c, k));
  }

  /** A head marked for a flip stays busy in every continuation of its commit if and only if
      programming raises no flip for it. */
  lemma NeverIdleIffSilent(s: State, k: Commit, raises: set<Crtc>, c: Crtc)
    requires Inv(s) && Enabled(s, Apply(k, raises)) && c in s.tasks[k].phase.flips
    ensures NeverIdle(Step(s, Apply(k, raises)), c) <==> c !in raises
  {
    var s' := Step(s, Apply(k, raises));
    assert FlagsInv(s, s.tasks[k]);
    if c in raises {
      DueFlipFreesHead(s', c, k);
      assert !(c in Exec(Step, s', [SendFlip(c, k)] + [EndFlip(c, k)]).pendingFlip);
    } else {
      SilentHeadIsWedged(s, k, raises, c);
      forall es: seq<Action>
        ensures c in Exec(Step, s', es).pendingFlip
      {
        LostFlipWedgesHead(s', es, c);
      }
    }
  }

  /** Then no later commit ever reaches that CRTC: its state object stays in every continuation. */
  lemma LostFlipWedgesHead(s: State, es: seq<Action>, c: Crtc)
    requires Wedged(s, c) && c in s.current
    ensures var s' := Exec(Step, s, es);
      Wedged(s', c) && c in s'.current && s'.current[c] == s.current[c]
  {
    var st := s.current[c];
    forall s0, a | Wedged(s0, c) && c in s0.current && s0.current[c] == st
      ensures Wedged(Step(s0, a), c) && c in Step(s0, a).current && Step(s0, a).current[c] == st
    {
      WedgedStep(s0, a, c);
    }
    InvariantHolds(Step, (s0: State) => Wedged(s0, c) && c in s0.current && s0.current[c] == st, s, es);
  }

  /** A nonblocking update of head 0, which is active and stays so, with an event. */
  function OneHead(): Request {
    Request({0}, true, {0}, {0})
  }

  /** One commit on one active head. */
  function OneCommit(): seq<Action> {
    [Begin(1, OneHead()), SeeFlipIdle(1, 0), SeeCommitIdle(1, 0), StartMarking(1), Mark(1, 0), Swap(1)]
  }

  /** Six steps from the start a head can be wedged: the commit is queued, and programming raises no flip. */
  lemma WedgeIsReachable()
    ensures var s := Exec(Step, Init({0}, {0}), OneCommit() + [Apply(1, {})]);
            Wedged(s, 0) && NeverIdle(s, 0)
  {
    RunKeepsInv({0}, {0}, OneCommit());
    OneCommitQueues();
    var s := Exec(Step, Init({0}, {0}), OneCommit());
    ExecSnoc(Step, Init({0}, {0}), OneCommit(), Apply(1, {}));
    SilentHeadIsWedged(s, 1, {}, 0);
    NeverIdleIffSilent(s, 1, {}, 0);
  }

  /** Commit 1 alone on the device, in phase `p`, with nothing marked unless it did so. */
  ghost predicate Alone(s: State, p: Phase) {
    && 1 in s.tasks && s.tasks[1] == Task(OneHead(), p)
    && s.current == Init({0}, {0}).current
    && (p.Checking? ==> s.pendingFlip == {} && s.pendingCommit == {})
  }

  lemma OneCommitChecks(s0: State)
    requires s0 == Init({0}, {0})
    ensures var s1 := Step(s0, Begin(1, OneHead()));
            var s2 := Step(s1, SeeFlipIdle(1, 0));
            Alone(Step(s2, SeeCommitIdle(1, 0)), Checking({0}, {0}))
  {
    var s1 := Step(s0, Begin(1, OneHead()));
    assert Alone(s1, Checking({}, {}));
    assert {} + {0} == {0};
    assert Alone(Step(s1, SeeFlipIdle(1, 0)), Checking({0}, {}));
  }

  lemma OneCommitMarks(s3: State)
    requires Alone(s3, Checking({0}, {0}))
    ensures Alone(Step(Step(s3, StartMarking(1)), Mark(1, 0)), Marking({0}, {0}))
  {
    assert Alone(Step(s3, StartMarking(1)), Marking({}, {}));
    assert {} + {0} == {0};
  }

  lemma ExecSix(s: State, a: Action, b: Action, c: Action, d: Action, e: Action, f: Action)
    ensures Exec(Step, s, [a, b, c, d, e, f]) == Step(Step(Step(Step(Step(Step(s, a), b), c), d), e), f)
  {
    assert [a, b, c, d, e, f] == [] + [a] + [b] + [c] + [d] + [e] + [f];
    ExecSnoc(Step, s, [], a);
    ExecSnoc(Step, s, [] + [a], b);
    ExecSnoc(Step, s, [] + [a] + [b], c);
    ExecSnoc(Step, s, [] + [a] + [b] + [c], d);
    ExecSnoc(Step, s, [] + [a] + [b] + [c] + [d], e);
    ExecSnoc(Step, s, [] + [a] + [b] + [c] + [d] + [e], f);
  }

  lemma OneCommitQueues()
    ensures var s := Exec(Step, Init({0}, {0}), OneCommit());
            Enabled(s, Apply(1, {})) && s.tasks[1].phase == Queued({0})
  {
    var s0 := Init({0}, {0});
    ExecSix(s0, Begin(1, OneHead()), SeeFlipIdle(1, 0), SeeCommitIdle(1, 0), StartMarking(1), Mark(1, 0), Swap(1));
    OneCommitChecks(s0);
    OneCommitMarks(Step(Step(Step(s0, Begin(1, OneHead())), SeeFlipIdle(1, 0)), SeeCommitIdle(1, 0)));
  }
}
