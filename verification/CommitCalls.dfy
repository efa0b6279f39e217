/** The commit path of nvidia-410.93/nvidia-drm/nvidia-drm-modeset.c as the code runs it: loops over
    the CRTCs of an update that set and clear flags and state pointers on shared CRTC objects.

    Each method is proved to be a sequence of steps of the machine in `CommitProtocol`, one step for
    each flag it touches, so that what every run of the machine guarantees holds of these loops. */
module CommitCalls {
  import opened Options
  import opened Runs
  import opened CommitProtocol
  import opened CommitHistory

  /** The part of an nv_drm_crtc and its drm_crtc that the commit path reads and writes. */
  class NvCrtc {
    const head: Crtc
    var hasPendingCommit: bool
    var hasPendingFlipEvent: bool
    var state: CrtcState

    constructor (head: Crtc, active: bool)
      ensures this.head == head && !hasPendingCommit && !hasPendingFlipEvent
      ensures state == CrtcState(None, active, None)
    {
      this.head := head;
      hasPendingCommit, hasPendingFlipEvent := false, false;
      state := CrtcState(None, active, None);
    }
  }

  type Crtcs = map<Crtc, NvCrtc>

  /** One CRTC object shows what the machine says of its head. */
  ghost predicate Shows(crtc: NvCrtc, c: Crtc, s: State)
    reads crtc
  {
    && crtc.head == c && c in s.current
    && crtc.hasPendingCommit == (c in s.pendingCommit)
    && crtc.hasPendingFlipEvent == (c in s.pendingFlip)
    && crtc.state == s.current[c]
  }

  ghost predicate Mirrors(crtcs: Crtcs, s: State)
    reads crtcs.Values
  {
    crtcs.Keys == s.current.Keys && forall c :: c in crtcs ==> Shows(crtcs[c], c, s)
  }

  /** The CRTCs of an update, each once, in the order the loops visit them. */
  ghost predicate Visits(order: seq<Crtc>, req: Request) {
    && (forall i, j :: 0 <= i < j < |order| ==> order[i] != order[j])
    && (forall c :: c in order <==> c in req.crtcs)
  }

  function Marks(k: Commit, order: seq<Crtc>): seq<Action> {
    seq(|order|, i requires 0 <= i < |order| => Mark(k, order[i]))
  }

  function Clears(k: Commit, order: seq<Crtc>): seq<Action> {
    seq(|order|, i requires 0 <= i < |order| => Clear(k, order[i]))
  }

  function SeeAll(k: Commit, order: seq<Crtc>): seq<Action> {
    seq(2 * |order|, i requires 0 <= i < 2 * |order| =>
      if i % 2 == 0 then SeeCommitIdle(k, order[i / 2]) else SeeFlipIdle(k, order[i / 2]))
  }

  /** The CRTCs visited before turn `i`. */
  ghost function Visited(order: seq<Crtc>, i: nat): set<Crtc>
    requires i <= |order|
  {
    set c | c in order[..i]
  }

  lemma VisitedGrows(order: seq<Crtc>, req: Request, i: nat)
    requires Visits(order, req) && i < |order|
    ensures Visited(order, i + 1) == Visited(order, i) + {order[i]}
    ensures order[i] !in Visited(order, i) && order[i] in req.crtcs
  {
    assert order[..i + 1] == order[..i] + [order[i]];
  }

  /** The nonblocking check: give up at the first CRTC with a flag up, changing nothing. */
  method AnyPending(crtcs: Crtcs, order: seq<Crtc>) returns (busy: bool)
    requires forall c :: c in order ==> c in crtcs
    ensures busy <==> exists c :: c in order && (crtcs[c].hasPendingCommit || crtcs[c].hasPendingFlipEvent)
  {
    for i := 0 to |order|
      invariant forall j :: 0 <= j < i ==>
                  !crtcs[order[j]].hasPendingCommit && !crtcs[order[j]].hasPendingFlipEvent
    {
      var nvCrtc := crtcs[order[i]];
      if nvCrtc.hasPendingCommit || nvCrtc.hasPendingFlipEvent {
        var c := order[i];
        assert c in order && (crtcs[c].hasPendingCommit || crtcs[c].hasPendingFlipEvent);
        return true;
      }
    }
    return false;
  }

  /** Reading both flags as down, CRTC by CRTC, is a run that records just that. */
  lemma {:induction false} SeenAll(s: State, k: Commit, req: Request, order: seq<Crtc>, i: nat)
    requires Visits(order, req) && i <= |order|
    requires k in s.tasks && s.tasks[k] == Task(req, Checking({}, {}))
    requires req.crtcs !! s.pendingCommit && req.crtcs !! s.pendingFlip
    ensures Exec(Step, s, SeeAll(k, order)[..2 * i])
         == SetPhase(s, k, Checking(Visited(order, i), Visited(order, i)))
    decreases i
  {
    var es := SeeAll(k, order);
    if i == 0 {
      assert Visited(order, 0) == {};
      assert s.tasks[k := Task(req, Checking({}, {}))] == s.tasks;
    } else {
      SeenAll(s, k, req, order, i - 1);
      VisitedGrows(order, req, i - 1);
      assert es[..2 * i - 1] == es[..2 * (i - 1)] + [SeeCommitIdle(k, order[i - 1])];
      assert es[..2 * i] == es[..2 * i - 1] + [SeeFlipIdle(k, order[i - 1])];
      ExecSnoc(Step, s, es[..2 * (i - 1)], SeeCommitIdle(k, order[i - 1]));
      ExecSnoc(Step, s, es[..2 * i - 1], SeeFlipIdle(k, order[i - 1]));
    }
  }

  /** One turn of the marking loop. */
  method MarkOne(crtcs: Crtcs, c: Crtc, ghost k: Commit, ghost s: State, active: set<Crtc>)
    requires Mirrors(crtcs, s) && Enabled(s, Mark(k, c)) && s.tasks[k].req.active == active
    modifies crtcs[c]
    ensures crtcs[c].hasPendingCommit && crtcs[c].state == old(crtcs[c].state)
    ensures crtcs[c].hasPendingFlipEvent <==>
              old(crtcs[c].hasPendingFlipEvent) || old(crtcs[c].state.active) || c in active
    ensures Mirrors(crtcs, Step(s, Mark(k, c)))
  {
    var nvCrtc := crtcs[c];
    assert Shows(nvCrtc, c, s);
    nvCrtc.hasPendingCommit := true;
    if nvCrtc.state.active || c in active {
      nvCrtc.hasPendingFlipEvent := true;
    }
    forall h | h in crtcs
      ensures Shows(crtcs[h], h, Step(s, Mark(k, c)))
    {
      assert h != c ==> crtcs[h] != nvCrtc;
    }
  }

  /** Commit `k` has marked the CRTCs in `done`, since state `s`. */
  ghost predicate Marked(s: State, s': State, k: Commit, req: Request, done: set<Crtc>) {
    && k in s'.tasks && s'.tasks[k] == Task(req, Marking(done, ToFlip(s, req, done)))
    && s'.current == s.current
    && s'.pendingCommit == s.pendingCommit + done
    && s'.pendingFlip == s.pendingFlip + ToFlip(s, req, done)
  }

  lemma MarkedMore(s: State, s': State, k: Commit, req: Request, done: set<Crtc>, c: Crtc)
    requires Marked(s, s', k, req, done) && c in req.crtcs - done && c in s.current
    ensures Enabled(s', Mark(k, c)) && Marked(s, Step(s', Mark(k, c)), k, req, done + {c})
  {
    assert ToFlip(s, req, done + {c})
        == ToFlip(s, req, done) + if s.current[c].active || c in req.active then {c} else {};
    var t := Step(s', Mark(k, c));
    assert t.tasks[k].phase.marked == done + {c} && t.tasks[k].phase.flips == ToFlip(s, req, done + {c});
    assert t.pendingFlip == s.pendingFlip + ToFlip(s, req, done + {c});
  }

  /** Marking CRTC after CRTC is always possible, and ends with all of them marked. */
  lemma {:induction false} MarksRun(s: State, k: Commit, req: Request, order: seq<Crtc>, i: nat)
    requires Visits(order, req) && i <= |order| && req.crtcs <= s.current.Keys
    requires k in s.tasks && s.tasks[k] == Task(req, Marking({}, {}))
    ensures var s' := Exec(Step, s, Marks(k, order)[..i]);
            && Marked(s, s', k, req, Visited(order, i))
            && (i < |order| ==> Enabled(s', Mark(k, order[i])))
    decreases i
  {
    if i == 0 {
      assert Visited(order, 0) == {} && ToFlip(s, req, {}) == {};
    } else {
      MarksRun(s, k, req, order, i - 1);
      VisitedGrows(order, req, i - 1);
      assert Marks(k, order)[..i] == Marks(k, order)[..i - 1] + [Mark(k, order[i - 1])];
      ExecSnoc(Step, s, Marks(k, order)[..i - 1], Mark(k, order[i - 1]));
      MarkedMore(s, Exec(Step, s, Marks(k, order)[..i - 1]), k, req, Visited(order, i - 1), order[i - 1]);
    }
    if i < |order| {
      VisitedGrows(order, req, i);
    }
  }

  lemma NextMark(s: State, k: Commit, req: Request, order: seq<Crtc>, i: nat)
    requires Visits(order, req) && i < |order| && req.crtcs <= s.current.Keys
    requires k in s.tasks && s.tasks[k] == Task(req, Marking({}, {}))
    ensures var t := Exec(Step, s, Marks(k, order)[..i]);
            && Enabled(t, Mark(k, order[i])) && t.tasks[k].req == req
            && Exec(Step, s, Marks(k, order)[..i + 1]) == Step(t, Mark(k, order[i]))
  {
    MarksRun(s, k, req, order, i);
    ExecSnoc(Step, s, Marks(k, order)[..i], Mark(k, order[i]));
    assert Marks(k, order)[..i + 1] == Marks(k, order)[..i] + [Mark(k, order[i])];
  }

  lemma AllMarked(s: State, k: Commit, req: Request, order: seq<Crtc>)
    requires Visits(order, req) && req.crtcs <= s.current.Keys
    requires k in s.tasks && s.tasks[k] == Task(req, Marking({}, {}))
    ensures Marks(k, order)[..|order|] == Marks(k, order)
    ensures Marked(s, Exec(Step, s, Marks(k, order)), k, req, req.crtcs)
  {
    MarksRun(s, k, req, order, |order|);
    assert Visited(order, |order|) == req.crtcs;
  }

  /** The marking loop: every CRTC gets a commit pending, and a flip unless it is and stays off. */
  method MarkAffected(crtcs: Crtcs, order: seq<Crtc>, k: Commit, req: Request, ghost s: State)
    requires Mirrors(crtcs, s) && Visits(order, req) && req.crtcs <= crtcs.Keys
    requires k in s.tasks && s.tasks[k] == Task(req, Marking({}, {}))
    modifies crtcs.Values
    ensures Mirrors(crtcs, Exec(Step, s, Marks(k, order)))
    ensures forall c :: c in crtcs ==>
              && crtcs[c].state == old(crtcs[c].state)
              && (crtcs[c].hasPendingCommit <==> old(crtcs[c].hasPendingCommit) || c in req.crtcs)
              && (crtcs[c].hasPendingFlipEvent <==>
                    old(crtcs[c].hasPendingFlipEvent)
                    || (c in req.crtcs && (old(crtcs[c].state.active) || c in req.active)))
  {
    for i := 0 to |order|
      invariant Mirrors(crtcs, Exec(Step, s, Marks(k, order)[..i]))
    {
      NextMark(s, k, req, order, i);
      MarkOne(crtcs, order[i], k, Exec(Step, s, Marks(k, order)[..i]), req.active);
    }
    AllMarked(s, k, req, order);
    forall c | c in crtcs
      ensures Shows(crtcs[c], c, Exec(Step, s, Marks(k, order))) && old(Shows(crtcs[c], c, s))
    {
    }
  }

  /** A CRTC object in the middle of a swap that has reached the CRTCs in `done`. */
  ghost predicate Swapping(crtc: NvCrtc, c: Crtc, s: State, k: Commit, req: Request, done: set<Crtc>)
    reads crtc
  {
    && crtc.head == c && c in s.current
    && crtc.hasPendingCommit == (c in s.pendingCommit)
    && crtc.hasPendingFlipEvent == (c in s.pendingFlip)
    && crtc.state == if c in done then Installed(k, req, c) else s.current[c]
  }

  /** The swap: the proposed states become the current ones. */
  method SwapState(crtcs: Crtcs, order: seq<Crtc>, k: Commit, req: Request, ghost s: State)
    requires Mirrors(crtcs, s) && Visits(order, req) && req.crtcs <= crtcs.Keys
    requires k in s.tasks && s.tasks[k].req == req && s.tasks[k].phase.Marking?
    requires s.tasks[k].phase.marked == req.crtcs
    modifies crtcs.Values
    ensures Mirrors(crtcs, Step(s, Swap(k)))
    ensures forall c :: c in crtcs ==>
              && crtcs[c].hasPendingCommit == old(crtcs[c].hasPendingCommit)
              && crtcs[c].hasPendingFlipEvent == old(crtcs[c].hasPendingFlipEvent)
              && if c in req.crtcs then IsOwn(crtcs[c].state, k, req, c) else crtcs[c].state == old(crtcs[c].state)
  {
    forall h | h in crtcs
      ensures Swapping(crtcs[h], h, s, k, req, Visited(order, 0))
    {
      assert Shows(crtcs[h], h, s);
    }
    for i := 0 to |order|
      invariant forall h :: h in crtcs ==> Swapping(crtcs[h], h, s, k, req, Visited(order, i))
    {
      VisitedGrows(order, req, i);
      SwapOne(crtcs, order[i], k, req, s, Visited(order, i));
    }
    assert Visited(order, |order|) == req.crtcs;
    forall c | c in crtcs
      ensures Shows(crtcs[c], c, Step(s, Swap(k))) && old(Shows(crtcs[c], c, s))
      ensures if c in req.crtcs then IsOwn(crtcs[c].state, k, req, c) else crtcs[c].state == old(crtcs[c].state)
    {
      assert Swapping(crtcs[c], c, s, k, req, req.crtcs);
    }
  }

  method SwapOne(crtcs: Crtcs, c: Crtc, k: Commit, req: Request, ghost s: State, ghost done: set<Crtc>)
    requires forall h :: h in crtcs ==> Swapping(crtcs[h], h, s, k, req, done)
    requires c in crtcs
    modifies crtcs[c]
    ensures forall h :: h in crtcs ==> Swapping(crtcs[h], h, s, k, req, done + {c})
  {
    var nvCrtc := crtcs[c];
    assert Swapping(nvCrtc, c, s, k, req, done);
    nvCrtc.state := Installed(k, req, c);
    forall h | h in crtcs
      ensures Swapping(crtcs[h], h, s, k, req, done + {c})
    {
      assert h != c ==> crtcs[h] != nvCrtc;
    }
  }

  /** The steps of a nonblocking call with nobody in between. */
  function CallSteps(k: Commit, req: Request, order: seq<Crtc>, busy: bool): seq<Action> {
    if busy then [Begin(k, req)] + [GiveUp(k)]
    else ([Begin(k, req)] + SeeAll(k, order)) + [StartMarking(k)] + Marks(k, order) + [Swap(k)]
  }

  /** Up to the marking, the successful call has only read. */
  lemma ReadyToMark(s: State, k: Commit, req: Request, order: seq<Crtc>)
    requires Enabled(s, Begin(k, req)) && Visits(order, req)
    requires req.crtcs !! s.pendingCommit && req.crtcs !! s.pendingFlip
    ensures var s' := Exec(Step, s, ([Begin(k, req)] + SeeAll(k, order)) + [StartMarking(k)]);
            && k in s'.tasks && s'.tasks[k] == Task(req, Marking({}, {}))
            && SameDevice(s, s')
  {
    var begun := Step(s, Begin(k, req));
    assert Exec(Step, s, [Begin(k, req)]) == begun;
    ExecSplit(Step, s, [Begin(k, req)], SeeAll(k, order));
    SeenAll(begun, k, req, order, |order|);
    assert SeeAll(k, order)[..2 * |order|] == SeeAll(k, order);
    assert Visited(order, |order|) == req.crtcs;
    ExecSnoc(Step, s, [Begin(k, req)] + SeeAll(k, order), StartMarking(k));
  }

  /** nv_drm_atomic_commit_internal, nonblocking: -EBUSY with nothing changed, or the update is
      marked and swapped in. */
  method CommitNonblocking(crtcs: Crtcs, order: seq<Crtc>, k: Commit, req: Request, ghost s: State)
    returns (busy: bool)
    requires Mirrors(crtcs, s) && Visits(order, req) && Enabled(s, Begin(k, req))
    modifies crtcs.Values
    ensures busy <==> req.crtcs * (s.pendingCommit + s.pendingFlip) != {}
    ensures busy ==> Mirrors(crtcs, s)
    ensures busy <==> exists c :: c in order && old(crtcs[c].hasPendingCommit || crtcs[c].hasPendingFlipEvent)
    ensures forall c :: c in crtcs ==>
              if busy || c !in req.crtcs
              then && crtcs[c].hasPendingCommit == old(crtcs[c].hasPendingCommit)
                   && crtcs[c].hasPendingFlipEvent == old(crtcs[c].hasPendingFlipEvent)
                   && crtcs[c].state == old(crtcs[c].state)
              else && crtcs[c].hasPendingCommit
                   && (crtcs[c].hasPendingFlipEvent <==> old(crtcs[c].state.active) || c in req.active)
                   && IsOwn(crtcs[c].state, k, req, c)
    ensures Mirrors(crtcs, Exec(Step, s, CallSteps(k, req, order, busy)))
  {
    forall c | c in order
      ensures c in crtcs && Shows(crtcs[c], c, s)
    {
    }
    busy := AnyPending(crtcs, order);
    if busy {
      ExecSnoc(Step, s, [Begin(k, req)], GiveUp(k));
      assert Exec(Step, s, [Begin(k, req)]) == Step(s, Begin(k, req));
      assert exists c :: c in order && Shows(crtcs[c], c, s) && c in req.crtcs * (s.pendingCommit + s.pendingFlip);
      MirrorKept(crtcs, s, Step(Step(s, Begin(k, req)), GiveUp(k)));
      return;
    }
    ghost var checks := ([Begin(k, req)] + SeeAll(k, order)) + [StartMarking(k)];
    ReadyToMark(s, k, req, order);
    ghost var ready := Exec(Step, s, checks);
    MirrorKept(crtcs, s, ready);
    MarkAndSwap(crtcs, order, k, req, ready);
    ExecSplit(Step, s, checks, Marks(k, order));
    ExecSnoc(Step, s, checks + Marks(k, order), Swap(k));
  }

  /** The rest of the call, once nothing is found pending. */
  method MarkAndSwap(crtcs: Crtcs, order: seq<Crtc>, k: Commit, req: Request, ghost s: State)
    requires Mirrors(crtcs, s) && Visits(order, req) && req.crtcs <= crtcs.Keys
    requires k in s.tasks && s.tasks[k] == Task(req, Marking({}, {}))
    modifies crtcs.Values
    ensures Mirrors(crtcs, Step(Exec(Step, s, Marks(k, order)), Swap(k)))
    ensures forall c :: c in crtcs ==>
              && (crtcs[c].hasPendingCommit <==> old(crtcs[c].hasPendingCommit) || c in req.crtcs)
              && (crtcs[c].hasPendingFlipEvent <==>
                    old(crtcs[c].hasPendingFlipEvent)
                    || (c in req.crtcs && (old(crtcs[c].state.active) || c in req.active)))
              && if c in req.crtcs then IsOwn(crtcs[c].state, k, req, c) else crtcs[c].state == old(crtcs[c].state)
  {
    MarkAffected(crtcs, order, k, req, s);
    AllMarked(s, k, req, order);
    SwapState(crtcs, order, k, req, Exec(Step, s, Marks(k, order)));
  }

  /** The first half of the commit task: the configuration it hands to the display engine takes the
      state that is current on each CRTC of the update, and nothing else. */
  method BuildConfig(crtcs: Crtcs, order: seq<Crtc>, req: Request, ghost s: State)
    returns (config: map<Crtc, CrtcState>)
    requires Mirrors(crtcs, s) && Visits(order, req) && req.crtcs <= crtcs.Keys
    ensures config == map c | c in req.crtcs :: s.current[c]
  {
    config := map[];
    for i := 0 to |order|
      invariant config == map c | c in Visited(order, i) && c in s.current :: s.current[c]
    {
      VisitedGrows(order, req, i);
      assert Shows(crtcs[order[i]], order[i], s);
      config := config[order[i] := crtcs[order[i]].state];
    }
    assert Visited(order, |order|) == req.crtcs;
  }

  /** Whatever has happened since the commit was made, the configuration its task builds is the one the
      commit proposed: active or not as it said, its events still attached, nothing of another commit. */
  lemma ConfigIsOwn(heads: set<Crtc>, active: set<Crtc>, es: seq<Action>, k: Commit)
    ensures var s := Exec(Step, Init(heads, active), es);
      k in s.tasks && s.tasks[k].phase.Queued? ==>
        var req := s.tasks[k].req;
        && req.crtcs <= s.current.Keys
        && IsProposal(map c | c in req.crtcs :: s.current[c], k, req)
  {
    RunKeepsInv(heads, active, es);
    var s := Exec(Step, Init(heads, active), es);
    if k in s.tasks && s.tasks[k].phase.Queued? {
      assert InstalledInv(s, k, s.tasks[k]);
    }
  }

  /** One turn of the commit task's loop. */
  method ClearOne(crtcs: Crtcs, c: Crtc, ghost k: Commit, ghost s: State)
    requires Mirrors(crtcs, s) && Enabled(s, Clear(k, c)) && c in crtcs
    modifies crtcs[c]
    ensures !crtcs[c].hasPendingCommit && crtcs[c].state == old(crtcs[c].state)
    ensures crtcs[c].hasPendingFlipEvent == old(crtcs[c].hasPendingFlipEvent)
    ensures Mirrors(crtcs, Step(s, Clear(k, c)))
  {
    var nvCrtc := crtcs[c];
    assert Shows(nvCrtc, c, s);
    nvCrtc.hasPendingCommit := false;
    forall h | h in crtcs
      ensures Shows(crtcs[h], h, Step(s, Clear(k, c)))
    {
      assert h != c ==> crtcs[h] != nvCrtc;
    }
  }

  /** Actions that leave flags and states alone leave the mirror alone. */
  lemma MirrorKept(crtcs: Crtcs, s: State, s': State)
    requires Mirrors(crtcs, s) && SameDevice(s, s')
    ensures Mirrors(crtcs, s')
  {
    forall c | c in crtcs
      ensures Shows(crtcs[c], c, s')
    {
      assert Shows(crtcs[c], c, s);
    }
  }

  lemma {:induction false} ClearsRun(s: State, k: Commit, req: Request, order: seq<Crtc>, i: nat)
    requires Visits(order, req) && i <= |order|
    requires k in s.tasks && s.tasks[k].phase.Applied?
    requires s.tasks[k] == Task(req, Applied(s.tasks[k].phase.flips, {}))
    ensures var s' := Exec(Step, s, Clears(k, order)[..i]);
            && k in s'.tasks && s'.tasks[k].req == req && s'.tasks[k].phase.Applied?
            && s'.tasks[k].phase.cleared == Visited(order, i)
            && s'.pendingCommit == s.pendingCommit - Visited(order, i)
            && s'.pendingFlip == s.pendingFlip && s'.current == s.current
            && (i < |order| ==> Enabled(s', Clear(k, order[i])))
    decreases i
  {
    if i > 0 {
      ClearsRun(s, k, req, order, i - 1);
      VisitedGrows(order, req, i - 1);
      assert Clears(k, order)[..i] == Clears(k, order)[..i - 1] + [Clear(k, order[i - 1])];
      ExecSnoc(Step, s, Clears(k, order)[..i - 1], Clear(k, order[i - 1]));
    }
    if i < |order| {
      VisitedGrows(order, req, i);
    }
  }

  lemma FinishKeepsDevice(s: State, k: Commit)
    ensures SameDevice(s, Step(s, Finish(k)))
  {
  }

  /** Once the loop is through, the commit task is done: no commit is pending on any CRTC of the update. */
  lemma AllCleared(s: State, k: Commit, req: Request, order: seq<Crtc>)
    requires Visits(order, req) && k in s.tasks && s.tasks[k].phase.Applied?
    requires s.tasks[k] == Task(req, Applied(s.tasks[k].phase.flips, {}))
    ensures var s' := Exec(Step, s, Clears(k, order) + [Finish(k)]);
            && s'.pendingCommit == s.pendingCommit - req.crtcs && k in s'.tasks && s'.tasks[k].phase.Finished?
            && s'.pendingFlip == s.pendingFlip && s'.current == s.current
  {
    ClearsRun(s, k, req, order, |order|);
    assert Clears(k, order)[..|order|] == Clears(k, order);
    assert Visited(order, |order|) == req.crtcs;
    ExecSnoc(Step, s, Clears(k, order), Finish(k));
  }

  /** The second half of the commit task: after each wait, however it ended, the commit flag comes down. */
  method ClearPending(crtcs: Crtcs, order: seq<Crtc>, k: Commit, req: Request, ghost s: State)
    requires Mirrors(crtcs, s) && Visits(order, req) && req.crtcs <= crtcs.Keys
    requires k in s.tasks && s.tasks[k].phase.Applied?
    requires s.tasks[k] == Task(req, Applied(s.tasks[k].phase.flips, {}))
    modifies crtcs.Values
    ensures Mirrors(crtcs, Exec(Step, s, Clears(k, order) + [Finish(k)]))
    ensures forall c :: c in crtcs ==>
              && (crtcs[c].hasPendingCommit <==> old(crtcs[c].hasPendingCommit) && c !in req.crtcs)
              && crtcs[c].hasPendingFlipEvent == old(crtcs[c].hasPendingFlipEvent)
              && crtcs[c].state == old(crtcs[c].state)
  {
    for i := 0 to |order|
      invariant Mirrors(crtcs, Exec(Step, s, Clears(k, order)[..i]))
    {
      ClearsRun(s, k, req, order, i);
      ClearOne(crtcs, order[i], k, Exec(Step, s, Clears(k, order)[..i]));
      ExecSnoc(Step, s, Clears(k, order)[..i], Clear(k, order[i]));
      assert Clears(k, order)[..i + 1] == Clears(k, order)[..i] + [Clear(k, order[i])];
    }
    assert Clears(k, order)[..|order|] == Clears(k, order);
    FinishKeepsDevice(Exec(Step, s, Clears(k, order)), k);
    AllCleared(s, k, req, order);
    ExecSnoc(Step, s, Clears(k, order), Finish(k));
    MirrorKept(crtcs, Exec(Step, s, Clears(k, order)), Exec(Step, s, Clears(k, order) + [Finish(k)]));
    forall c | c in crtcs
      ensures Shows(crtcs[c], c, Exec(Step, s, Clears(k, order) + [Finish(k)])) && old(Shows(crtcs[c], c, s))
    {
    }
  }

  /** The handler's event section. */
  method SendEvent(crtcs: Crtcs, c: Crtc, ghost k: Commit, ghost s: State) returns (sent: Option<Event>)
    requires Mirrors(crtcs, s) && c in crtcs && (c, k) in s.flipsDue
    modifies crtcs[c]
    ensures sent == old(crtcs[c].state.event) && crtcs[c].state == old(crtcs[c].state).(event := None)
    ensures crtcs[c].hasPendingCommit == old(crtcs[c].hasPendingCommit)
    ensures crtcs[c].hasPendingFlipEvent == old(crtcs[c].hasPendingFlipEvent)
    ensures Mirrors(crtcs, Step(s, SendFlip(c, k))) && sent == s.current[c].event
  {
    var nvCrtc := crtcs[c];
    assert Shows(nvCrtc, c, s);
    sent := nvCrtc.state.event;
    nvCrtc.state := nvCrtc.state.(event := None);
    forall h | h in crtcs
      ensures Shows(crtcs[h], h, Step(s, SendFlip(c, k)))
    {
      assert h != c ==> crtcs[h] != nvCrtc;
    }
  }

  /** The end of the handler. */
  method LowerFlipFlag(crtcs: Crtcs, c: Crtc, ghost k: Commit, ghost s: State)
    requires Mirrors(crtcs, s) && c in crtcs && (c, k) in s.flipsSent
    modifies crtcs[c]
    ensures !crtcs[c].hasPendingFlipEvent && crtcs[c].state == old(crtcs[c].state)
    ensures crtcs[c].hasPendingCommit == old(crtcs[c].hasPendingCommit)
    ensures Mirrors(crtcs, Step(s, EndFlip(c, k)))
  {
    var nvCrtc := crtcs[c];
    assert Shows(nvCrtc, c, s);
    nvCrtc.hasPendingFlipEvent := false;
    forall h | h in crtcs
      ensures Shows(crtcs[h], h, Step(s, EndFlip(c, k)))
    {
      assert h != c ==> crtcs[h] != nvCrtc;
    }
  }

  lemma SentFlipEnds(s: State, c: Crtc, k: Commit)
    requires (c, k) in s.flipsDue && c in s.current
    ensures var t := Step(s, SendFlip(c, k));
            && (c, k) in t.flipsSent && Step(t, EndFlip(c, k)).delivered == t.delivered
            && t.delivered == if s.current[c].event.Some? then s.delivered + [Delivery(s.current[c].event.value, k)]
                              else s.delivered
  {
  }

  /** The flip handler, with nobody in between: send the event of the current state, if any, once; then
      lower the flag. */
  method HandleFlipEvent(crtcs: Crtcs, c: Crtc, ghost k: Commit, ghost s: State)
    returns (sent: Option<Event>)
    requires Mirrors(crtcs, s) && c in crtcs && (c, k) in s.flipsDue
    modifies crtcs[c]
    ensures sent == old(crtcs[c].state.event) && crtcs[c].state == old(crtcs[c].state).(event := None)
    ensures !crtcs[c].hasPendingFlipEvent && crtcs[c].hasPendingCommit == old(crtcs[c].hasPendingCommit)
    ensures Mirrors(crtcs, Exec(Step, s, [SendFlip(c, k)] + [EndFlip(c, k)]))
    ensures sent == s.current[c].event
    ensures Exec(Step, s, [SendFlip(c, k)] + [EndFlip(c, k)]).delivered
         == if sent.Some? then s.delivered + [Delivery(sent.value, k)] else s.delivered
  {
    SentFlipEnds(s, c, k);
    sent := SendEvent(crtcs, c, k, s);
    LowerFlipFlag(crtcs, c, k, Step(s, SendFlip(c, k)));
    ExecSnoc(Step, s, [SendFlip(c, k)], EndFlip(c, k));
    assert Exec(Step, s, [SendFlip(c, k)]) == Step(s, SendFlip(c, k));
  }
}
