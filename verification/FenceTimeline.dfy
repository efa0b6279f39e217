/** The fence context of nvidia-410.93/nvidia-drm/nvidia-drm-prime-fence.c: fences wait on a list
    until the channel's semaphore reaches their sequence number; a wrapped sequence number and the
    destruction of the context signal everything at once. Each operation runs under the context's
    lock, so it is one atomic event; the semaphore is a memory word the GPU may change between any
    two reads. */
module FenceTimeline {
  import opened Runs

  type NvU32 = x: int | 0 <= x < 0x1_0000_0000

  /** A fence and its threshold; `id` numbers the fences of a context in order of creation. */
  datatype Fence = Fence(id: nat, seqno: NvU32)

  /** The operation that signalled a fence. */
  datatype Cause = ByEvent | ByWrap(seqno: NvU32, last: NvU32) | ByDestroy

  /** `value` is the semaphore value at the time of signalling. */
  datatype Signal = Signal(fence: Fence, value: NvU32, cause: Cause)

  /** `created` and `log` record every fence created and every one signalled, in order. */
  datatype State = State(pending: seq<Fence>, dead: bool, lastSeqno: NvU32, created: seq<Fence>, log: seq<Signal>)

  const INIT := State([], false, 0, [], [])

  datatype Event =
    | ChannelEvent(samples: seq<NvU32>)           // the values the loop reads, one a turn
    | CreateFence(seqno: NvU32, value: NvU32)   // memory for the fence is at hand
    | Destroy(value: NvU32)

  predicate Enabled(s: State, e: Event) {
    match e
    case ChannelEvent(samples) => |samples| >= |s.pending|
    case CreateFence(_, _) => true
    case Destroy(_) => !s.dead
  }

  /** How many fences the loop signals: it stops at the first one above the value it reads. */
  function ReadyCount(pending: seq<Fence>, samples: seq<NvU32>): (n: nat)
    requires |samples| >= |pending|
    ensures n <= |pending|
    ensures forall i :: 0 <= i < n ==> pending[i].seqno <= samples[i]
    ensures n < |pending| ==> pending[n].seqno > samples[n]
  {
    if pending == [] || pending[0].seqno > samples[0] then 0 else 1 + ReadyCount(pending[1..], samples[1..])
  }

  /** Turn `n` of the loop decides whether more than `n` fences are ready. */
  lemma ReadyFrom(pending: seq<Fence>, samples: seq<NvU32>, n: nat)
    requires n < |pending| <= |samples|
    ensures ReadyCount(pending[n..], samples[n..])
         == if pending[n].seqno > samples[n] then 0 else 1 + ReadyCount(pending[n + 1..], samples[n + 1..])
  {
    assert pending[n..][1..] == pending[n + 1..] && samples[n..][1..] == samples[n + 1..];
  }

  function Signals(fences: seq<Fence>, samples: seq<NvU32>, cause: Cause): (log: seq<Signal>)
    requires |samples| >= |fences|
    ensures |log| == |fences|
  {
    seq(|fences|, i requires 0 <= i < |fences| => Signal(fences[i], samples[i], cause))
  }

  function SignalFirst(s: State, n: nat, samples: seq<NvU32>, cause: Cause): State
    requires n <= |s.pending| && n <= |samples|
  {
    s.(pending := s.pending[n..], log := s.log + Signals(s.pending[..n], samples[..n], cause))
  }

  /** Signalling one more fence takes the head of what is left. */
  lemma SignalOneMore(s: State, n: nat, samples: seq<NvU32>, cause: Cause)
    requires n < |s.pending| && n < |samples|
    ensures var t := SignalFirst(s, n, samples, cause);
            && t.pending == s.pending[n..] && t.pending != []
            && SignalFirst(s, n + 1, samples, cause)
               == t.(pending := t.pending[1..], log := t.log + [Signal(t.pending[0], samples[n], cause)])
  {
    assert Signals(s.pending[..n + 1], samples[..n + 1], cause)
        == Signals(s.pending[..n], samples[..n], cause) + [Signal(s.pending[n], samples[n], cause)];
  }

  /** `nv_drm_gem_prime_force_fence_signal`. */
  function SignalAll(s: State, value: NvU32, cause: Cause): State {
    SignalFirst(s, |s.pending|, seq(|s.pending|, i => value), cause)
  }

  function Step(s: State, e: Event): State {
    if !Enabled(s, e) then s else
    match e
    case ChannelEvent(samples) =>
      if s.dead then s else SignalFirst(s, ReadyCount(s.pending, samples), samples, ByEvent)
    case CreateFence(seqno, value) =>
      if s.dead then s else
      var fence := Fence(|s.created|, seqno);
      var cleared := if seqno < s.lastSeqno then SignalAll(s, value, ByWrap(seqno, s.lastSeqno)) else s;
      cleared.(pending := cleared.pending + [fence], lastSeqno := seqno, created := s.created + [fence])
    case Destroy(value) => SignalAll(s, value, ByDestroy).(dead := true)
  }

  // ------------------------------------------------------------------ the timeline

  ghost predicate Sorted(fences: seq<Fence>) {
    forall i, j :: 0 <= i < j < |fences| ==> fences[i].seqno <= fences[j].seqno
  }

  function Fences(log: seq<Signal>): (fs: seq<Fence>)
    ensures |fs| == |log|
  {
    seq(|log|, i requires 0 <= i < |log| => log[i].fence)
  }

  /** A fence ahead of its threshold was signalled by a wrap or by the destruction. */
  predicate Justified(x: Signal) {
    match x.cause
    case ByEvent => x.fence.seqno <= x.value
    case ByWrap(seqno, last) => seqno < last
    case ByDestroy => true
  }

  ghost predicate Inv(s: State) {
    && s.created == Fences(s.log) + s.pending
    && Sorted(s.pending)
    && (s.pending != [] ==> s.pending[|s.pending| - 1].seqno == s.lastSeqno)
    && (s.dead ==> s.pending == [])
    && (forall i :: 0 <= i < |s.created| ==> s.created[i].id == i)
    && (forall i :: 0 <= i < |s.log| ==> Justified(s.log[i]))
    && (!s.dead ==> forall i :: 0 <= i < |s.log| ==> !s.log[i].cause.ByDestroy?)
  }

  lemma SignalFirstKeepsOrder(s: State, n: nat, samples: seq<NvU32>, cause: Cause)
    requires n <= |s.pending| && n <= |samples|
    ensures var t := SignalFirst(s, n, samples, cause); Fences(t.log) + t.pending == Fences(s.log) + s.pending
  {
    var t := SignalFirst(s, n, samples, cause);
    assert Fences(t.log) == Fences(s.log) + s.pending[..n];
    assert s.pending == s.pending[..n] + s.pending[n..];
  }

  lemma SignalFirstKeepsInv(s: State, n: nat, samples: seq<NvU32>, cause: Cause)
    requires Inv(s) && !s.dead && n <= |s.pending| && n <= |samples|
    requires forall i :: 0 <= i < n ==> Justified(Signal(s.pending[i], samples[i], cause))
    requires cause.ByDestroy? ==> n == |s.pending|
    ensures Inv(SignalFirst(s, n, samples, cause).(dead := cause.ByDestroy?))
  {
    SignalFirstKeepsOrder(s, n, samples, cause);
  }

  lemma StepKeepsInv(s: State, e: Event)
    requires Inv(s)
    ensures Inv(Step(s, e))
  {
    if Enabled(s, e) && !s.dead {
      match e
      case ChannelEvent(samples) =>
        SignalFirstKeepsInv(s, ReadyCount(s.pending, samples), samples, ByEvent);
      case CreateFence(seqno, value) =>
        if seqno < s.lastSeqno {
          SignalFirstKeepsInv(s, |s.pending|, seq(|s.pending|, i => value), ByWrap(seqno, s.lastSeqno));
        }
      case Destroy(value) =>
        SignalFirstKeepsInv(s, |s.pending|, seq(|s.pending|, i => value), ByDestroy);
    }
  }

  /** In every run: the fences created are those signalled, followed by those pending, in order, so
      none is lost and none is signalled twice; the list is sorted and ends at the last sequence
      number; a dead context has no pending fence; and a fence above the semaphore's value was
      signalled only by a wrap or by the destruction, which comes last. */
  lemma TimelineSafety(es: seq<Event>)
    ensures var s := Exec(Step, INIT, es);
      && s.created == Fences(s.log) + s.pending
      && (forall i, j :: 0 <= i < j < |s.log| ==> s.log[i].fence.id < s.log[j].fence.id)
      && Sorted(s.pending)
      && (s.pending != [] ==> s.pending[|s.pending| - 1].seqno == s.lastSeqno)
      && (s.dead ==> s.pending == [])
      && (forall i :: 0 <= i < |s.log| ==> Justified(s.log[i]))
      && (forall i :: 0 <= i < |s.log| && s.log[i].fence.seqno > s.log[i].value ==> !s.log[i].cause.ByEvent?)
      && (!s.dead ==> forall i :: 0 <= i < |s.log| ==> !s.log[i].cause.ByDestroy?)
  {
    forall s, e | Inv(s) ensures Inv(Step(s, e)) { StepKeepsInv(s, e); }
    InvariantHolds(Step, Inv, INIT, es);
    var s := Exec(Step, INIT, es);
    forall i | 0 <= i < |s.log| ensures s.log[i].fence.id == i {
      assert s.created[i] == s.log[i].fence;
    }
  }

  /** A dead context accepts nothing more. */
  lemma DeadIsFinal(s: State, es: seq<Event>)
    requires s.dead
    ensures Exec(Step, s, es) == s
  {
    InvariantHolds(Step, (t: State) => t == s, s, es);
  }

  /** The sequence numbers asked for until the context is destroyed, read off the events alone. */
  function AskedFor(es: seq<Event>): seq<NvU32> {
    if es == [] || es[0].Destroy? then []
    else (if es[0].CreateFence? then [es[0].seqno] else []) + AskedFor(es[1..])
  }

  predicate IsDestroyed(es: seq<Event>) {
    exists i :: 0 <= i < |es| && es[i].Destroy?
  }

  lemma IsDestroyedFirst(es: seq<Event>)
    requires es != []
    ensures IsDestroyed(es) <==> es[0].Destroy? || IsDestroyed(es[1..])
  {
    assert forall i :: 0 < i < |es| ==> es[i] == es[1..][i - 1];
  }

  function LastOr(seqnos: seq<NvU32>, otherwise: NvU32): NvU32 {
    if seqnos == [] then otherwise else seqnos[|seqnos| - 1]
  }

  /** `more` extends `created` by fences with these sequence numbers, numbered on. */
  ghost predicate Extends(created: seq<Fence>, more: seq<Fence>, seqnos: seq<NvU32>) {
    && |more| == |created| + |seqnos| && created <= more
    && forall i :: 0 <= i < |seqnos| ==> more[|created| + i] == Fence(|created| + i, seqnos[i])
  }

  lemma ExtendsFirst(created: seq<Fence>, more: seq<Fence>, seqnos: seq<NvU32>)
    requires seqnos != [] && Extends(created + [Fence(|created|, seqnos[0])], more, seqnos[1..])
    ensures Extends(created, more, seqnos)
  {
    assert more[|created|] == (created + [Fence(|created|, seqnos[0])])[|created|];
    forall i | 0 < i < |seqnos|
      ensures more[|created| + i] == Fence(|created| + i, seqnos[i])
    {
      assert more[|created| + 1 + (i - 1)] == Fence(|created| + 1 + (i - 1), seqnos[1..][i - 1]);
    }
  }

  lemma {:induction false} RunFollowsEvents(s: State, es: seq<Event>)
    requires !s.dead
    ensures var t := Exec(Step, s, es);
      && (t.dead <==> IsDestroyed(es))
      && Extends(s.created, t.created, AskedFor(es))
      && t.lastSeqno == LastOr(AskedFor(es), s.lastSeqno)
    decreases |es|
  {
    if es != [] {
      IsDestroyedFirst(es);
      EventFollowed(s, es[0]);
      if es[0].Destroy? {
        DeadIsFinal(Step(s, es[0]), es[1..]);
      } else {
        RunFollowsEvents(Step(s, es[0]), es[1..]);
        if es[0].CreateFence? {
          assert AskedFor(es)[1..] == AskedFor(es[1..]);
          ExtendsFirst(s.created, Exec(Step, s, es).created, AskedFor(es));
        }
      }
    }
  }

  lemma EventFollowed(s: State, e: Event)
    requires !s.dead
    ensures var t := Step(s, e);
      && (t.dead <==> e.Destroy?)
      && t.created == (if e.CreateFence? then s.created + [Fence(|s.created|, e.seqno)] else s.created)
      && t.lastSeqno == if e.CreateFence? then e.seqno else s.lastSeqno
  {
  }

  /** What a run comes to, from its events alone: the context is dead if and only if it was destroyed, and
      then no fence is left unsignalled; the fences are those asked for until then, numbered in order. */
  lemma EventsDecide(es: seq<Event>)
    ensures var s := Exec(Step, INIT, es);
      && (s.dead <==> IsDestroyed(es))
      && |s.created| == |AskedFor(es)|
      && (forall i :: 0 <= i < |s.created| ==> s.created[i] == Fence(i, AskedFor(es)[i]))
      && s.lastSeqno == LastOr(AskedFor(es), 0)
      && (s.dead ==> Fences(s.log) == s.created)
  {
    RunFollowsEvents(INIT, es);
    TimelineSafety(es);
    NumberedFromZero(Exec(Step, INIT, es).created, AskedFor(es));
  }

  lemma NumberedFromZero(created: seq<Fence>, seqnos: seq<NvU32>)
    requires Extends([], created, seqnos)
    ensures |created| == |seqnos| && forall i :: 0 <= i < |created| ==> created[i] == Fence(i, seqnos[i])
  {
    assert forall i :: 0 <= i < |seqnos| ==> created[0 + i] == created[i];
  }

  /** A smaller sequence number after a larger one leaves no fence before it unsignalled. */
  lemma SmallerNumberSignals(es: seq<Event>, i: nat, j: nat)
    requires i < j < |AskedFor(es)| && AskedFor(es)[i] > AskedFor(es)[j]
    ensures var s := Exec(Step, INIT, es);
            i < |s.log| && s.log[i].fence == Fence(i, AskedFor(es)[i])
  {
    EventsDecide(es);
    TimelineSafety(es);
    LargerIsLogged(Exec(Step, INIT, es), i, j);
  }

  lemma LargerIsLogged(s: State, i: nat, j: nat)
    requires s.created == Fences(s.log) + s.pending && Sorted(s.pending)
    requires i < j < |s.created| && s.created[i].seqno > s.created[j].seqno
    ensures i < |s.log| && s.log[i].fence == s.created[i]
  {
    if i >= |s.log| {
      PendingAreInOrder(s, i, j);
    }
  }

  lemma PendingAreInOrder(s: State, i: nat, j: nat)
    requires s.created == Fences(s.log) + s.pending && Sorted(s.pending) && |s.log| <= i < j < |s.created|
    ensures s.created[i].seqno <= s.created[j].seqno
  {
    assert s.created[i] == s.pending[i - |s.log|] && s.created[j] == s.pending[j - |s.log|];
  }

  /** In a sorted list the loop stops exactly where the thresholds pass the value. */
  lemma ReadyAreThePrefix(pending: seq<Fence>, samples: seq<NvU32>, value: NvU32)
    requires Sorted(pending) && |samples| == |pending| && forall i :: 0 <= i < |samples| ==> samples[i] == value
    ensures var n := ReadyCount(pending, samples);
      forall i :: 0 <= i < |pending| ==> (i < n <==> pending[i].seqno <= value)
  {
    var n := ReadyCount(pending, samples);
    assert forall i :: n <= i < |pending| ==> pending[i].seqno >= pending[n].seqno > value;
  }

  /** What signalling the first `n` fences adds to the log, when every turn reads the same value. */
  lemma SentAreTheFirst(s: State, n: nat, samples: seq<NvU32>, value: NvU32)
    requires n <= |s.pending| == |samples| && forall i :: 0 <= i < n ==> s.pending[i].seqno <= value
    requires forall i :: 0 <= i < |samples| ==> samples[i] == value
    ensures var t := SignalFirst(s, n, samples, ByEvent);
            && s.log <= t.log && s.pending == Fences(t.log[|s.log|..]) + t.pending
            && (forall x :: x in t.log[|s.log|..] ==> x.cause == ByEvent && x.value == value && x.fence.seqno <= value)
  {
    var sent := Signals(s.pending[..n], samples[..n], ByEvent);
    assert (s.log + sent)[|s.log|..] == sent;
    assert Fences(sent) == s.pending[..n];
    forall x | x in sent
      ensures x.cause == ByEvent && x.value == value && x.fence.seqno <= value
    {
      var i :| 0 <= i < |sent| && sent[i] == x;
      assert s.pending[i].seqno <= value;
    }
  }

  lemma OthersAreAbove(pending: seq<Fence>, n: nat, value: NvU32)
    requires n <= |pending| && forall i :: 0 <= i < |pending| ==> (i < n <==> pending[i].seqno <= value)
    ensures forall f :: f in pending[n..] ==> f.seqno > value
  {
  }

  /** At a fixed semaphore value, stopping at the first fence above it signals all the fences at or
      below it, in order, and only those. */
  lemma EventSignalsAllReady(s: State, samples: seq<NvU32>, value: NvU32)
    requires Inv(s) && |samples| == |s.pending| && forall i :: 0 <= i < |samples| ==> samples[i] == value
    ensures var t := Step(s, ChannelEvent(samples));
      && s.log <= t.log
      && s.pending == Fences(t.log[|s.log|..]) + t.pending
      && (forall x :: x in t.log[|s.log|..] ==> x.cause == ByEvent && x.value == value && x.fence.seqno <= value)
      && (forall f :: f in t.pending ==> f.seqno > value)
  {
    var n := if s.dead then 0 else ReadyCount(s.pending, samples);
    EventSignalsFirst(s, samples, n);
    ReadyAreThePrefix(s.pending, samples, value);
    SentAreTheFirst(s, n, samples, value);
    OthersAreAbove(s.pending, n, value);
  }

  lemma EventSignalsFirst(s: State, samples: seq<NvU32>, n: nat)
    requires |samples| == |s.pending| && n == if s.dead then 0 else ReadyCount(s.pending, samples)
    ensures Step(s, ChannelEvent(samples)) == SignalFirst(s, n, samples, ByEvent)
  {
    if s.dead {
      assert s.pending[0..] == s.pending && Signals([], [], ByEvent) == [];
    }
  }

  // ------------------------------------------------------------------ the object

  /** The log has grown by the signals of these fences, one after the other. */
  ghost predicate Logged(was: seq<Signal>, now: seq<Signal>, fences: seq<Fence>, values: seq<NvU32>, cause: Cause)
    requires |values| >= |fences|
  {
    && |now| == |was| + |fences| && was <= now
    && forall i :: 0 <= i < |fences| ==> now[|was| + i] == Signal(fences[i], values[i], cause)
  }

  /** Fences have left the head of the list for the log, each at or below the value its turn read, up to the
      first one above. */
  ghost predicate SignalledUpTo(pending: seq<Fence>, log: seq<Signal>, left: seq<Fence>, now: seq<Signal>,
                                samples: seq<NvU32>)
    requires |samples| >= |pending|
  {
    var n := |pending| - |left|;
    && n >= 0 && left == pending[n..]
    && Logged(log, now, pending[..n], samples[..n], ByEvent)
    && (forall i :: 0 <= i < n ==> pending[i].seqno <= samples[i])
    && (left != [] ==> left[0].seqno > samples[n])
  }

  lemma EventStopsThere(s: State, n: nat, samples: seq<NvU32>)
    requires |samples| >= |s.pending| && n == ReadyCount(s.pending, samples)
    ensures var t := SignalFirst(s, n, samples, ByEvent); SignalledUpTo(s.pending, s.log, t.pending, t.log, samples)
  {
  }

  ghost predicate LoggedAtOnce(was: seq<Signal>, now: seq<Signal>, fences: seq<Fence>, value: NvU32, cause: Cause) {
    Logged(was, now, fences, seq(|fences|, i => value), cause)
  }

  datatype CreateResult = Created(fence: Fence) | ErrNoMem | ErrInval

  class FenceContext {
    var pending: seq<Fence>
    var dead: bool
    var lastSeqno: NvU32
    ghost var created: seq<Fence>
    ghost var log: seq<Signal>

    ghost function View(): State
      reads this
    {
      State(pending, dead, lastSeqno, created, log)
    }

    constructor ()
      ensures View() == INIT
    {
      pending, dead, lastSeqno, created, log := [], false, 0, [], [];
    }

    /** `__nv_drm_prime_fence_signal` on the head of the list. */
    method SignalHead(ghost value: NvU32, ghost cause: Cause)
      requires pending != []
      modifies this
      ensures pending == old(pending)[1..] && log == old(log) + [Signal(old(pending)[0], value, cause)]
      ensures dead == old(dead) && lastSeqno == old(lastSeqno) && created == old(created)
    {
      log := log + [Signal(pending[0], value, cause)];
      pending := pending[1..];
    }

    method ForceSignal(ghost value: NvU32, ghost cause: Cause)
      modifies this
      ensures View() == SignalAll(old(View()), value, cause)
      ensures pending == [] && LoggedAtOnce(old(log), log, old(pending), value, cause)
      ensures dead == old(dead) && lastSeqno == old(lastSeqno) && created == old(created)
    {
      ghost var s := View();
      ghost var samples := seq(|pending|, i => value);
      ghost var n := 0;
      while pending != []
        invariant 0 <= n <= |s.pending|
        invariant View() == SignalFirst(s, n, samples, cause)
        decreases |pending|
      {
        SignalOneMore(s, n, samples, cause);
        SignalHead(value, cause);
        n := n + 1;
      }
    }

    /** `nv_drm_gem_prime_fence_event`; `samples[i]` is what turn `i` of the loop finds in memory. */
    method HandleChannelEvent(samples: seq<NvU32>)
      requires |samples| >= |pending|
      modifies this
      ensures View() == Step(old(View()), ChannelEvent(samples))
      ensures dead == old(dead) && lastSeqno == old(lastSeqno) && created == old(created)
      ensures dead ==> pending == old(pending) && log == old(log)
      ensures !dead ==> SignalledUpTo(old(pending), old(log), pending, log, samples)
    {
      if dead {
        return;
      }
      ghost var s := View();
      var n := 0;
      while pending != []
        invariant 0 <= n <= |s.pending|
        invariant View() == SignalFirst(s, n, samples, ByEvent)
        invariant ReadyCount(s.pending, samples) == n + ReadyCount(s.pending[n..], samples[n..])
        decreases |pending|
      {
        var seqno := samples[n];
        ReadyFrom(s.pending, samples, n);
        if pending[0].seqno > seqno {
          break;
        }
        SignalOneMore(s, n, samples, ByEvent);
        SignalHead(seqno, ByEvent);
        n := n + 1;
      }
      EventStopsThere(s, n, samples);
    }

    /** `__nv_drm_fence_context_create_fence`; `hasMemory` says whether the allocation succeeds, and `id`
        tells the new fence object from all others. */
    method CreateFenceAt(seqno: NvU32, id: nat, hasMemory: bool, ghost value: NvU32) returns (r: CreateResult)
      requires id == |created|
      modifies this
      ensures View() == if hasMemory then Step(old(View()), CreateFence(seqno, value)) else old(View())
      ensures r.ErrNoMem? <==> !hasMemory
      ensures r.ErrInval? <==> hasMemory && old(dead)
      ensures !r.Created? ==> View() == old(View())
      ensures r.Created? ==>
        && r.fence == Fence(id, seqno) && created == old(created) + [r.fence]
        && lastSeqno == seqno && !dead
        && if seqno < old(lastSeqno)
           then pending == [r.fence] && LoggedAtOnce(old(log), log, old(pending), value, ByWrap(seqno, old(lastSeqno)))
           else pending == old(pending) + [r.fence] && log == old(log)
    {
      if !hasMemory {
        return ErrNoMem;
      }
      if dead {
        return ErrInval;
      }
      if seqno < lastSeqno {
        ForceSignal(value, ByWrap(seqno, lastSeqno));
      }
      var fence := Fence(id, seqno);
      pending := pending + [fence];
      lastSeqno := seqno;
      created := created + [fence];
      r := Created(fence);
    }

    /** `__nv_drm_fence_context_destroy`, up to the release of the lock. */
    method DestroyContext(ghost value: NvU32)
      requires !dead
      modifies this
      ensures View() == Step(old(View()), Destroy(value))
      ensures dead && pending == [] && LoggedAtOnce(old(log), log, old(pending), value, ByDestroy)
      ensures lastSeqno == old(lastSeqno) && created == old(created)
    {
      ForceSignal(value, ByDestroy);
      dead := true;
    }
  }
}
