/** The counting semaphore of nvidia-geforce-340.107/os-interface.c: a signed count under a
    spinlock, and a completion on which threads that found no permit sleep.

    Each critical section, each `complete` and each return from `wait_for_completion` is one
    atomic event, so a run is any interleaving of any number of threads. The count is the 32-bit field it
    is in the source; stepping over either end of its range wraps around, as it does in a kernel build. */
module Semaphore {
  import opened Runs

  type Thread = nat

  const NVS32_LIMIT := 0x8000_0000
  const NVU32_LIMIT := 0x1_0000_0000

  type NvU32 = x: int | 0 <= x < NVU32_LIMIT

  type NvS32 = x: int | -NVS32_LIMIT <= x < NVS32_LIMIT

  /** `os_sema->count = initialValue`: an unsigned value stored in a signed field. */
  function ToSigned(x: NvU32): NvS32 {
    if x < NVS32_LIMIT then x else x - NVU32_LIMIT
  }

  /** Equal as 32-bit patterns. */
  predicate Congruent(a: int, b: int) {
    (a - b) % 0x1_0000_0000 == 0
  }

  function Up(c: NvS32): NvS32 {
    if c == NVS32_LIMIT - 1 then -NVS32_LIMIT else c + 1
  }

  function Down(c: NvS32): NvS32 {
    if c == -NVS32_LIMIT then NVS32_LIMIT - 1 else c - 1
  }

  datatype Event =
    | Acquire(t: Thread)   // the critical section of os_acquire_semaphore
    | Wake(t: Thread)      // wait_for_completion returns
    | Release(t: Thread)   // the critical section of os_release_semaphore
    | Complete(t: Thread)  // complete(), when doWakeup was set

  /** `done` is the completion's counter. `waiting` are the threads between their critical section
      and the return of `wait_for_completion`; `completing` those that still owe a `complete`.
      `passed`, `released` and `held` record history: acquisitions that returned, releases, and
      the permits each thread holds; `onlyHolders` says that every release so far was by a thread
      holding a permit. */
  datatype State = State(
    count: NvS32,
    done: nat,
    waiting: set<Thread>,
    completing: set<Thread>,
    passed: nat,
    released: nat,
    held: multiset<Thread>,
    onlyHolders: bool)

  function Init(initialValue: NvU32): State {
    State(ToSigned(initialValue), 0, {}, {}, 0, 0, multiset{}, true)
  }

  predicate Enabled(s: State, e: Event) {
    match e
    case Acquire(t) => t !in s.waiting && t !in s.completing
    case Wake(t) => t in s.waiting && s.done > 0
    case Release(t) => t !in s.waiting && t !in s.completing
    case Complete(t) => t in s.completing
  }

  function Step(s: State, e: Event): State {
    if !Enabled(s, e) then s else
    match e
    case Acquire(t) =>
      if s.count <= 0
      then s.(count := Down(s.count), waiting := s.waiting + {t})
      else s.(count := Down(s.count), passed := s.passed + 1, held := s.held + multiset{t})
    case Wake(t) =>
      s.(done := s.done - 1, waiting := s.waiting - {t},
         passed := s.passed + 1, held := s.held + multiset{t})
    case Release(t) =>
      s.(count := Up(s.count), released := s.released + 1, held := s.held - multiset{t},
         onlyHolders := s.onlyHolders && t in s.held,
         completing := if s.count < 0 then s.completing + {t} else s.completing)
    case Complete(t) =>
      s.(done := s.done + 1, completing := s.completing - {t})
  }

  function Max0(x: int): nat {
    if x < 0 then 0 else x
  }

  /** The count is what is left of the permits after callers and sleepers, and every sleeper is
      accounted for by the count or by a wake-up on its way. */
  ghost predicate Inv(initial: nat, s: State) {
    && s.waiting !! s.completing
    && s.count == initial + s.released - s.passed - |s.waiting|
    && |s.waiting| == Max0(0 - s.count) + |s.completing| + s.done
    && (s.onlyHolders ==> |s.held| + s.released == s.passed)
  }

  /** After any run the count and what is left of the permits differ by a multiple of 2^32. */
  lemma {:induction false} CountIsWrapped(initialValue: NvU32, es: seq<Event>)
    ensures (Exec(Step, Init(initialValue), es).count - Left(initialValue, Exec(Step, Init(initialValue), es)))
            % NVU32_LIMIT == 0
    decreases |es|
  {
    if es != [] {
      var n := |es| - 1;
      assert es == es[..n] + [es[n]];
      ExecSnoc(Step, Init(initialValue), es[..n], es[n]);
      CountIsWrapped(initialValue, es[..n]);
      WrappedStep(initialValue, Exec(Step, Init(initialValue), es[..n]), es[n]);
    }
  }

  /** A step moves both alike, or the count by 2^32 less or more. */
  lemma WrappedStep(initialValue: NvU32, s: State, e: Event)
    ensures var was, now := s.count - Left(initialValue, s), Step(s, e).count - Left(initialValue, Step(s, e));
            now == was || now == was - NVU32_LIMIT || now == was + NVU32_LIMIT
  {
  }

  /** What is left of the permits, were numbers unbounded. */
  function Left(initialValue: NvU32, s: State): int {
    initialValue + s.released - Asked(s)
  }

  /** How many acquires have been begun: each has returned or sleeps. */
  function Asked(s: State): nat {
    s.passed + |s.waiting|
  }

  /** Fewer sleepers than there are negative counts: the decrement does not wrap. */
  lemma AcquireKeepsInv(initial: nat, s: State, t: Thread)
    requires Inv(initial, s) && |s.waiting| < NVS32_LIMIT
    ensures Inv(initial, Step(s, Acquire(t)))
  {
  }

  lemma WakeKeepsInv(initial: nat, s: State, t: Thread)
    requires Inv(initial, s)
    ensures Inv(initial, Step(s, Wake(t)))
  {
  }

  /** Below the largest count, or where a holder gives back, the increment does not wrap. */
  lemma ReleaseKeepsInv(initial: nat, s: State, t: Thread)
    requires Inv(initial, s) && initial < NVS32_LIMIT
    requires Step(s, Release(t)).onlyHolders || initial + Step(s, Release(t)).released < NVS32_LIMIT
    ensures Inv(initial, Step(s, Release(t)))
  {
    assert |s.held - multiset{t}| == if t in s.held then |s.held| - 1 else |s.held| by {
      assert s.held - multiset{t} == if t in s.held then s.held[t := s.held[t] - 1] else s.held;
    }
    assert t in s.held ==> s.held[t] > 0 && |s.held| > 0;
  }

  lemma CompleteKeepsInv(initial: nat, s: State, t: Thread)
    requires Inv(initial, s)
    ensures Inv(initial, Step(s, Complete(t)))
  {
  }

  /** No step that keeps clear of the ends of the 32-bit range disturbs the invariant. */
  lemma StepKeepsInv(initial: nat, s: State, e: Event)
    requires Inv(initial, s) && initial < NVS32_LIMIT && |s.waiting| < NVS32_LIMIT
    requires Step(s, e).onlyHolders || initial + Step(s, e).released < NVS32_LIMIT
    ensures Inv(initial, Step(s, e))
  {
    match e
    case Acquire(t) => AcquireKeepsInv(initial, s, t);
    case Wake(t) => WakeKeepsInv(initial, s, t);
    case Release(t) => ReleaseKeepsInv(initial, s, t);
    case Complete(t) => CompleteKeepsInv(initial, s, t);
  }

  /** The kernel has no more than 2^31 - 1 threads; it numbers them far lower. */
  predicate FewThreads(es: seq<Event>) {
    forall i :: 0 <= i < |es| ==> es[i].t < NVS32_LIMIT - 1
  }

  lemma {:induction false} SetBelow(xs: set<nat>, n: nat)
    requires forall x :: x in xs ==> x < n
    ensures |xs| <= n
    decreases n
  {
    if n == 0 {
      assert xs == {};
    } else if n - 1 in xs {
      SetBelow(xs - {n - 1}, n - 1);
    } else {
      SetBelow(xs, n - 1);
    }
  }

  lemma {:induction false} SleepersAreFew(initialValue: NvU32, es: seq<Event>)
    requires FewThreads(es)
    ensures forall t :: t in Exec(Step, Init(initialValue), es).waiting ==> t < NVS32_LIMIT - 1
    ensures |Exec(Step, Init(initialValue), es).waiting| < NVS32_LIMIT
    decreases |es|
  {
    if es != [] {
      var n := |es| - 1;
      assert es == es[..n] + [es[n]];
      ExecSnoc(Step, Init(initialValue), es[..n], es[n]);
      SleepersAreFew(initialValue, es[..n]);
    }
    SetBelow(Exec(Step, Init(initialValue), es).waiting, NVS32_LIMIT - 1);
  }

  lemma {:induction false} RunKeepsInv(initialValue: NvU32, es: seq<Event>)
    requires initialValue < NVS32_LIMIT && FewThreads(es)
    requires var s := Exec(Step, Init(initialValue), es);
             s.onlyHolders || initialValue + s.released < NVS32_LIMIT
    ensures Inv(initialValue, Exec(Step, Init(initialValue), es))
    decreases |es|
  {
    if es != [] {
      var n := |es| - 1;
      assert es == es[..n] + [es[n]];
      ExecSnoc(Step, Init(initialValue), es[..n], es[n]);
      SleepersAreFew(initialValue, es[..n]);
      RunKeepsInv(initialValue, es[..n]);
      StepKeepsInv(initialValue, Exec(Step, Init(initialValue), es[..n]), es[n]);
    }
  }

  /** The semaphore law in every interleaving in which only holders release, or others do so no more
      often than the 32-bit count has room for: never more acquisitions than permits plus releases (so
      never more holders than permits), and no lost wake-up. */
  lemma SemaphoreLaw(initialValue: NvU32, es: seq<Event>)
    requires initialValue < NVS32_LIMIT && FewThreads(es)
    requires var s := Exec(Step, Init(initialValue), es);
             s.onlyHolders || initialValue + s.released < NVS32_LIMIT
    ensures var s := Exec(Step, Init(initialValue), es);
      && s.count == initialValue + s.released - s.passed - |s.waiting|
      && |s.waiting| == Max0(0 - s.count) + |s.completing| + s.done
      && s.passed <= initialValue + s.released
      && (s.waiting != {} && s.completing == {} && s.done == 0 ==> s.passed == initialValue + s.released)
      && -|s.waiting| <= s.count
      && (s.onlyHolders ==> |s.held| <= initialValue && s.count <= initialValue)
      && (s.onlyHolders ==> s.count == initialValue - |s.held| - |s.waiting|)
      && (s.onlyHolders && s.waiting != {} && s.completing == {} && s.done == 0 ==> |s.held| == initialValue)
  {
    RunKeepsInv(initialValue, es);
  }

  // ------------------------------------------------------------------ what the events of a run come to

  /** A thread that neither sleeps nor owes a `complete` may call. */
  predicate Free(s: State, t: Thread) {
    t !in s.waiting && t !in s.completing
  }

  predicate Acquires(s: State, e: Event) {
    e.Acquire? && Free(s, e.t)
  }

  predicate Releases(s: State, e: Event) {
    e.Release? && Free(s, e.t)
  }

  predicate ForeignReleases(s: State, e: Event) {
    Releases(s, e) && e.t !in s.held
  }

  predicate FallsAsleep(s: State, e: Event) {
    Acquires(s, e) && s.count <= 0
  }

  predicate FindsSleepers(s: State, e: Event) {
    Releases(s, e) && s.count < 0
  }

  predicate Wakes(s: State, e: Event) {
    e.Wake? && e.t in s.waiting && s.done > 0
  }

  predicate Completes(s: State, e: Event) {
    e.Complete? && e.t in s.completing
  }

  /** How often something has happened in a run from the start. */
  function Times(initialValue: NvU32, es: seq<Event>, kind: (State, Event) -> bool): nat {
    Count(Step, Init(initialValue), es, kind)
  }

  lemma StepAccounts(s: State, e: Event)
    ensures var t := Step(s, e);
      && t.released == s.released + Once(Releases(s, e))
      && Asked(t) == Asked(s) + Once(Acquires(s, e))
      && |t.waiting| + Once(Wakes(s, e)) == |s.waiting| + Once(FallsAsleep(s, e))
      && |t.completing| + Once(Completes(s, e)) == |s.completing| + Once(FindsSleepers(s, e))
      && t.done + Once(Wakes(s, e)) == s.done + Once(Completes(s, e))
      && (t.onlyHolders <==> s.onlyHolders && !ForeignReleases(s, e))
  {
  }

  function Once(b: bool): nat {
    if b then 1 else 0
  }

  lemma {:induction false} RunAccounts(s: State, es: seq<Event>)
    ensures var t := Exec(Step, s, es);
      && t.released == s.released + Count(Step, s, es, Releases)
      && Asked(t) == Asked(s) + Count(Step, s, es, Acquires)
      && |t.waiting| + Count(Step, s, es, Wakes) == |s.waiting| + Count(Step, s, es, FallsAsleep)
      && |t.completing| + Count(Step, s, es, Completes) == |s.completing| + Count(Step, s, es, FindsSleepers)
      && t.done + Count(Step, s, es, Wakes) == s.done + Count(Step, s, es, Completes)
      && (t.onlyHolders <==> s.onlyHolders && Count(Step, s, es, ForeignReleases) == 0)
    decreases |es|
  {
    if es != [] {
      StepAccounts(s, es[0]);
      RunAccounts(Step(s, es[0]), es[1..]);
    }
  }

  /** What a run has recorded is what happened in it: releases, acquires, threads put to sleep and woken,
      wake-ups owed by the releases that found sleepers and paid by `complete`. */
  lemma EventsAreCounted(initialValue: NvU32, es: seq<Event>)
    ensures var s := Exec(Step, Init(initialValue), es);
      && s.released == Times(initialValue, es, Releases)
      && s.passed + |s.waiting| == Times(initialValue, es, Acquires)
      && |s.waiting| == Times(initialValue, es, FallsAsleep) - Times(initialValue, es, Wakes)
      && |s.completing| == Times(initialValue, es, FindsSleepers) - Times(initialValue, es, Completes)
      && s.done == Times(initialValue, es, Completes) - Times(initialValue, es, Wakes)
      && (s.onlyHolders <==> Times(initialValue, es, ForeignReleases) == 0)
  {
    RunAccounts(Init(initialValue), es);
  }

  function Min(a: nat, b: nat): nat {
    if a < b then a else b
  }

  /** The semaphore from outside, in every interleaving: the acquires that have returned, with the wake-ups
      on their way, are as many as were called, up to the permits and releases there have been. None is
      let in too many, and none that could go is left asleep. */
  lemma AdmitsAsManyAsItCan(initialValue: NvU32, es: seq<Event>)
    requires initialValue < NVS32_LIMIT && FewThreads(es)
    requires Times(initialValue, es, ForeignReleases) == 0
             || initialValue + Times(initialValue, es, Releases) < NVS32_LIMIT
    ensures var s := Exec(Step, Init(initialValue), es);
      s.passed + |s.completing| + s.done
      == Min(Times(initialValue, es, Acquires), initialValue + Times(initialValue, es, Releases))
  {
    EventsAreCounted(initialValue, es);
    SemaphoreLaw(initialValue, es);
  }

  /** In any run at all, the count says what is left of the permits if and only if that fits 32 bits. */
  lemma CountIsTrueIff(initialValue: NvU32, es: seq<Event>)
    ensures var s := Exec(Step, Init(initialValue), es);
            s.count == Left(initialValue, s) <==> -NVS32_LIMIT <= Left(initialValue, s) < NVS32_LIMIT
  {
    CountIsWrapped(initialValue, es);
  }

  /** The bound is needed: at the largest initial value one release by a thread that holds nothing makes
      the count negative, and the next acquire sleeps on a semaphore nobody has entered. */
  lemma ForeignReleaseOverflows()
    ensures var s := Exec(Step, Init(NVS32_LIMIT - 1), [Release(0), Acquire(1)]);
            !s.onlyHolders && s.passed == 0 && s.waiting == {1} && s.done == 0 && s.completing == {}
  {
    var s0 := Init(NVS32_LIMIT - 1);
    var s1 := Step(s0, Release(0));
    assert s1.count == -NVS32_LIMIT;
    assert [Release(0)] + [Acquire(1)] == [Release(0), Acquire(1)] && [] + [Release(0)] == [Release(0)];
    ExecSnoc(Step, s0, [], Release(0));
    ExecSnoc(Step, s0, [Release(0)], Acquire(1));
  }

  // ------------------------------------------------------------------ initial values from 2^31 on

  /** How many acquires such a semaphore lets sleep before its count has wrapped to the largest one. */
  function Patience(initialValue: NvU32): nat
    requires initialValue >= NVS32_LIMIT
  {
    initialValue - NVS32_LIMIT + 1
  }

  /** While only holders release: nobody is in and the count goes down towards the lower end, or more have
      asked than it has patience for, and somebody has passed. */
  ghost predicate TopBitInv(initialValue: NvU32, s: State)
    requires initialValue >= NVS32_LIMIT
  {
    s.onlyHolders ==>
      if Asked(s) <= Patience(initialValue)
      then
        && s.passed == 0 && s.released == 0 && s.held == multiset{} && s.done == 0 && s.completing == {}
        && s.count == (if Asked(s) < Patience(initialValue) then initialValue - NVU32_LIMIT - Asked(s)
                       else NVS32_LIMIT - 1)
      else s.passed > 0
  }

  lemma TopBitStep(initialValue: NvU32, s: State, e: Event)
    requires initialValue >= NVS32_LIMIT && TopBitInv(initialValue, s)
    ensures TopBitInv(initialValue, Step(s, e))
  {
  }

  /** An initial value with the top bit set turns negative when stored. While only holders release, nobody
      is let through as long as at most `initialValue - 2^31 + 1` acquires have been begun, and somebody
      is as soon as there is one more. */
  lemma TopBitAdmitsIff(initialValue: NvU32, es: seq<Event>)
    requires initialValue >= NVS32_LIMIT
    ensures var s := Exec(Step, Init(initialValue), es);
      s.onlyHolders ==> (s.passed == 0 <==> Asked(s) <= initialValue - NVS32_LIMIT + 1)
                        && (s.passed == 0 ==> s.held == multiset{} && s.done == 0)
  {
    forall s, e | TopBitInv(initialValue, s) ensures TopBitInv(initialValue, Step(s, e)) {
      TopBitStep(initialValue, s, e);
    }
    InvariantHolds(Step, s => TopBitInv(initialValue, s), Init(initialValue), es);
  }

  /** At 2^31 the first acquire sleeps and the second passes. */
  lemma TopBitSecondPasses()
    ensures var s := Exec(Step, Init(NVS32_LIMIT), [Acquire(0), Acquire(1)]);
            s.onlyHolders && s.waiting == {0} && s.passed == 1 && s.held == multiset{1}
  {
    var s0 := Init(NVS32_LIMIT);
    var s1 := Step(s0, Acquire(0));
    assert s1.count == NVS32_LIMIT - 1 && s1.waiting == {0};
    assert [Acquire(0)] + [Acquire(1)] == [Acquire(0), Acquire(1)] && [] + [Acquire(0)] == [Acquire(0)];
    ExecSnoc(Step, s0, [], Acquire(0));
    ExecSnoc(Step, s0, [Acquire(0)], Acquire(1));
  }

  /** The first acquire of a fresh semaphore goes through exactly for these initial values. */
  lemma FirstAcquirePasses(initialValue: NvU32, t: Thread)
    ensures Step(Init(initialValue), Acquire(t)).passed == 1 <==> 0 < initialValue < 0x8000_0000
  {
  }

  // ------------------------------------------------------------------ the object

  class OsSemaphore {
    var count: NvS32
    var limit: NvS32
    var done: nat
    ghost var waiting: set<Thread>
    ghost var completing: set<Thread>
    ghost var passed: nat
    ghost var released: nat
    ghost var held: multiset<Thread>
    ghost var onlyHolders: bool

    ghost function View(): State
      reads this
    {
      State(count, done, waiting, completing, passed, released, held, onlyHolders)
    }

    constructor (initialValue: NvU32, limit: NvU32)
      ensures View() == Init(initialValue)
      ensures Congruent(count, initialValue) && Congruent(this.limit, limit)
    {
      done, count, this.limit := 0, ToSigned(initialValue), ToSigned(limit);
      waiting, completing, passed, released, held, onlyHolders := {}, {}, 0, 0, multiset{}, true;
    }

    /** The locked part of `os_acquire_semaphore`; `sleeps` when the caller must then wait. */
    method AcquireLocked(ghost t: Thread) returns (sleeps: bool)
      requires t !in waiting && t !in completing
      modifies this
      ensures View() == Step(old(View()), Acquire(t))
      ensures sleeps <==> old(count) <= 0
      ensures Congruent(count, old(count) - 1)
      ensures waiting == (if sleeps then old(waiting) + {t} else old(waiting))
      ensures passed == (if sleeps then old(passed) else old(passed) + 1)
      ensures held == (if sleeps then old(held) else old(held) + multiset{t})
      ensures done == old(done) && completing == old(completing) && released == old(released) && limit == old(limit)
    {
      if count <= 0 {
        count := Down(count);
        waiting := waiting + {t};
        sleeps := true;
      } else {
        count := Down(count);
        passed, held := passed + 1, held + multiset{t};
        sleeps := false;
      }
    }

    /** `wait_for_completion` returns in a sleeping thread. */
    method FinishWait(ghost t: Thread)
      requires t in waiting && done > 0
      modifies this
      ensures View() == Step(old(View()), Wake(t))
      ensures done == old(done) - 1 && waiting == old(waiting) - {t} && passed == old(passed) + 1
      ensures held == old(held) + multiset{t}
      ensures count == old(count) && completing == old(completing) && released == old(released) && limit == old(limit)
    {
      done := done - 1;
      waiting, passed, held := waiting - {t}, passed + 1, held + multiset{t};
    }

    /** The locked part of `os_release_semaphore`. */
    method ReleaseLocked(ghost t: Thread) returns (doWakeup: bool)
      requires t !in waiting && t !in completing
      modifies this
      ensures View() == Step(old(View()), Release(t))
      ensures doWakeup <==> old(count) < 0
      ensures Congruent(count, old(count) + 1)
      ensures completing == (if doWakeup then old(completing) + {t} else old(completing))
      ensures released == old(released) + 1 && held == old(held) - multiset{t}
      ensures done == old(done) && waiting == old(waiting) && passed == old(passed) && limit == old(limit)
    {
      ghost var next := Step(View(), Release(t));
      assert next.count == Up(count) && next.done == done && next.waiting == waiting && next.passed == passed;
      doWakeup := false;
      if count < 0 {
        doWakeup := true;
      }
      count := Up(count);
      completing, released, held, onlyHolders := next.completing, next.released, next.held, next.onlyHolders;
    }

    /** `complete`, outside the lock. */
    method CompleteOne(ghost t: Thread)
      requires t in completing
      modifies this
      ensures View() == Step(old(View()), Complete(t))
      ensures done == old(done) + 1 && completing == old(completing) - {t}
      ensures count == old(count) && waiting == old(waiting) && passed == old(passed) && limit == old(limit)
    {
      done := done + 1;
      completing := completing - {t};
    }
  }
}
