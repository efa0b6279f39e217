/** What a run of the machine in `PageLifetime` has recorded, told from its actions: who holds and maps an
    allocation is who has begun to and not yet ended, and the usage count is the references taken less
    those given back. */
module PageHistory {
  import opened Options
  import opened Runs
  import opened PageLifetime

  /** How often something has happened in a run from the start. */
  function Times(xs: seq<Action>, kind: (State, Action) -> bool): nat {
    Count(Step, INIT, xs, kind)
  }

  predicate LiveIn(s: State, a: AllocId, v: (VmaId, FileId)) {
    a in s.allocs && v in s.allocs[a].live
  }

  predicate HeldIn(s: State, a: AllocId) {
    a in s.allocs && s.allocs[a].rmHolds
  }

  function UsageIn(s: State, a: AllocId): int {
    if a in s.allocs then s.allocs[a].usage else 0
  }

  // ------------------------------------------------------------------ mappings

  /** An mmap through the file of `v` ends well, or a VMA of that file is copied, and `v` is new. */
  predicate Begins(s: State, x: Action, a: AllocId, v: (VmaId, FileId)) {
    && a in s.allocs && v !in s.allocs[a].live
    && match x
       case MmapDone(id) => s.mapping == Some((a, v.1)) && id == v.0
       case VmaOpen(b, w, copy) => b == a && w in s.allocs[a].live && v == (copy, w.1)
       case _ => false
  }

  predicate Ends(s: State, x: Action, a: AllocId, v: (VmaId, FileId)) {
    LiveIn(s, a, v) && x == VmaClose(a, v)
  }

  function BeginsOf(a: AllocId, v: (VmaId, FileId)): (State, Action) -> bool {
    (s, x) => Begins(s, x, a, v)
  }

  function EndsOf(a: AllocId, v: (VmaId, FileId)): (State, Action) -> bool {
    (s, x) => Ends(s, x, a, v)
  }

  lemma MappingStep(s: State, x: Action, a: AllocId, v: (VmaId, FileId))
    ensures B(LiveIn(Step(s, x), a, v)) == B(LiveIn(s, a, v)) + B(Begins(s, x, a, v)) - B(Ends(s, x, a, v))
  {
  }

  lemma {:induction false} MappingsFrom(s: State, xs: seq<Action>, a: AllocId, v: (VmaId, FileId))
    ensures B(LiveIn(Exec(Step, s, xs), a, v))
         == B(LiveIn(s, a, v)) + Count(Step, s, xs, BeginsOf(a, v)) - Count(Step, s, xs, EndsOf(a, v))
    decreases |xs|
  {
    if xs != [] {
      MappingStep(s, xs[0], a, v);
      MappingsFrom(Step(s, xs[0]), xs[1..], a, v);
    }
  }

  /** A VMA maps an allocation exactly if its mmap or its copy has come since its last close. */
  lemma LiveIfBegunAndNotClosed(xs: seq<Action>, a: AllocId, v: (VmaId, FileId))
    ensures B(LiveIn(Exec(Step, INIT, xs), a, v)) == Times(xs, BeginsOf(a, v)) - Times(xs, EndsOf(a, v))
  {
    MappingsFrom(INIT, xs, a, v);
  }

  // ------------------------------------------------------------------ the RM's hold

  predicate Allocates(s: State, x: Action, a: AllocId) {
    x == AllocPages(a) && a !in s.allocs
  }

  predicate LetsGo(s: State, x: Action, a: AllocId) {
    x == RmFree(a) && HeldIn(s, a) && s.mapping == None
  }

  function AllocatesOf(a: AllocId): (State, Action) -> bool {
    (s, x) => Allocates(s, x, a)
  }

  function LetsGoOf(a: AllocId): (State, Action) -> bool {
    (s, x) => LetsGo(s, x, a)
  }

  lemma HoldStep(s: State, x: Action, a: AllocId)
    ensures B(HeldIn(Step(s, x), a)) == B(HeldIn(s, a)) + B(Allocates(s, x, a)) - B(LetsGo(s, x, a))
  {
  }

  lemma {:induction false} HoldsFrom(s: State, xs: seq<Action>, a: AllocId)
    ensures B(HeldIn(Exec(Step, s, xs), a))
         == B(HeldIn(s, a)) + Count(Step, s, xs, AllocatesOf(a)) - Count(Step, s, xs, LetsGoOf(a))
    decreases |xs|
  {
    if xs != [] {
      HoldStep(s, xs[0], a);
      HoldsFrom(Step(s, xs[0]), xs[1..], a);
    }
  }

  /** The RM holds an allocation from its making to its free. */
  lemma HeldIfAllocatedAndNotFreed(xs: seq<Action>, a: AllocId)
    ensures B(HeldIn(Exec(Step, INIT, xs), a)) == Times(xs, AllocatesOf(a)) - Times(xs, LetsGoOf(a))
  {
    HoldsFrom(INIT, xs, a);
  }

  // ------------------------------------------------------------------ the count

  /** A reference is taken: by making the allocation, by an mmap, by a copy of a VMA, or back by a push. */
  predicate Takes(s: State, x: Action, a: AllocId) {
    match x
    case AllocPages(b) => b == a && a !in s.allocs
    case MmapBegin(b, f) => b == a && HeldIn(s, a) && OpenIn(s, f) && s.mapping == None
    case VmaOpen(b, v, copy) => b == a && LiveIn(s, a, v) && !LiveIn(s, a, (copy, v.1))
    case Restore(b) => b == a && a in s.allocs && s.allocs[a].push.Zeroed?
    case _ => false
  }

  /** One is given back: by an mmap that fails, a close of a VMA, the RM, or the close of a file. */
  predicate GivesBack(s: State, x: Action, a: AllocId) {
    && a in s.allocs
    && match x
       case MmapFail => s.mapping.Some? && s.mapping.value.0 == a
       case VmaClose(b, v) => b == a && LiveIn(s, a, v)
       case RmFree(b) => LetsGo(s, RmFree(b), a)
       case Drain(f) => f in s.closing && f in s.lists && s.lists[f] != [] && s.lists[f][0] == a
       case _ => false
  }

  function TakesOf(a: AllocId): (State, Action) -> bool {
    (s, x) => Takes(s, x, a)
  }

  function GivesBackOf(a: AllocId): (State, Action) -> bool {
    (s, x) => GivesBack(s, x, a)
  }

  lemma UsageStep(s: State, x: Action, a: AllocId)
    ensures UsageIn(Step(s, x), a) == UsageIn(s, a) + B(Takes(s, x, a)) - B(GivesBack(s, x, a))
  {
  }

  lemma {:induction false} UsageFrom(s: State, xs: seq<Action>, a: AllocId)
    ensures UsageIn(Exec(Step, s, xs), a)
         == UsageIn(s, a) + Count(Step, s, xs, TakesOf(a)) - Count(Step, s, xs, GivesBackOf(a))
    decreases |xs|
  {
    if xs != [] {
      UsageStep(s, xs[0], a);
      UsageFrom(Step(s, xs[0]), xs[1..], a);
    }
  }

  /** In every run the count is the references taken less those given back, and while it is positive
      nothing is freed. */
  lemma CountIsTakenLessGiven(xs: seq<Action>, a: AllocId)
    ensures var s := Exec(Step, INIT, xs);
      && UsageIn(s, a) == Times(xs, TakesOf(a)) - Times(xs, GivesBackOf(a))
      && (a in s.allocs && s.allocs[a].freed ==> Times(xs, TakesOf(a)) == Times(xs, GivesBackOf(a)))
  {
    UsageFrom(INIT, xs, a);
    RunKeepsInv(xs);
    var s := Exec(Step, INIT, xs);
    assert a in s.allocs ==> CountInv(s, a);
  }

  // ------------------------------------------------------------------ files

  predicate Opened(xs: seq<Action>, f: FileId) {
    exists i :: 0 <= i < |xs| && xs[i] == OpenFile(f)
  }

  /** A file has been open at some time exactly if it was opened. */
  lemma {:induction false} OpenedIfOpened(xs: seq<Action>, f: FileId)
    ensures f in Exec(Step, INIT, xs).everOpened <==> Opened(xs, f)
    decreases |xs|
  {
    if xs != [] {
      var n := |xs| - 1;
      assert xs == xs[..n] + [xs[n]];
      ExecSnoc(Step, INIT, xs[..n], xs[n]);
      OpenedIfOpened(xs[..n], f);
      assert forall i :: 0 <= i < n ==> xs[i] == xs[..n][i];
    }
  }
}
