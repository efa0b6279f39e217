/** The life of a page allocation shared by nvidia-geforce-340.107/nv.c and nv-mmap.c: a usage count
    raised by the resource manager (RM) and by every user mapping, and a per-file list on which an
    allocation waits if its last mapping goes away after the RM has let go of it.

    Each atomic operation on a count is an event of its own, and so is each access to the head of a free
    list, which the source makes without a lock: reading it into the new entry and writing it are two
    events, with anything in between. A run is any interleaving of allocations, mmaps that succeed or
    fail, VMA copies and closes, pushes, RM frees and closes of control files. The surroundings appear as
    guards: the RM hands out for mmap only allocations it still holds, and frees none while the API lock
    is held; a file is released only when no VMA of it is left and no callback of one still runs. */
module PageLifetime {
  import opened Options
  import opened Runs

  type AllocId = nat
  type VmaId = nat

  /** One open of the control device; a later open is another file. */
  type FileId = nat

  /** How far `nvidia_vma_release` has come with an allocation whose count it found at zero: nothing yet,
      the count raised again, the list head read into the entry, the entry made the head. `rest` is what
      the entry's `next` pointer leads to; the pointers behind it never change again. */
  datatype Push =
    | NoPush
    | Zeroed(file: FileId)
    | Counted(file: FileId)
    | Linked(file: FileId, rest: seq<AllocId>)
    | Pushed(file: FileId, rest: seq<AllocId>)

  /** `live` are the mapped VMAs with their files. */
  datatype Alloc = Alloc(usage: int, rmHolds: bool, live: set<(VmaId, FileId)>, push: Push, freed: bool)

  /** `mapping` is the mmap holding the API lock; `lists` holds, for each open file, the entries reached
      from the head of its free list. `everOpened` are all files ever opened. `fault` is set when a freed
      allocation is touched or freed again. */
  datatype State = State(
    allocs: map<AllocId, Alloc>,
    mapping: Option<(AllocId, FileId)>,
    lists: map<FileId, seq<AllocId>>,
    everOpened: set<FileId>,
    closing: set<FileId>,
    fault: bool)

  datatype Action =
    | OpenFile(f: FileId)
    | AllocPages(a: AllocId)
    | MmapBegin(a: AllocId, f: FileId)
    | MmapFail
    | MmapDone(id: VmaId)
    | VmaOpen(a: AllocId, v: (VmaId, FileId), copy: VmaId)
    | VmaClose(a: AllocId, v: (VmaId, FileId))
    | Restore(a: AllocId)                    // the count goes back up to one
    | ReadHead(a: AllocId)                   // at->next = nvfp->free_list
    | WriteHead(a: AllocId)                  // nvfp->free_list = at
    | RmFree(a: AllocId)
    | BeginClose(f: FileId)
    | Drain(f: FileId)
    | EndClose(f: FileId)

  const INIT := State(map[], None, map[], {}, {}, false)

  predicate OpenIn(s: State, f: FileId) {
    f in s.lists && f !in s.closing
  }

  /** A push of `at` onto the list of `f` has begun and not ended. */
  predicate InFlight(at: Alloc, f: FileId) {
    (at.push.Zeroed? || at.push.Counted? || at.push.Linked?) && at.push.file == f
  }

  /** Some VMA, some mmap under way, or some callback of a VMA still refers to file `f`. */
  predicate InUse(s: State, f: FileId) {
    || (s.mapping.Some? && s.mapping.value.1 == f)
    || (exists a :: a in s.allocs && (InFlight(s.allocs[a], f) || exists v :: v in s.allocs[a].live && v.1 == f))
  }

  predicate Enabled(s: State, x: Action) {
    match x
    case OpenFile(f) => f !in s.everOpened
    case AllocPages(a) => a !in s.allocs
    case MmapBegin(a, f) => a in s.allocs && s.allocs[a].rmHolds && OpenIn(s, f) && s.mapping == None
    case MmapFail => s.mapping.Some? && s.mapping.value.0 in s.allocs
    case MmapDone(v) =>
      && s.mapping.Some? && s.mapping.value.0 in s.allocs
      && (v, s.mapping.value.1) !in s.allocs[s.mapping.value.0].live
    case VmaOpen(a, v, v') => a in s.allocs && v in s.allocs[a].live && (v', v.1) !in s.allocs[a].live
    case VmaClose(a, v) => a in s.allocs && v in s.allocs[a].live
    case Restore(a) => a in s.allocs && s.allocs[a].push.Zeroed?
    case ReadHead(a) => a in s.allocs && s.allocs[a].push.Counted? && s.allocs[a].push.file in s.lists
    case WriteHead(a) => a in s.allocs && s.allocs[a].push.Linked? && s.allocs[a].push.file in s.lists
    case RmFree(a) => a in s.allocs && s.allocs[a].rmHolds && s.mapping == None
    case BeginClose(f) => OpenIn(s, f) && !InUse(s, f)
    case Drain(f) => f in s.closing && f in s.lists && s.lists[f] != [] && s.lists[f][0] in s.allocs
    case EndClose(f) => f in s.closing && f in s.lists && s.lists[f] == []
  }

  function Put(s: State, a: AllocId, at: Alloc): State {
    s.(allocs := s.allocs[a := at], fault := s.fault || (a in s.allocs && s.allocs[a].freed))
  }

  /** `nv_free_pages`: the count drops, and at zero the pages and the record go. */
  function FreePages(at: Alloc): Alloc {
    at.(usage := at.usage - 1, freed := at.freed || at.usage == 1)
  }

  function Step(s: State, x: Action): State {
    if !Enabled(s, x) then s else
    match x
    case OpenFile(f) => s.(lists := s.lists[f := []], everOpened := s.everOpened + {f})
    case AllocPages(a) => Put(s, a, Alloc(1, true, {}, NoPush, false))
    case MmapBegin(a, f) =>
      Put(s, a, s.allocs[a].(usage := s.allocs[a].usage + 1)).(mapping := Some((a, f)))
    case MmapFail =>
      var a := s.mapping.value.0;
      Put(s, a, s.allocs[a].(usage := s.allocs[a].usage - 1)).(mapping := None)
    case MmapDone(v) =>
      var a := s.mapping.value.0;
      Put(s, a, s.allocs[a].(live := s.allocs[a].live + {(v, s.mapping.value.1)})).(mapping := None)
    case VmaOpen(a, v, v') =>
      Put(s, a, s.allocs[a].(usage := s.allocs[a].usage + 1, live := s.allocs[a].live + {(v', v.1)}))
    case VmaClose(a, v) =>
      var at := s.allocs[a];
      Put(s, a, at.(usage := at.usage - 1, live := at.live - {v},
                    push := if at.usage == 1 then Zeroed(v.1) else at.push))
    case Restore(a) =>
      var at := s.allocs[a];
      Put(s, a, at.(usage := at.usage + 1, push := Counted(at.push.file)))
    case ReadHead(a) =>
      var f := s.allocs[a].push.file;
      Put(s, a, s.allocs[a].(push := Linked(f, s.lists[f])))
    case WriteHead(a) =>
      var p := s.allocs[a].push;
      Put(s, a, s.allocs[a].(push := Pushed(p.file, p.rest))).(lists := s.lists[p.file := [a] + p.rest])
    case RmFree(a) => Put(s, a, FreePages(s.allocs[a].(rmHolds := false)))
    case BeginClose(f) => s.(closing := s.closing + {f})
    case Drain(f) =>
      var a := s.lists[f][0];
      Put(s, a, FreePages(s.allocs[a])).(lists := s.lists[f := s.lists[f][1..]])
    case EndClose(f) => s.(lists := s.lists - {f}, closing := s.closing - {f})
  }

  // ------------------------------------------------------------------ the invariant

  function B(b: bool): int {
    if b then 1 else 0
  }

  predicate Mapping(s: State, a: AllocId) {
    s.mapping.Some? && s.mapping.value.0 == a
  }

  /** The reference that a push took back stands, from the raised count to the free at the close. */
  predicate Deferred(at: Alloc) {
    (at.push.Counted? || at.push.Linked? || at.push.Pushed?) && !at.freed
  }

  /** `l` is a chain of entries pushed onto the list of `f`, each leading to what follows it. */
  ghost predicate Chain(s: State, f: FileId, l: seq<AllocId>) {
    forall i {:trigger l[i]} :: 0 <= i < |l| ==>
      l[i] in s.allocs && s.allocs[l[i]].push == Pushed(f, l[i + 1..])
  }

  /** The count is exactly the RM's hold, the live VMAs, an mmap under way and a deferred reference; and
      the record is freed exactly when nothing of that is left and no push has found zero. */
  ghost predicate CountInv(s: State, a: AllocId)
    requires a in s.allocs
  {
    var at := s.allocs[a];
    && at.usage == B(at.rmHolds) + |at.live| + B(Mapping(s, a)) + B(Deferred(at))
    && (at.freed <==> at.usage == 0 && !at.push.Zeroed?)
    && (at.push != NoPush ==> !at.rmHolds && at.live == {})
    && (Mapping(s, a) ==> at.rmHolds)
    && (forall v :: v in at.live ==> OpenIn(s, v.1))
  }

  /** A push belongs to a file that is open until the push ends, and to no reused one. */
  ghost predicate PushInv(s: State, a: AllocId)
    requires a in s.allocs
  {
    var at := s.allocs[a];
    && (at.push != NoPush ==> at.push.file in s.everOpened)
    && (forall f :: InFlight(at, f) ==> OpenIn(s, f))
    && (at.push.Linked? || at.push.Pushed? ==> Chain(s, at.push.file, at.push.rest))
    && (at.push.Pushed? && at.freed ==> !OpenIn(s, at.push.file))
    && (at.freed ==> at.push.NoPush? || at.push.Pushed?)
  }

  ghost predicate ListInv(s: State, f: FileId)
    requires f in s.lists
  {
    && Chain(s, f, s.lists[f])
    && (forall i :: 0 <= i < |s.lists[f]| ==> s.lists[f][i] in s.allocs && !s.allocs[s.lists[f][i]].freed)
  }

  ghost predicate Inv(s: State) {
    && !s.fault
    && s.closing <= s.lists.Keys <= s.everOpened
    && (s.mapping.Some? ==> s.mapping.value.0 in s.allocs && OpenIn(s, s.mapping.value.1))
    && (forall a {:trigger CountInv(s, a)} :: a in s.allocs ==> CountInv(s, a))
    && (forall a {:trigger PushInv(s, a)} :: a in s.allocs ==> PushInv(s, a))
    && (forall f {:trigger ListInv(s, f)} :: f in s.lists ==> ListInv(s, f))
  }

  /** The allocation whose record a step writes. */
  function Touched(s: State, x: Action): Option<AllocId>
    requires Enabled(s, x)
  {
    match x
    case AllocPages(a) => Some(a)
    case MmapBegin(a, _) => Some(a)
    case MmapFail => Some(s.mapping.value.0)
    case MmapDone(_) => Some(s.mapping.value.0)
    case VmaOpen(a, _, _) => Some(a)
    case VmaClose(a, _) => Some(a)
    case Restore(a) => Some(a)
    case ReadHead(a) => Some(a)
    case WriteHead(a) => Some(a)
    case RmFree(a) => Some(a)
    case Drain(f) => Some(s.lists[f][0])
    case _ => None
  }

  /** Entries of a chain are never pushed again, so the chain stands for good. */
  lemma ChainKept(s: State, x: Action, f: FileId, l: seq<AllocId>)
    requires Inv(s) && Chain(s, f, l)
    ensures Chain(Step(s, x), f, l)
  {
    if Enabled(s, x) {
      forall i | 0 <= i < |l|
        ensures l[i] in Step(s, x).allocs && Step(s, x).allocs[l[i]].push == Pushed(f, l[i + 1..])
      {
        assert CountInv(s, l[i]);
      }
    }
  }

  lemma OthersCountKept(s: State, x: Action, a: AllocId)
    requires Inv(s) && Enabled(s, x) && a in Step(s, x).allocs && Touched(s, x) != Some(a)
    ensures CountInv(Step(s, x), a)
  {
    assert CountInv(s, a);
  }

  /** The RM's and the mmap's changes to a count. */
  lemma HoldsCountKept(s: State, x: Action, a: AllocId)
    requires Enabled(s, x) && Touched(s, x) == Some(a)
    requires x.AllocPages? || x.MmapBegin? || x.MmapFail? || x.MmapDone? || x.RmFree?
    requires s.mapping.Some? ==> s.mapping.value.0 in s.allocs && OpenIn(s, s.mapping.value.1)
    requires a in s.allocs ==> CountInv(s, a)
    ensures a in Step(s, x).allocs && CountInv(Step(s, x), a)
  {
  }

  /** The VMAs' changes, those of a push, and the drain's. */
  lemma MapsCountKept(s: State, x: Action, a: AllocId)
    requires Enabled(s, x) && Touched(s, x) == Some(a) && (x.VmaOpen? || x.VmaClose?)
    requires a in s.allocs && CountInv(s, a)
    ensures a in Step(s, x).allocs && CountInv(Step(s, x), a)
  {
  }

  lemma PushCountKept(s: State, x: Action, a: AllocId)
    requires Enabled(s, x) && Touched(s, x) == Some(a)
    requires x.Restore? || x.ReadHead? || x.WriteHead? || (x.Drain? && Deferred(s.allocs[a]))
    requires a in s.allocs && CountInv(s, a)
    ensures a in Step(s, x).allocs && CountInv(Step(s, x), a)
  {
  }

  lemma TouchedCountKept(s: State, x: Action, a: AllocId)
    requires Inv(s) && Enabled(s, x) && Touched(s, x) == Some(a)
    ensures a in Step(s, x).allocs && CountInv(Step(s, x), a)
  {
    assert a in s.allocs ==> CountInv(s, a);
    match x {
      case VmaOpen(_, _, _) => MapsCountKept(s, x, a);
      case VmaClose(_, _) => MapsCountKept(s, x, a);
      case Restore(_) => PushCountKept(s, x, a);
      case ReadHead(_) => PushCountKept(s, x, a);
      case WriteHead(_) => PushCountKept(s, x, a);
      case Drain(f) =>
        assert ListInv(s, f);
        PushCountKept(s, x, a);
      case _ => HoldsCountKept(s, x, a);
    }
  }

  lemma CountKept(s: State, x: Action, a: AllocId)
    requires Inv(s) && a in Step(s, x).allocs
    ensures CountInv(Step(s, x), a)
  {
    if !Enabled(s, x) {
      assert CountInv(s, a);
    } else if Touched(s, x) == Some(a) {
      TouchedCountKept(s, x, a);
    } else {
      OthersCountKept(s, x, a);
    }
  }

  lemma PushKept(s: State, x: Action, a: AllocId)
    requires Inv(s) && a in Step(s, x).allocs
    ensures PushInv(Step(s, x), a)
  {
    if Enabled(s, x) {
      if a in s.allocs {
        assert PushInv(s, a) && CountInv(s, a);
        if s.allocs[a].push.Linked? || s.allocs[a].push.Pushed? {
          ChainKept(s, x, s.allocs[a].push.file, s.allocs[a].push.rest);
        }
      }
      if x.ReadHead? && x.a == a {
        var f := s.allocs[a].push.file;
        assert ListInv(s, f);
        ChainKept(s, x, f, s.lists[f]);
      }
      if x.Drain? { assert ListInv(s, x.f); }
      forall f | InFlight(Step(s, x).allocs[a], f)
        ensures OpenIn(Step(s, x), f)
      {
        assert (x.VmaClose? && x.a == a && f == x.v.1) || InFlight(s.allocs[a], f);
        assert x.BeginClose? && x.f == f ==> InUse(s, f);
      }
    } else {
      assert PushInv(s, a);
    }
  }

  lemma ListKept(s: State, x: Action, f: FileId)
    requires Inv(s) && f in Step(s, x).lists
    ensures ListInv(Step(s, x), f)
  {
    assert f in s.lists ==> ListInv(s, f);
    if Enabled(s, x) {
      if f in s.lists {
        ChainKept(s, x, f, s.lists[f]);
      }
      if x.WriteHead? { WriteKeepsList(s, x.a); }
      if x.Drain? {
        assert ListInv(s, x.f);
        DrainKeepsList(s, x.f);
      }
      if x.RmFree? { assert CountInv(s, x.a); }
    }
  }

  lemma WriteKeepsList(s: State, a: AllocId)
    requires Inv(s) && Enabled(s, WriteHead(a))
    ensures ListInv(Step(s, WriteHead(a)), s.allocs[a].push.file)
  {
    var p := s.allocs[a].push;
    assert PushInv(s, a) && CountInv(s, a);
    ChainKept(s, WriteHead(a), p.file, p.rest);
    var l := [a] + p.rest;
    assert forall i :: 0 < i <= |l| ==> l[i..] == p.rest[i - 1..];
    assert forall i :: 0 < i < |l| ==> l[i] == p.rest[i - 1];
    forall i | 0 <= i < |p.rest|
      ensures p.rest[i] in s.allocs && !s.allocs[p.rest[i]].freed && p.rest[i] != a
    {
      assert PushInv(s, p.rest[i]);
    }
  }

  lemma DrainKeepsList(s: State, f: FileId)
    requires Inv(s) && Enabled(s, Drain(f))
    ensures ListInv(Step(s, Drain(f)), f)
  {
    var l := s.lists[f];
    assert ListInv(s, f);
    ChainKept(s, Drain(f), f, l);
    assert forall i :: 0 <= i < |l[1..]| ==> l[1..][i] == l[i + 1] && l[1..][i + 1..] == l[i + 2..];
    forall i | 0 < i < |l|
      ensures l[i] != l[0]
    {
      assert |l[i + 1..]| != |l[1..]|;
    }
  }

  /** No step touches a freed allocation. */
  lemma NoFaultStep(s: State, x: Action)
    requires Inv(s)
    ensures !Step(s, x).fault
  {
    if Enabled(s, x) && Touched(s, x).Some? && !x.AllocPages? {
      var a := Touched(s, x).value;
      assert CountInv(s, a) && PushInv(s, a);
      if x.Drain? { assert ListInv(s, x.f); }
    }
  }

  lemma StepKeepsInv(s: State, x: Action)
    requires Inv(s)
    ensures Inv(Step(s, x))
  {
    var s' := Step(s, x);
    NoFaultStep(s, x);
    forall a | a in s'.allocs ensures CountInv(s', a) { CountKept(s, x, a); }
    forall a | a in s'.allocs ensures PushInv(s', a) { PushKept(s, x, a); }
    forall f | f in s'.lists ensures ListInv(s', f) { ListKept(s, x, f); }
  }

  lemma RunKeepsInv(xs: seq<Action>)
    ensures Inv(Exec(Step, INIT, xs))
  {
    forall s, x | Inv(s) ensures Inv(Step(s, x)) { StepKeepsInv(s, x); }
    InvariantHolds(Step, Inv, INIT, xs);
  }

  // ------------------------------------------------------------------ what every run guarantees

  /** `a` is reached from the head of the free list of `f`. */
  ghost predicate OnList(s: State, a: AllocId, f: FileId) {
    f in s.lists && a in s.lists[f]
  }

  /** The count of `a`, and where `a` may be. */
  ghost predicate Accounted(s: State, a: AllocId)
    requires a in s.allocs
  {
    var at := s.allocs[a];
    && at.usage == B(at.rmHolds) + |at.live| + B(Mapping(s, a)) + B(Deferred(at))
    && (at.freed ==> !at.rmHolds && at.live == {} && !Mapping(s, a) && !(exists f: FileId :: OnList(s, a, f)))
    && (!at.freed && at.usage == 0 ==> at.push.Zeroed?)
    && (forall f: FileId, g: FileId :: OnList(s, a, f) && OnList(s, a, g) ==> f == g)
    && (forall f: FileId :: OnList(s, a, f) ==> !at.rmHolds && at.live == {} && Deferred(at))
  }

  lemma InvGivesAccounted(s: State, a: AllocId)
    requires Inv(s) && a in s.allocs
    ensures Accounted(s, a)
  {
    assert CountInv(s, a);
    forall f: FileId | OnList(s, a, f)
      ensures s.allocs[a].push.Pushed? && s.allocs[a].push.file == f && !s.allocs[a].freed
    {
      assert ListInv(s, f);
      var i :| 0 <= i < |s.lists[f]| && s.lists[f][i] == a;
    }
  }

  lemma ListHasNoRepeat(s: State, f: FileId, i: nat, j: nat)
    requires Inv(s) && f in s.lists && i < j < |s.lists[f]|
    ensures s.lists[f][i] != s.lists[f][j]
  {
    assert ListInv(s, f);
    assert |s.lists[f][i + 1..]| != |s.lists[f][j + 1..]|;
  }

  /** In every run, overlapping pushes included: the count is what it should be, an allocation is on at
      most one free list and there at most once, it is freed only when nothing holds or maps it, and
      nothing is touched after it was freed or freed twice. */
  lemma PageSafety(xs: seq<Action>)
    ensures var s := Exec(Step, INIT, xs);
      && !s.fault
      && (forall a :: a in s.allocs ==> Accounted(s, a))
      && (forall f, i, j :: f in s.lists && 0 <= i < j < |s.lists[f]| ==> s.lists[f][i] != s.lists[f][j])
  {
    RunKeepsInv(xs);
    var s := Exec(Step, INIT, xs);
    forall a | a in s.allocs ensures Accounted(s, a) { InvGivesAccounted(s, a); }
    forall f, i, j | f in s.lists && 0 <= i < j < |s.lists[f]| ensures s.lists[f][i] != s.lists[f][j] {
      ListHasNoRepeat(s, f, i, j);
    }
  }

  // ------------------------------------------------------------------ overlapping pushes

  /** Between reading the list head of its file and writing it. */
  predicate BetweenReadAndWrite(s: State, a: AllocId, f: FileId) {
    a in s.allocs && s.allocs[a].push.Linked? && s.allocs[a].push.file == f
  }

  /** This step reads a list head that another push has read and not yet written. */
  ghost predicate Overlaps(s: State, x: Action) {
    && x.ReadHead? && Enabled(s, x)
    && exists b :: b != x.a && BetweenReadAndWrite(s, b, s.allocs[x.a].push.file)
  }

  /** Some two pushes onto one file's list overlap somewhere in the run. */
  ghost predicate PushesOverlap(s: State, xs: seq<Action>)
    decreases |xs|
  {
    xs != [] && (Overlaps(s, xs[0]) || PushesOverlap(Step(s, xs[0]), xs[1..]))
  }

  /** With no overlap, the push under way has read the current list, and no entry has been dropped. */
  ghost predicate Calm(s: State) {
    && (forall a, b, f :: BetweenReadAndWrite(s, a, f) && BetweenReadAndWrite(s, b, f) ==> a == b)
    && (forall a, f :: BetweenReadAndWrite(s, a, f) ==> f in s.lists && s.allocs[a].push.rest == s.lists[f])
    && (forall a :: a in s.allocs && s.allocs[a].push.Pushed? ==>
          s.allocs[a].freed || OnList(s, a, s.allocs[a].push.file))
  }

  lemma CalmReadersKept(s: State, x: Action)
    requires Inv(s) && Calm(s) && !Overlaps(s, x) && Enabled(s, x)
    ensures var s' := Step(s, x);
      && (forall a, b, f :: BetweenReadAndWrite(s', a, f) && BetweenReadAndWrite(s', b, f) ==> a == b)
  {
    var s' := Step(s, x);
    assert forall a, f :: BetweenReadAndWrite(s', a, f) ==>
        BetweenReadAndWrite(s, a, f) || (x.ReadHead? && x.a == a && s.allocs[a].push.file == f);
  }

  lemma CalmRestKept(s: State, x: Action, a: AllocId, f: FileId)
    requires Inv(s) && Calm(s) && Enabled(s, x) && BetweenReadAndWrite(Step(s, x), a, f)
    ensures f in Step(s, x).lists && Step(s, x).allocs[a].push.rest == Step(s, x).lists[f]
  {
    if BetweenReadAndWrite(s, a, f) {
      assert PushInv(s, a) && InFlight(s.allocs[a], f);
      if x.WriteHead? && BetweenReadAndWrite(s, x.a, f) {
        assert false;
      }
    }
  }

  lemma CalmEntryKept(s: State, x: Action, a: AllocId)
    requires Inv(s) && Calm(s) && Enabled(s, x) && a in Step(s, x).allocs && Step(s, x).allocs[a].push.Pushed?
    ensures Step(s, x).allocs[a].freed || OnList(Step(s, x), a, Step(s, x).allocs[a].push.file)
  {
    if x.WriteHead? {
      assert BetweenReadAndWrite(s, x.a, s.allocs[x.a].push.file);
    }
    if x.Drain? {
      var l := s.lists[x.f];
      assert ListInv(s, x.f) && CountInv(s, l[0]);
      assert l == [l[0]] + l[1..];
    }
    if x.OpenFile? {
      assert PushInv(s, a);
    }
  }

  lemma CalmStep(s: State, x: Action)
    requires Inv(s) && Calm(s) && !Overlaps(s, x)
    ensures Calm(Step(s, x))
  {
    if Enabled(s, x) {
      var s' := Step(s, x);
      CalmReadersKept(s, x);
      forall a, f | BetweenReadAndWrite(s', a, f)
        ensures f in s'.lists && s'.allocs[a].push.rest == s'.lists[f]
      {
        CalmRestKept(s, x, a, f);
      }
      forall a | a in s'.allocs && s'.allocs[a].push.Pushed?
        ensures s'.allocs[a].freed || OnList(s', a, s'.allocs[a].push.file)
      {
        CalmEntryKept(s, x, a);
      }
    }
  }

  /** What `a`'s `next` pointer leads to, once it has been set. */
  predicate HasRest(s: State, a: AllocId, f: FileId) {
    a in s.allocs && (s.allocs[a].push.Linked? || s.allocs[a].push.Pushed?) && s.allocs[a].push.file == f
  }

  /** Two entries for one list, neither of which leads to the other: no list will ever hold both. */
  ghost predicate Apart(s: State, a: AllocId, b: AllocId, f: FileId) {
    && a != b && HasRest(s, a, f) && HasRest(s, b, f)
    && a !in s.allocs[b].push.rest && b !in s.allocs[a].push.rest
  }

  lemma OverlapSetsApart(s: State, x: Action)
    requires Inv(s) && Overlaps(s, x)
    ensures exists b: AllocId, f: FileId :: Apart(Step(s, x), x.a, b, f)
  {
    var f := s.allocs[x.a].push.file;
    var b :| b != x.a && BetweenReadAndWrite(s, b, f);
    assert PushInv(s, b) && ListInv(s, f);
    assert Apart(Step(s, x), x.a, b, f);
  }

  lemma ApartForGood(s: State, x: Action, a: AllocId, b: AllocId, f: FileId)
    requires Inv(s) && Apart(s, a, b, f)
    ensures Apart(Step(s, x), a, b, f)
  {
    assert CountInv(s, a) && CountInv(s, b);
  }

  /** Drained entries and those still on the list of `f` lead to one another. */
  ghost predicate Went(s: State, a: AllocId, f: FileId) {
    a in s.allocs && s.allocs[a].push.Pushed? && s.allocs[a].push.file == f
    && (s.allocs[a].freed || OnList(s, a, f))
  }

  ghost predicate Ordered(s: State) {
    forall a, b, f :: !(Apart(s, a, b, f) && Went(s, a, f) && Went(s, b, f))
  }

  /** Of two entries of one chain, one leads to the other. */
  lemma ChainIsOrdered(s: State, f: FileId, l: seq<AllocId>, a: AllocId, b: AllocId)
    requires Chain(s, f, l) && a in l && b in l
    ensures !Apart(s, a, b, f)
  {
    var i :| 0 <= i < |l| && l[i] == a;
    var j :| 0 <= j < |l| && l[j] == b;
    if i < j {
      assert l[j] == l[i + 1..][j - i - 1];
    } else if j < i {
      assert l[i] == l[j + 1..][i - j - 1];
    }
  }

  /** A step adds to what went only the entry it writes, and then nothing of that file is freed. */
  lemma OrderedStep(s: State, x: Action)
    requires Inv(s) && Ordered(s)
    ensures Ordered(Step(s, x))
  {
    var s' := Step(s, x);
    StepKeepsInv(s, x);
    forall a, b, f | Apart(s', a, b, f) && Went(s', a, f) && Went(s', b, f)
      ensures false
    {
      assert PushInv(s', a) && PushInv(s', b);
      if OnList(s', a, f) && OnList(s', b, f) {
        assert ListInv(s', f);
        ChainIsOrdered(s', f, s'.lists[f], a, b);
      } else {
        WentBefore(s, x, a, f);
        WentBefore(s, x, b, f);
        assert CountInv(s, a) && CountInv(s, b);
        assert Apart(s, a, b, f);
      }
    }
  }

  lemma WentBefore(s: State, x: Action, a: AllocId, f: FileId)
    requires Inv(s) && Went(Step(s, x), a, f) && !OpenIn(Step(s, x), f)
    ensures Went(s, a, f)
  {
    if Enabled(s, x) {
      assert x.AllocPages? ==> x.a != a;
      assert CountInv(s, a) && PushInv(s, a);
      if x.WriteHead? {
        assert PushInv(s, x.a) && InFlight(s.allocs[x.a], s.allocs[x.a].push.file);
      }
      if x.Drain? {
        assert s.lists[x.f] == [s.lists[x.f][0]] + s.lists[x.f][1..];
        assert ListInv(s, x.f);
      }
    }
  }

  /** Calm as long as no pushes have overlapped; two entries apart for good once they have. */
  lemma {:induction false} OverlapDecides(s: State, xs: seq<Action>)
    requires Inv(s) && Ordered(s)
    ensures var t := Exec(Step, s, xs);
      && Inv(t) && Ordered(t)
      && (Calm(s) && !PushesOverlap(s, xs) ==> Calm(t))
      && (PushesOverlap(s, xs) ==> exists a, b, f :: Apart(t, a, b, f))
    decreases |xs|
  {
    if xs != [] {
      var s' := Step(s, xs[0]);
      StepKeepsInv(s, xs[0]);
      OrderedStep(s, xs[0]);
      OverlapDecides(s', xs[1..]);
      if Overlaps(s, xs[0]) {
        OverlapSetsApart(s, xs[0]);
        var b, f :| Apart(s', xs[0].a, b, f);
        ApartInRun(s', xs[1..], xs[0].a, b, f);
      } else if Calm(s) {
        CalmStep(s, xs[0]);
      }
    }
  }

  lemma {:induction false} ApartInRun(s: State, xs: seq<Action>, a: AllocId, b: AllocId, f: FileId)
    requires Inv(s) && Apart(s, a, b, f)
    ensures Apart(Exec(Step, s, xs), a, b, f)
    decreases |xs|
  {
    if xs != [] {
      StepKeepsInv(s, xs[0]);
      ApartForGood(s, xs[0], a, b, f);
      ApartInRun(Step(s, xs[0]), xs[1..], a, b, f);
    }
  }

  /** Every allocation is freed unless the RM still holds it. */
  ghost predicate NothingLeaked(s: State) {
    forall a :: a in s.allocs ==> (s.allocs[a].freed <==> !s.allocs[a].rmHolds)
  }

  /** Two entries apart cannot both have been drained. */
  lemma ApartLeaks(s: State, a: AllocId, b: AllocId, f: FileId)
    requires Inv(s) && Ordered(s) && s.lists == map[] && Apart(s, a, b, f)
    ensures !NothingLeaked(s)
  {
    assert CountInv(s, a) && PushInv(s, a) && CountInv(s, b) && PushInv(s, b);
    assert !InFlight(s.allocs[a], f) && !InFlight(s.allocs[b], f);
    assert !(Went(s, a, f) && Went(s, b, f));
  }

  lemma CalmLeaksNothing(s: State)
    requires Inv(s) && Calm(s) && s.lists == map[]
    ensures NothingLeaked(s)
  {
    forall a | a in s.allocs
      ensures s.allocs[a].freed <==> !s.allocs[a].rmHolds
    {
      assert CountInv(s, a) && PushInv(s, a);
      assert forall v :: v in s.allocs[a].live ==> v.1 in s.lists;
      assert !s.allocs[a].push.NoPush? ==> s.allocs[a].push.Pushed? || InFlight(s.allocs[a], s.allocs[a].push.file);
    }
  }

  /** Once every file is closed, nothing has leaked if and only if no two pushes onto one file's list
      overlapped: each overlap costs an allocation, which nothing frees any more. */
  lemma NothingLeaksIffNoOverlap(xs: seq<Action>)
    requires Exec(Step, INIT, xs).lists == map[]
    ensures NothingLeaked(Exec(Step, INIT, xs)) <==> !PushesOverlap(INIT, xs)
  {
    var s := Exec(Step, INIT, xs);
    OverlapDecides(INIT, xs);
    if PushesOverlap(INIT, xs) {
      var a, b, f :| Apart(s, a, b, f);
      ApartLeaks(s, a, b, f);
    } else {
      CalmLeaksNothing(s);
    }
  }

  /** Without overlaps the deferred reference is that of a place on a free list or of a push under way. */
  lemma CountsPlacesIfNoOverlap(xs: seq<Action>, a: AllocId)
    requires !PushesOverlap(INIT, xs) && a in Exec(Step, INIT, xs).allocs
    ensures var s := Exec(Step, INIT, xs);
      var at := s.allocs[a];
      at.usage == B(at.rmHolds) + |at.live| + B(Mapping(s, a))
                  + B(exists f: FileId :: OnList(s, a, f)) + B(at.push.Counted? || at.push.Linked?)
  {
    OverlapDecides(INIT, xs);
    var s := Exec(Step, INIT, xs);
    InvGivesAccounted(s, a);
    assert CountInv(s, a) && PushInv(s, a);
    if s.allocs[a].push.Pushed? && !s.allocs[a].freed {
      assert OnList(s, a, s.allocs[a].push.file);
    }
    forall f: FileId | OnList(s, a, f)
      ensures s.allocs[a].push.Pushed?
    {
      assert ListInv(s, f);
      var i :| 0 <= i < |s.lists[f]| && s.lists[f][i] == a;
    }
  }

  // ------------------------------------------------------------------ a run that leaks

  function MapOne(): seq<Action> {
    [OpenFile(0), AllocPages(1), MmapBegin(1, 0), MmapDone(10)]
  }

  function MapTwo(): seq<Action> {
    [AllocPages(2), MmapBegin(2, 0), MmapDone(20), RmFree(1)]
  }

  function Unmap(): seq<Action> {
    [RmFree(2), VmaClose(1, (10, 0)), VmaClose(2, (20, 0)), Restore(1)]
  }

  function BothRead(): seq<Action> {
    [Restore(2), ReadHead(1), ReadHead(2), WriteHead(1)]
  }

  function CloseAll(): seq<Action> {
    [WriteHead(2), BeginClose(0), Drain(0), EndClose(0)]
  }

  /** Two processes share a file, and each maps one allocation through it. The RM frees both; then each
      process unmaps its own, both read the list head, and both write it. */
  function LeakingRun(): seq<Action> {
    MapOne() + (MapTwo() + (Unmap() + (BothRead() + CloseAll())))
  }

  function Two(one: Alloc, two: Alloc, list: seq<AllocId>): State {
    State(map[1 := one, 2 := two], None, map[0 := list], {0}, {}, false)
  }

  /** An allocation with one mapping, through VMA `v` of file 0. */
  function Mapped(rmHolds: bool, v: VmaId): Alloc {
    Alloc(if rmHolds then 2 else 1, rmHolds, {(v, 0)}, NoPush, false)
  }

  /** An allocation that only a push still refers to. */
  function Late(usage: int, push: Push): Alloc {
    Alloc(usage, false, {}, push, false)
  }

  lemma ExecFour(s: State, a: Action, b: Action, c: Action, d: Action)
    ensures Exec(Step, s, [a, b, c, d]) == Step(Step(Step(Step(s, a), b), c), d)
  {
    assert [a, b, c, d] == [a, b, c] + [d] && [a, b, c] == [a, b] + [c] && [a, b] == [a] + [b] && [a] == [] + [a];
    ExecSnoc(Step, s, [a, b, c], d);
    ExecSnoc(Step, s, [a, b], c);
    ExecSnoc(Step, s, [a], b);
    ExecSnoc(Step, s, [], a);
  }

  lemma SetOne(one: Alloc, two: Alloc, l: seq<AllocId>, x: Alloc)
    requires !one.freed
    ensures Put(Two(one, two, l), 1, x) == Two(x, two, l)
  {
    assert map[1 := one, 2 := two][1 := x] == map[1 := x, 2 := two];
  }

  lemma SetTwo(one: Alloc, two: Alloc, l: seq<AllocId>, x: Alloc)
    requires !two.freed
    ensures Put(Two(one, two, l), 2, x) == Two(one, x, l)
  {
    assert map[1 := one, 2 := two][2 := x] == map[1 := one, 2 := x];
  }

  lemma LeakMapsOne()
    ensures Exec(Step, INIT, MapOne()) == State(map[1 := Mapped(true, 10)], None, map[0 := []], {0}, {}, false)
  {
    ExecFour(INIT, OpenFile(0), AllocPages(1), MmapBegin(1, 0), MmapDone(10));
    var s := State(map[1 := Alloc(1, true, {}, NoPush, false)], None, map[0 := []], {0}, {}, false);
    var open := State(map[], None, map[0 := []], {0}, {}, false);
    assert Step(INIT, OpenFile(0)) == open by {
      assert INIT.lists[0 := []] == map[0 := []] && INIT.everOpened + {0} == {0};
    }
    assert Step(open, AllocPages(1)) == s by {
      assert open.allocs[1 := Alloc(1, true, {}, NoPush, false)] == s.allocs;
    }
    var mapping := s.(allocs := map[1 := Alloc(2, true, {}, NoPush, false)], mapping := Some((1, 0)));
    assert Step(s, MmapBegin(1, 0)) == mapping;
    assert {} + {(10, 0)} == {(10, 0)} && mapping.allocs[1 := Mapped(true, 10)] == map[1 := Mapped(true, 10)];
    assert Step(mapping, MmapDone(10)) == s.(allocs := map[1 := Mapped(true, 10)]);
  }

  lemma LeakMapsTwo()
    ensures Exec(Step, State(map[1 := Mapped(true, 10)], None, map[0 := []], {0}, {}, false), MapTwo())
         == Two(Mapped(false, 10), Mapped(true, 20), [])
  {
    var s := State(map[1 := Mapped(true, 10)], None, map[0 := []], {0}, {}, false);
    var one, begun := Mapped(true, 10), Alloc(2, true, {}, NoPush, false);
    ExecFour(s, AllocPages(2), MmapBegin(2, 0), MmapDone(20), RmFree(1));
    assert s.allocs[2 := Alloc(1, true, {}, NoPush, false)] == map[1 := one, 2 := Alloc(1, true, {}, NoPush, false)];
    assert Step(s, AllocPages(2)) == Two(one, Alloc(1, true, {}, NoPush, false), []);
    SetTwo(one, Alloc(1, true, {}, NoPush, false), [], begun);
    assert Step(Two(one, Alloc(1, true, {}, NoPush, false), []), MmapBegin(2, 0))
        == Two(one, begun, []).(mapping := Some((2, 0)));
    SetTwo(one, begun, [], Mapped(true, 20));
    assert {} + {(20, 0)} == {(20, 0)};
    assert Step(Two(one, begun, []).(mapping := Some((2, 0))), MmapDone(20)) == Two(one, Mapped(true, 20), []);
    SetOne(one, Mapped(true, 20), [], Mapped(false, 10));
  }

  lemma LeakUnmaps()
    ensures Exec(Step, Two(Mapped(false, 10), Mapped(true, 20), []), Unmap())
         == Two(Late(1, Counted(0)), Late(0, Zeroed(0)), [])
  {
    var one, two, zero := Mapped(false, 10), Mapped(false, 20), Late(0, Zeroed(0));
    ExecFour(Two(one, Mapped(true, 20), []), RmFree(2), VmaClose(1, (10, 0)), VmaClose(2, (20, 0)), Restore(1));
    SetTwo(one, Mapped(true, 20), [], two);
    assert one.live - {(10, 0)} == {} && two.live - {(20, 0)} == {};
    SetOne(one, two, [], zero);
    SetTwo(zero, two, [], zero);
    SetOne(zero, zero, [], Late(1, Counted(0)));
  }

  lemma LeakReads()
    ensures Exec(Step, Two(Late(1, Counted(0)), Late(0, Zeroed(0)), []), BothRead())
         == Two(Late(1, Pushed(0, [])), Late(1, Linked(0, [])), [1])
  {
    var counted, linked := Late(1, Counted(0)), Late(1, Linked(0, []));
    ExecFour(Two(counted, Late(0, Zeroed(0)), []), Restore(2), ReadHead(1), ReadHead(2), WriteHead(1));
    SetTwo(counted, Late(0, Zeroed(0)), [], counted);
    SetOne(counted, counted, [], linked);
    SetTwo(linked, counted, [], linked);
    SetOne(linked, linked, [], Late(1, Pushed(0, [])));
    assert [1] + [] == [1];
  }

  lemma LeakWrites(one: Alloc, linked: Alloc)
    requires one == Late(1, Pushed(0, [])) && linked == Late(1, Linked(0, []))
    ensures Step(Two(one, linked, [1]), WriteHead(2)) == Two(one, one, [2])
  {
    SetTwo(one, linked, [1], one);
    assert [2] + [] == [2];
    assert map[0 := [1]][0 := [2]] == map[0 := [2]];
  }

  lemma LeakDrains(one: Alloc)
    requires one == Late(1, Pushed(0, []))
    ensures var s := Step(Two(one, one, [2]).(closing := {0}), Drain(0));
            s.lists == map[0 := []] && s.closing == {0} && 1 in s.allocs && s.allocs[1] == one
  {
    assert map[0 := [2]][0 := []] == map[0 := []];
  }

  lemma LeakCloses()
    ensures var s := Exec(Step, Two(Late(1, Pushed(0, [])), Late(1, Linked(0, [])), [1]), CloseAll());
            s.lists == map[] && 1 in s.allocs && s.allocs[1] == Late(1, Pushed(0, []))
  {
    var one, linked := Late(1, Pushed(0, [])), Late(1, Linked(0, []));
    ExecFour(Two(one, linked, [1]), WriteHead(2), BeginClose(0), Drain(0), EndClose(0));
    LeakWrites(one, linked);
    LeakBeginsClose(one);
    LeakDrains(one);
  }

  lemma LeakBeginsClose(one: Alloc)
    requires one == Late(1, Pushed(0, []))
    ensures Step(Two(one, one, [2]), BeginClose(0)) == Two(one, one, [2]).(closing := {0})
  {
    assert !InUse(Two(one, one, [2]), 0);
    assert {} + {0} == {0};
  }

  /** At the end the file is closed, allocation 1 is held by nobody, and it is not freed. */
  lemma OverlapLeaks()
    ensures var s := Exec(Step, INIT, LeakingRun());
      && s.lists == map[] && 1 in s.allocs && s.allocs[1] == Late(1, Pushed(0, []))
    ensures PushesOverlap(INIT, LeakingRun())
  {
    LeakEnds();
    assert !NothingLeaked(Exec(Step, INIT, LeakingRun()));
    NothingLeaksIffNoOverlap(LeakingRun());
  }

  lemma LeakEnds()
    ensures var s := Exec(Step, INIT, LeakingRun());
      && s.lists == map[] && 1 in s.allocs && s.allocs[1] == Late(1, Pushed(0, []))
  {
    LeakMapsOne();
    LeakMapsTwo();
    LeakUnmaps();
    LeakReads();
    LeakCloses();
    ExecSplit(Step, INIT, MapOne(), MapTwo() + (Unmap() + (BothRead() + CloseAll())));
    var s := State(map[1 := Mapped(true, 10)], None, map[0 := []], {0}, {}, false);
    ExecSplit(Step, s, MapTwo(), Unmap() + (BothRead() + CloseAll()));
    ExecSplit(Step, Two(Mapped(false, 10), Mapped(true, 20), []), Unmap(), BothRead() + CloseAll());
    ExecSplit(Step, Two(Late(1, Counted(0)), Late(0, Zeroed(0)), []), BothRead(), CloseAll());
  }
}
