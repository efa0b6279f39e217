/** The callbacks of nvidia-geforce-340.107/nv-mmap.c and the frees of nv.c as the code runs them: counts
    and list pointers assigned in allocation records and in the private data of a file.

    Every atomic section is proved to be a step of the machine in `PageLifetime`, and every call that
    nothing interrupts a run of such steps. What the loops rely on, such as a live record behind every
    `next` pointer, follows from the machine's invariant. */
module PageCalls {
  import opened Options
  import opened Runs
  import opened PageLifetime

  /** The part of an nv_alloc_t that matters here. */
  class NvAlloc {
    ghost const id: AllocId
    var usageCount: int
    var next: NvAlloc?
    ghost var freed: bool

    constructor (ghost id: AllocId)
      ensures this.id == id && usageCount == 1 && next == null && !freed
    {
      this.id := id;
      usageCount, next, freed := 1, null, false;
    }
  }

  /** The part of an nv_file_private_t that matters here. */
  class FilePrivate {
    ghost const id: FileId
    var freeList: NvAlloc?

    constructor (ghost id: FileId)
      ensures this.id == id && freeList == null
    {
      this.id := id;
      freeList := null;
    }
  }

  type Objects = map<AllocId, NvAlloc>
  type Files = map<FileId, FilePrivate>

  /** A list pointer is null or leads to the first of the entries. */
  ghost predicate LeadsTo(objs: Objects, p: NvAlloc?, entries: seq<AllocId>) {
    if entries == [] then p == null else entries[0] in objs && p == objs[entries[0]]
  }

  predicate HasNext(at: Alloc) {
    at.push.Linked? || at.push.Pushed?
  }

  ghost predicate ShowsAlloc(o: NvAlloc, objs: Objects, a: AllocId, at: Alloc)
    reads o
  {
    && o.id == a && o.usageCount == at.usage && o.freed == at.freed
    && (HasNext(at) ==> LeadsTo(objs, o.next, at.push.rest))
  }

  ghost predicate AllocsMirror(objs: Objects, allocs: map<AllocId, Alloc>)
    reads objs.Values
  {
    forall a {:trigger a in allocs} :: a in allocs ==> a in objs && ShowsAlloc(objs[a], objs, a, allocs[a])
  }

  ghost predicate FilesMirror(files: Files, objs: Objects, lists: map<FileId, seq<AllocId>>)
    reads files.Values
  {
    forall f {:trigger f in lists} :: f in lists ==>
      f in files && files[f].id == f && LeadsTo(objs, files[f].freeList, lists[f])
  }

  /** The objects show what the machine says of counts, frees and lists. */
  ghost predicate Mirrors(objs: Objects, files: Files, s: State)
    reads objs.Values, files.Values
  {
    AllocsMirror(objs, s.allocs) && FilesMirror(files, objs, s.lists)
  }

  // ---------------------------------------------------------------------------------------------------
  // Single assignments
  // ---------------------------------------------------------------------------------------------------

  /** A change of the count alone. */
  method AddToCount(o: NvAlloc, delta: int, ghost objs: Objects, ghost allocs: map<AllocId, Alloc>,
                    ghost a: AllocId, ghost at: Alloc)
    requires AllocsMirror(objs, allocs) && a in allocs && o == objs[a]
    requires at.usage == allocs[a].usage + delta && at.freed == allocs[a].freed
    requires HasNext(at) ==> HasNext(allocs[a]) && at.push.rest == allocs[a].push.rest
    modifies o`usageCount
    ensures o.usageCount == old(o.usageCount) + delta
    ensures AllocsMirror(objs, allocs[a := at])
  {
    assert ShowsAlloc(o, objs, a, allocs[a]);
    o.usageCount := o.usageCount + delta;
    forall b | b in allocs && b != a
      ensures b in objs && ShowsAlloc(objs[b], objs, b, allocs[b])
    {
      assert objs[b].id != o.id;
    }
  }

  /** The end of nv_free_pages: the pages and the record go. */
  method Discard(o: NvAlloc, ghost objs: Objects, ghost allocs: map<AllocId, Alloc>, ghost a: AllocId, ghost at: Alloc)
    requires AllocsMirror(objs, allocs) && a in allocs && o == objs[a]
    requires !allocs[a].freed && at == allocs[a].(freed := true)
    modifies o`freed
    ensures o.freed && AllocsMirror(objs, allocs[a := at])
  {
    assert ShowsAlloc(o, objs, a, allocs[a]);
    o.freed := true;
    forall b | b in allocs && b != a
      ensures b in objs && ShowsAlloc(objs[b], objs, b, allocs[b])
    {
      assert objs[b].id != o.id;
    }
  }

  /** at->next = nvfp->free_list. */
  method SetNext(o: NvAlloc, next: NvAlloc?, ghost objs: Objects, ghost allocs: map<AllocId, Alloc>,
                 ghost a: AllocId, ghost at: Alloc)
    requires AllocsMirror(objs, allocs) && a in allocs && o == objs[a]
    requires at == allocs[a].(push := at.push) && (HasNext(at) ==> LeadsTo(objs, next, at.push.rest))
    modifies o`next
    ensures AllocsMirror(objs, allocs[a := at])
  {
    assert ShowsAlloc(o, objs, a, allocs[a]);
    o.next := next;
    forall b | b in allocs && b != a
      ensures b in objs && ShowsAlloc(objs[b], objs, b, allocs[b])
    {
      assert objs[b].id != o.id;
    }
  }

  /** nvfp->free_list = at. */
  method SetHead(nvfp: FilePrivate, at: NvAlloc, ghost files: Files, ghost objs: Objects,
                 ghost lists: map<FileId, seq<AllocId>>, ghost f: FileId, ghost entries: seq<AllocId>)
    requires FilesMirror(files, objs, lists) && f in lists && nvfp == files[f]
    requires entries != [] && LeadsTo(objs, at, entries)
    modifies nvfp
    ensures FilesMirror(files, objs, lists[f := entries])
  {
    nvfp.freeList := at;
    forall g | g in lists && g != f
      ensures g in files && files[g].id == g && LeadsTo(objs, files[g].freeList, lists[g])
    {
      assert files[g].id != nvfp.id;
    }
  }

  // ---------------------------------------------------------------------------------------------------
  // VMA callbacks
  // ---------------------------------------------------------------------------------------------------

  /** nvidia_vma_open. */
  method CopyVma(o: NvAlloc, ghost objs: Objects, ghost files: Files, ghost s: State,
                 ghost a: AllocId, ghost v: (VmaId, FileId), ghost copy: VmaId)
    requires Mirrors(objs, files, s) && a in s.allocs && o == objs[a]
    requires v in s.allocs[a].live && (copy, v.1) !in s.allocs[a].live
    modifies o`usageCount
    ensures o.usageCount == old(o.usageCount) + 1
    ensures Mirrors(objs, files, Step(s, VmaOpen(a, v, copy)))
  {
    AddToCount(o, 1, objs, s.allocs, a, Step(s, VmaOpen(a, v, copy)).allocs[a]);
  }

  /** The atomic decrement of nvidia_vma_release. */
  method DropVma(o: NvAlloc, ghost objs: Objects, ghost files: Files, ghost s: State,
                 ghost a: AllocId, ghost v: (VmaId, FileId))
    returns (zero: bool)
    requires Inv(s) && Mirrors(objs, files, s) && a in s.allocs && v in s.allocs[a].live && o == objs[a]
    modifies o`usageCount
    ensures o.usageCount == old(o.usageCount) - 1 && (zero <==> o.usageCount == 0)
    ensures zero <==> Step(s, VmaClose(a, v)).allocs[a].push.Zeroed?
    ensures Mirrors(objs, files, Step(s, VmaClose(a, v)))
  {
    CloseFindsZero(s, a, v);
    assert ShowsAlloc(o, objs, a, s.allocs[a]);
    AddToCount(o, -1, objs, s.allocs, a, Step(s, VmaClose(a, v)).allocs[a]);
    zero := o.usageCount == 0;
  }

  /** The test of the decremented count tells exactly when the last reference went. */
  lemma CloseFindsZero(s: State, a: AllocId, v: (VmaId, FileId))
    requires Inv(s) && Enabled(s, VmaClose(a, v))
    ensures s.allocs[a].push == NoPush && !s.allocs[a].freed
    ensures s.allocs[a].usage == 1 <==> Step(s, VmaClose(a, v)).allocs[a].push == Zeroed(v.1)
    ensures s.allocs[a].usage != 1 ==> Step(s, VmaClose(a, v)).allocs[a].push == NoPush
    ensures v.1 in s.lists
  {
    assert CountInv(s, a);
  }

  /** The reference is put back. */
  method RestoreCount(o: NvAlloc, ghost objs: Objects, ghost files: Files, ghost s: State, ghost a: AllocId)
    requires Mirrors(objs, files, s) && a in s.allocs && s.allocs[a].push.Zeroed? && o == objs[a]
    modifies o`usageCount
    ensures o.usageCount == old(o.usageCount) + 1
    ensures Mirrors(objs, files, Step(s, Restore(a)))
  {
    AddToCount(o, 1, objs, s.allocs, a, Step(s, Restore(a)).allocs[a]);
  }

  /** The head of the list is read. */
  method LinkToHead(o: NvAlloc, nvfp: FilePrivate, ghost objs: Objects, ghost files: Files,
                    ghost s: State, ghost a: AllocId)
    requires Mirrors(objs, files, s) && a in s.allocs && s.allocs[a].push.Counted? && o == objs[a]
    requires s.allocs[a].push.file in s.lists && nvfp == files[s.allocs[a].push.file]
    modifies o`next
    ensures o.next == nvfp.freeList
    ensures Mirrors(objs, files, Step(s, ReadHead(a)))
  {
    SetNext(o, nvfp.freeList, objs, s.allocs, a, Step(s, ReadHead(a)).allocs[a]);
  }

  /** The head of the list is written, whatever it is by now. */
  method BecomeHead(o: NvAlloc, nvfp: FilePrivate, ghost objs: Objects, ghost files: Files,
                    ghost s: State, ghost a: AllocId)
    requires Mirrors(objs, files, s) && a in s.allocs && s.allocs[a].push.Linked? && o == objs[a]
    requires s.allocs[a].push.file in s.lists && nvfp == files[s.allocs[a].push.file]
    modifies nvfp
    ensures nvfp.freeList == o
    ensures Mirrors(objs, files, Step(s, WriteHead(a)))
  {
    ghost var s' := Step(s, WriteHead(a));
    ghost var f := s.allocs[a].push.file;
    SetHead(nvfp, o, files, objs, s.lists, f, s'.lists[f]);
    assert ShowsAlloc(o, objs, a, s'.allocs[a]) by {
      assert ShowsAlloc(o, objs, a, s.allocs[a]);
    }
  }

  function ReleaseSteps(a: AllocId, v: (VmaId, FileId), last: bool): seq<Action> {
    if last then [VmaClose(a, v)] + [Restore(a)] + [ReadHead(a)] + [WriteHead(a)] else [VmaClose(a, v)]
  }

  /** nvidia_vma_release with nobody in between: the last mapping of an allocation that the RM has let go
      of puts its reference back and leaves it to the list of the file. */
  method VmaRelease(o: NvAlloc, nvfp: FilePrivate, ghost objs: Objects, ghost files: Files, ghost s: State,
                    ghost a: AllocId, ghost v: (VmaId, FileId))
    requires Inv(s) && Mirrors(objs, files, s) && a in s.allocs && v in s.allocs[a].live && o == objs[a]
    requires v.1 in files && nvfp == files[v.1]
    modifies o, nvfp
    ensures if old(o.usageCount) == 1
            then o.usageCount == 1 && o.next == old(nvfp.freeList) && nvfp.freeList == o
            else o.usageCount == old(o.usageCount) - 1 && o.next == old(o.next) && nvfp.freeList == old(nvfp.freeList)
    ensures o.freed == old(o.freed)
    ensures Mirrors(objs, files, Exec(Step, s, ReleaseSteps(a, v, s.allocs[a].usage == 1)))
  {
    CloseFindsZero(s, a, v);
    var zero := DropVma(o, objs, files, s, a, v);
    ghost var s1 := Step(s, VmaClose(a, v));
    assert Exec(Step, s, [VmaClose(a, v)]) == s1;
    if zero {
      PushOnto(o, nvfp, objs, files, s1, a);
      ReleaseRun(s, a, v);
    }
  }

  /** The branch for a count that has come to zero. */
  method PushOnto(o: NvAlloc, nvfp: FilePrivate, ghost objs: Objects, ghost files: Files,
                  ghost s: State, ghost a: AllocId)
    requires Mirrors(objs, files, s) && a in s.allocs && s.allocs[a].push.Zeroed? && o == objs[a]
    requires s.allocs[a].push.file in s.lists && nvfp == files[s.allocs[a].push.file]
    modifies o`usageCount, o`next, nvfp
    ensures o.usageCount == old(o.usageCount) + 1 && o.next == old(nvfp.freeList) && nvfp.freeList == o
    ensures Mirrors(objs, files, Step(Step(Step(s, Restore(a)), ReadHead(a)), WriteHead(a)))
  {
    RestoreCount(o, objs, files, s, a);
    ghost var s1 := Step(s, Restore(a));
    PushSteps(s, a);
    LinkToHead(o, nvfp, objs, files, s1, a);
    ghost var s2 := Step(s1, ReadHead(a));
    BecomeHead(o, nvfp, objs, files, s2, a);
  }

  /** A push, once it has found zero, runs to its end. */
  lemma PushSteps(s: State, a: AllocId)
    requires a in s.allocs && s.allocs[a].push.Zeroed? && s.allocs[a].push.file in s.lists
    ensures var t := Step(s, Restore(a));
            && Enabled(s, Restore(a)) && Enabled(t, ReadHead(a)) && Enabled(Step(t, ReadHead(a)), WriteHead(a))
            && t.allocs[a].push.file == Step(t, ReadHead(a)).allocs[a].push.file == s.allocs[a].push.file
  {
  }

  lemma ReleaseRun(s: State, a: AllocId, v: (VmaId, FileId))
    ensures Exec(Step, s, ReleaseSteps(a, v, true))
         == Step(Step(Step(Step(s, VmaClose(a, v)), Restore(a)), ReadHead(a)), WriteHead(a))
  {
    assert [VmaClose(a, v)] + [Restore(a)] + [ReadHead(a)] + [WriteHead(a)]
        == [VmaClose(a, v), Restore(a), ReadHead(a), WriteHead(a)];
    ExecFour(s, VmaClose(a, v), Restore(a), ReadHead(a), WriteHead(a));
  }

  /** Undisturbed, that leaves the allocation at the head of the list with one reference, and the rest of
      the list behind it. */
  lemma ReleaseDefers(s: State, a: AllocId, v: (VmaId, FileId))
    requires Inv(s) && Enabled(s, VmaClose(a, v)) && s.allocs[a].usage == 1
    ensures var s' := Exec(Step, s, ReleaseSteps(a, v, true));
            && v.1 in s.lists && s'.lists == s.lists[v.1 := [a] + s.lists[v.1]]
            && a in s'.allocs && s'.allocs[a].usage == 1 && !s'.allocs[a].freed
  {
    CloseFindsZero(s, a, v);
    ReleaseRun(s, a, v);
    PushSteps(Step(s, VmaClose(a, v)), a);
  }

  // ---------------------------------------------------------------------------------------------------
  // mmap through the control device
  // ---------------------------------------------------------------------------------------------------

  /** The reference is taken, the pages are inserted one by one, and at the first failure the reference is
      given back. `inserts` is what each insertion comes to. */
  method MapPages(o: NvAlloc, inserts: seq<bool>, ghost objs: Objects, ghost files: Files, ghost s: State,
                  ghost a: AllocId, ghost f: FileId, ghost v: VmaId)
    returns (ok: bool)
    requires Mirrors(objs, files, s) && a in s.allocs && o == objs[a]
    requires s.allocs[a].rmHolds && OpenIn(s, f) && s.mapping == None && (v, f) !in s.allocs[a].live
    modifies o`usageCount
    ensures o.usageCount == if ok then old(o.usageCount) + 1 else old(o.usageCount)
    ensures ok <==> forall i :: 0 <= i < |inserts| ==> inserts[i]
    ensures Mirrors(objs, files, Exec(Step, s, [MmapBegin(a, f)] + [if ok then MmapDone(v) else MmapFail]))
  {
    ghost var begun := Step(s, MmapBegin(a, f));
    assert Exec(Step, s, [MmapBegin(a, f)]) == begun;
    AddToCount(o, 1, objs, s.allocs, a, begun.allocs[a]);
    var j := 0;
    while j < |inserts|
      invariant 0 <= j <= |inserts| && forall i :: 0 <= i < j ==> inserts[i]
      invariant Mirrors(objs, files, begun)
    {
      if !inserts[j] {
        AddToCount(o, -1, objs, begun.allocs, a, Step(begun, MmapFail).allocs[a]);
        ExecSnoc(Step, s, [MmapBegin(a, f)], MmapFail);
        return false;
      }
      j := j + 1;
    }
    AddToCount(o, 0, objs, begun.allocs, a, Step(begun, MmapDone(v)).allocs[a]);
    ExecSnoc(Step, s, [MmapBegin(a, f)], MmapDone(v));
    return true;
  }

  // ---------------------------------------------------------------------------------------------------
  // Frees
  // ---------------------------------------------------------------------------------------------------

  /** nv_free_pages: one reference goes, and with the last one the pages. */
  method FreeAlloc(o: NvAlloc, ghost objs: Objects, ghost allocs: map<AllocId, Alloc>,
                   ghost a: AllocId, ghost at: Alloc)
    requires AllocsMirror(objs, allocs) && a in allocs && o == objs[a]
    requires !allocs[a].freed && at == PageLifetime.FreePages(allocs[a].(rmHolds := at.rmHolds))
    modifies o`usageCount, o`freed
    ensures o.usageCount == old(o.usageCount) - 1 && (o.freed <==> o.usageCount == 0)
    ensures AllocsMirror(objs, allocs[a := at])
  {
    assert ShowsAlloc(o, objs, a, allocs[a]);
    ghost var dropped := at.(freed := false);
    AddToCount(o, -1, objs, allocs, a, dropped);
    if o.usageCount != 0 {
      return;
    }
    Discard(o, objs, allocs[a := dropped], a, at);
    assert allocs[a := dropped][a := at] == allocs[a := at];
  }

  /** nv_free_pages called by the RM. */
  method FreeByRm(o: NvAlloc, ghost objs: Objects, ghost files: Files, ghost s: State, ghost a: AllocId)
    requires Inv(s) && Mirrors(objs, files, s) && a in s.allocs && o == objs[a]
    requires s.allocs[a].rmHolds && s.mapping == None
    modifies o`usageCount, o`freed
    ensures o.usageCount == old(o.usageCount) - 1
    ensures Mirrors(objs, files, Step(s, RmFree(a)))
    ensures o.freed <==> s.allocs[a].live == {}
  {
    assert CountInv(s, a);
    FreeAlloc(o, objs, s.allocs, a, Step(s, RmFree(a)).allocs[a]);
    assert ShowsAlloc(o, objs, a, Step(s, RmFree(a)).allocs[a]);
  }

  function Drains(f: FileId, n: nat): seq<Action> {
    seq(n, i requires 0 <= i < n => Drain(f))
  }

  /** While a file is closing, each turn of the drain finds a record that is not freed and holds the one
      reference, and its `next` pointer leads to the others. */
  lemma DrainFinds(s: State, f: FileId)
    requires Inv(s) && f in s.lists && s.lists[f] != [] && f in s.closing
    ensures Enabled(s, Drain(f))
    ensures var a := s.lists[f][0];
            && !s.allocs[a].freed && s.allocs[a].usage == 1 && HasNext(s.allocs[a])
            && s.allocs[a].push.rest == s.lists[f][1..]
            && Step(s, Drain(f)).allocs == s.allocs[a := s.allocs[a].(usage := 0, freed := true)]
            && Step(s, Drain(f)).lists == s.lists[f := s.lists[f][1..]] && f in Step(s, Drain(f)).closing
  {
    assert ListInv(s, f) && CountInv(s, s.lists[f][0]);
  }

  /** After `n` turns the first `n` entries are freed and the others are still listed. */
  lemma {:induction false} DrainsRun(s: State, f: FileId, n: nat)
    requires Inv(s) && f in s.lists && f in s.closing && n <= |s.lists[f]|
    ensures var t := Exec(Step, s, Drains(f, n));
            && Inv(t) && f in t.closing && t.lists == s.lists[f := s.lists[f][n..]]
            && (forall i :: 0 <= i < n ==> s.lists[f][i] in t.allocs && t.allocs[s.lists[f][i]].freed)
    decreases n
  {
    if n == 0 {
      assert s.lists[f := s.lists[f][0..]] == s.lists;
    } else {
      DrainsRun(s, f, n - 1);
      var t := Exec(Step, s, Drains(f, n - 1));
      assert Drains(f, n) == Drains(f, n - 1) + [Drain(f)];
      ExecSnoc(Step, s, Drains(f, n - 1), Drain(f));
      DrainFinds(t, f);
      StepKeepsInv(t, Drain(f));
      assert s.lists[f][n - 1..][1..] == s.lists[f][n..];
    }
  }

  /** The loop at the end of nvidia_ctl_close, which follows the `next` pointers, reading each before the
      record goes: the run of drains, and then the list is gone with the file. */
  method DrainFreeList(nvfp: FilePrivate, ghost objs: Objects, ghost files: Files, ghost s: State, ghost f: FileId)
    requires Inv(s) && Mirrors(objs, files, s) && f in s.lists && f in s.closing && nvfp == files[f]
    modifies objs.Values
    ensures Mirrors(objs, files, Exec(Step, s, Drains(f, |s.lists[f]|) + [EndClose(f)]))
    ensures forall a :: a in s.lists[f] ==> a in objs && objs[a].freed
  {
    var at := nvfp.freeList;
    ghost var n := 0;
    assert s.lists[f][0..] == s.lists[f];
    while at != null
      invariant n <= |s.lists[f]|
      invariant AllocsMirror(objs, Exec(Step, s, Drains(f, n)).allocs) && LeadsTo(objs, at, s.lists[f][n..])
      decreases |s.lists[f]| - n
    {
      at := DrainNext(at, objs, s, f, n);
      n := n + 1;
    }
    DrainEnds(objs, files, s, f);
  }

  lemma DrainEnds(objs: Objects, files: Files, s: State, f: FileId)
    requires Inv(s) && f in s.lists && f in s.closing && FilesMirror(files, objs, s.lists)
    requires AllocsMirror(objs, Exec(Step, s, Drains(f, |s.lists[f]|)).allocs)
    ensures Mirrors(objs, files, Exec(Step, s, Drains(f, |s.lists[f]|) + [EndClose(f)]))
    ensures forall a :: a in s.lists[f] ==> a in objs && objs[a].freed
  {
    var n := |s.lists[f]|;
    DrainsRun(s, f, n);
    ExecSnoc(Step, s, Drains(f, n), EndClose(f));
    var t := Exec(Step, s, Drains(f, n));
    forall a | a in s.lists[f]
      ensures a in objs && objs[a].freed
    {
      var i :| 0 <= i < |s.lists[f]| && s.lists[f][i] == a;
      assert ShowsAlloc(objs[a], objs, a, t.allocs[a]);
    }
  }

  /** Turn `n` of that loop. */
  method DrainNext(at: NvAlloc, ghost objs: Objects, ghost s: State, ghost f: FileId, ghost n: nat)
    returns (next: NvAlloc?)
    requires Inv(s) && f in s.lists && f in s.closing && n < |s.lists[f]|
    requires AllocsMirror(objs, Exec(Step, s, Drains(f, n)).allocs) && LeadsTo(objs, at, s.lists[f][n..])
    modifies at
    ensures AllocsMirror(objs, Exec(Step, s, Drains(f, n + 1)).allocs) && LeadsTo(objs, next, s.lists[f][n + 1..])
  {
    DrainsRun(s, f, n);
    assert Drains(f, n + 1) == Drains(f, n) + [Drain(f)];
    ExecSnoc(Step, s, Drains(f, n), Drain(f));
    assert s.lists[f][n..][1..] == s.lists[f][n + 1..];
    next := DrainOne(at, objs, Exec(Step, s, Drains(f, n)), f);
  }

  /** A turn in any state in which the file is closing. */
  method DrainOne(at: NvAlloc, ghost objs: Objects, ghost s: State, ghost f: FileId)
    returns (next: NvAlloc?)
    requires Inv(s) && f in s.lists && f in s.closing && s.lists[f] != []
    requires AllocsMirror(objs, s.allocs) && LeadsTo(objs, at, s.lists[f])
    modifies at
    ensures next == old(at.next) && at.usageCount == old(at.usageCount) - 1 && at.freed
    ensures AllocsMirror(objs, Step(s, Drain(f)).allocs) && LeadsTo(objs, next, s.lists[f][1..])
  {
    DrainFinds(s, f);
    ghost var a := s.lists[f][0];
    assert ShowsAlloc(at, objs, a, s.allocs[a]);
    next := at.next;
    FreeAlloc(at, objs, s.allocs, a, Step(s, Drain(f)).allocs[a]);
  }
}
