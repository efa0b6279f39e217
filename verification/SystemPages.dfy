/** The system page allocator of nvidia-geforce-340.107/nv-vm.c (`nv_alloc_system_pages`,
    `nv_free_system_pages`, `nv_set_memory_type`), in the build without scatter-gather mapping of
    buffers. The kernel's page pool is the surroundings: it may refuse at any time, and it hands
    out any page it has. */
module SystemPages {
  import opened Options

  /** A page, by its kernel virtual address. */
  type Page = nat

  datatype Status = Ok | NoMemory | OperatingSystem | InvalidAddress

  datatype MemoryType = Uncached | WriteBack

  const LOW_MEMORY := 0x400000

  ghost function Pages(s: seq<Page>): set<Page> {
    set p | p in s
  }

  ghost predicate Distinct(s: seq<Page>) {
    forall i, j :: 0 <= i < j < |s| ==> s[i] != s[j]
  }

  class Kernel {
    /** Pages the kernel can hand out, pages marked reserved, and pages mapped uncached. */
    var free: set<Page>
    var locked: set<Page>
    var uncached: set<Page>

    /** How often a request for a page was refused. */
    ghost var refusals: nat

    /** Physical address of a page, 0 if the lookup fails, and the device address of that. */
    const phys: Page -> nat
    const dma: nat -> nat

    /** Whether memory types are kept up to date at all, and in one call for many pages. */
    const updateTypes: bool
    const arrayCalls: bool

    /** Kernel mappings are no-execute, so pages in low memory are not to be used. */
    const noExecute: bool
    const dmaStart: nat
    const dmaLimit: nat

    constructor (free: set<Page>, phys: Page -> nat, dma: nat -> nat, updateTypes: bool, arrayCalls: bool,
                 noExecute: bool, dmaStart: nat, dmaLimit: nat)
      ensures this.free == free && locked == {} && uncached == {} && refusals == 0
    {
      this.free, locked, uncached, refusals := free, {}, {}, 0;
      this.phys, this.dma, this.updateTypes, this.arrayCalls := phys, dma, updateTypes, arrayCalls;
      this.noExecute, this.dmaStart, this.dmaLimit := noExecute, dmaStart, dmaLimit;
    }

    /** A free page is neither reserved nor uncached. */
    ghost predicate Valid()
      reads this
    {
      free !! locked && free !! uncached
    }

    predicate Low(p: Page) {
      noExecute && phys(p) < LOW_MEMORY
    }

    predicate Addressable(p: Page) {
      dmaStart <= dma(phys(p)) <= dmaLimit
    }

    /** `__get_free_pages(gfp_mask, 0)`. */
    method GetFreePage() returns (p: Option<Page>)
      modifies this`free, this`refusals
      ensures p == None ==> free == old(free) && refusals == old(refusals) + 1
      ensures p.Some? ==> p.value in old(free) && free == old(free) - {p.value} && refusals == old(refusals)
    {
      p := None;
      if * {
        if page :| page in free {
          free := free - {page};
          return Some(page);
        }
      }
      refusals := refusals + 1;
    }

    method FreePage(p: Page)
      modifies this`free
      ensures free == old(free) + {p}
    {
      free := free + {p};
    }

    method LockPage(p: Page)
      modifies this`locked
      ensures locked == old(locked) + {p}
    {
      locked := locked + {p};
    }

    method UnlockPage(p: Page)
      modifies this`locked
      ensures locked == old(locked) - {p}
    {
      locked := locked - {p};
    }

    /** `set_memory_array_uc` and `set_memory_array_wb`. */
    method SetArrayType(pages: seq<Page>, t: MemoryType)
      modifies this`uncached
      ensures uncached == if t.Uncached? then old(uncached) + Pages(pages) else old(uncached) - Pages(pages)
    {
      var i := 0;
      while i < |pages|
        invariant 0 <= i <= |pages|
        invariant uncached
               == if t.Uncached? then old(uncached) + Pages(pages[..i]) else old(uncached) - Pages(pages[..i])
      {
        uncached := if t.Uncached? then uncached + {pages[i]} else uncached - {pages[i]};
        assert pages[..i + 1] == pages[..i] + [pages[i]];
        i := i + 1;
      }
      assert pages[..|pages|] == pages;
    }

    /** `nv_set_contig_memory_type` for one page. */
    method SetPageType(p: Page, t: MemoryType)
      modifies this`uncached
      ensures uncached == if !updateTypes then old(uncached)
                          else if t.Uncached? then old(uncached) + {p} else old(uncached) - {p}
    {
      if updateTypes {
        uncached := if t.Uncached? then uncached + {p} else uncached - {p};
      }
    }
  }

  /** An allocation record: its page table, filled up to `numPages` by a successful allocation. */
  class Allocation {
    const numPages: nat
    const cached: bool
    const table: array<Page>

    constructor (numPages: nat, cached: bool)
      ensures this.numPages == numPages == table.Length && this.cached == cached && fresh(table)
    {
      this.numPages, this.cached := numPages, cached;
      table := new Page[numPages];
    }

    /** `nv_set_memory_type`: one call over all pages if the kernel has it and the list of addresses
        can be allocated, page by page otherwise. Both come to the same. */
    method SetMemoryType(k: Kernel, t: MemoryType, listAllocated: bool)
      requires numPages == table.Length
      modifies k`uncached
      ensures k.uncached == if !k.updateTypes then old(k.uncached)
                            else if t.Uncached? then old(k.uncached) + Pages(table[..])
                            else old(k.uncached) - Pages(table[..])
    {
      if k.updateTypes {
        if k.arrayCalls && listAllocated {
          k.SetArrayType(table[..], t);
        } else {
          var i := 0;
          while i < numPages
            invariant 0 <= i <= numPages
            invariant k.uncached == if t.Uncached? then old(k.uncached) + Pages(table[..i])
                                    else old(k.uncached) - Pages(table[..i])
          {
            k.SetPageType(table[i], t);
            assert table[..i + 1] == table[..i] + [table[i]];
            i := i + 1;
          }
          assert table[..numPages] == table[..];
        }
      }
    }

    /** The table's first `n` entries are pages taken from `pool` that pass every check. */
    ghost predicate Holds(k: Kernel, pool: set<Page>, n: nat)
      requires n <= table.Length
      reads table
    {
      && Distinct(table[..n]) && Pages(table[..n]) <= pool
      && forall p :: p in table[..n] ==> k.phys(p) != 0 && !k.Low(p) && k.Addressable(p)
    }

    /** Take pages one by one. A page in low memory is set aside for good and the same slot tried
        again; that ends because the pool only shrinks. Any failure hands back every page in the
        table, unlocked. `aside` are the pages set aside. */
    method AllocSystemPages(k: Kernel, listAllocated: bool) returns (status: Status, ghost aside: set<Page>)
      requires numPages == table.Length && k.Valid()
      modifies k, table
      ensures k.Valid()
      ensures aside <= old(k.free) && forall p :: p in aside ==> k.Low(p)
      ensures status == Ok ==>
        && Holds(k, old(k.free) - aside, numPages)
        && k.free == old(k.free) - aside - Pages(table[..])
        && k.locked == old(k.locked) + Pages(table[..])
        && k.uncached == old(k.uncached) + (if cached || !k.updateTypes then {} else Pages(table[..]))
      ensures status != Ok ==>
        k.free == old(k.free) - aside && k.locked == old(k.locked) && k.uncached == old(k.uncached)
      ensures k.refusals == if status == NoMemory then old(k.refusals) + 1 else old(k.refusals)
      ensures status == OperatingSystem ==> exists p :: p in old(k.free) && k.phys(p) == 0
      ensures status == InvalidAddress ==> exists p :: p in old(k.free) && !k.Addressable(p)
    {
      aside := {};
      var i := 0;
      while i < numPages
        invariant 0 <= i <= numPages
        invariant aside <= old(k.free) && forall p :: p in aside ==> k.Low(p)
        invariant Holds(k, old(k.free) - aside, i)
        invariant k.free == old(k.free) - aside - Pages(table[..i])
        invariant k.locked == old(k.locked) + Pages(table[..i])
        invariant k.uncached == old(k.uncached) && k.refusals == old(k.refusals)
        decreases k.free
      {
        var got := k.GetFreePage();
        if got == None {
          UndoPages(k, i);
          return NoMemory, aside;
        }
        var page := got.value;
        if k.phys(page) == 0 {
          k.FreePage(page);
          UndoPages(k, i);
          return OperatingSystem, aside;
        }
        if k.Low(page) {
          aside := aside + {page};
          continue;
        }
        TakePage(k, page, i);
        i := i + 1;
        if !k.Addressable(page) {
          UndoPages(k, i);
          return InvalidAddress, aside;
        }
      }
      assert table[..numPages] == table[..];
      if !cached {
        SetMemoryType(k, Uncached, listAllocated);
      }
      return Ok, aside;
    }

    /** A page goes into its slot and is marked reserved. */
    method TakePage(k: Kernel, page: Page, i: nat)
      requires i < table.Length
      modifies k`locked, table
      ensures table[..i + 1] == old(table[..i]) + [page] && table[..i] == old(table[..i])
      ensures k.locked == old(k.locked) + {page}
    {
      ghost var held := table[..i];
      table[i] := page;
      assert table[..i] == held && table[..i + 1] == held + [page];
      k.LockPage(page);
    }

    /** The `failed` path: the first `n` pages are unlocked and returned. */
    method UndoPages(k: Kernel, n: nat)
      requires n <= table.Length && Distinct(table[..n])
      modifies k`free, k`locked
      ensures k.free == old(k.free) + Pages(table[..n])
      ensures k.locked == old(k.locked) - Pages(table[..n])
    {
      for j := 0 to n
        invariant k.free == old(k.free) + Pages(table[..j])
        invariant k.locked == old(k.locked) - Pages(table[..j])
      {
        k.UnlockPage(table[j]);
        k.FreePage(table[j]);
        assert table[..j + 1] == table[..j] + [table[j]];
      }
    }

    method FreeSystemPages(k: Kernel, listAllocated: bool)
      requires numPages == table.Length && Distinct(table[..])
      modifies k`free, k`locked, k`uncached
      ensures k.free == old(k.free) + Pages(table[..])
      ensures k.locked == old(k.locked) - Pages(table[..])
      ensures k.uncached == if cached || !k.updateTypes then old(k.uncached) else old(k.uncached) - Pages(table[..])
    {
      if !cached {
        SetMemoryType(k, WriteBack, listAllocated);
      }
      assert table[..numPages] == table[..];
      var i := 0;
      while i < numPages
        invariant 0 <= i <= numPages
        invariant k.free == old(k.free) + Pages(table[..i])
        invariant k.locked == old(k.locked) - Pages(table[..i])
        invariant k.uncached == if cached || !k.updateTypes then old(k.uncached) else old(k.uncached) - Pages(table[..])
      {
        k.UnlockPage(table[i]);
        k.FreePage(table[i]);
        assert table[..i + 1] == table[..i] + [table[i]];
        i := i + 1;
      }
    }
  }

  /** So a page that an allocation holds has a physical address, which the device can reach and which under
      no-execute mappings is not in the first four megabytes; one that is set aside is. */
  lemma HeldPagesAreUsable(at: Allocation, k: Kernel, pool: set<Page>, n: nat, i: nat, p: Page)
    requires n <= at.table.Length && at.Holds(k, pool, n) && i < n
    ensures at.table[i] in pool && k.phys(at.table[i]) != 0
    ensures k.dmaStart <= k.dma(k.phys(at.table[i])) <= k.dmaLimit
    ensures k.noExecute ==> k.phys(at.table[i]) >= 0x40_0000
    ensures k.Low(p) <==> k.noExecute && k.phys(p) < 0x40_0000
  {
    assert at.table[i] == at.table[..n][i];
    assert at.table[i] in Pages(at.table[..n]);
  }

  /** Allocating and freeing again puts the pool, the reserved marks and the memory types back as
      they were, but for the low pages set aside; a failed allocation does so by itself. */
  method AllocThenFree(at: Allocation, k: Kernel, list1: bool, list2: bool)
    returns (status: Status, ghost aside: set<Page>)
    requires at.numPages == at.table.Length && k.Valid()
    modifies k, at.table
    ensures k.free == old(k.free) - aside && k.locked == old(k.locked) && k.uncached == old(k.uncached)
    ensures aside <= old(k.free) && forall p :: p in aside ==> k.noExecute && k.phys(p) < 0x40_0000
  {
    status, aside := at.AllocSystemPages(k, list1);
    if status == Ok {
      assert at.table[..at.numPages] == at.table[..];
      at.FreeSystemPages(k, list2);
    }
  }
}
