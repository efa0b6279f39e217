/** DMA mapping of user pages in nvidia-geforce-340.107/nv-dma.c: the merged scatterlist segments are
    spelled out page by page, and a mapping is built or taken down as a whole. */
module DmaMap {

  type NvU64 = x: int | 0 <= x < 0x1_0000_0000_0000_0000
  type NvU32 = x: int | 0 <= x < 0x1_0000_0000

  const PAGE_SIZE := 4096

  /** A segment as `pci_map_sg` leaves it: bus address and length in bytes. */
  datatype Segment = Segment(address: NvU64, length: NvU32)

  // ------------------------------------------------------------------ page by page

  /** Pages that a segment touches, counting a partial last one. */
  function PageCount(s: Segment): nat {
    (s.length + PAGE_SIZE - 1) / PAGE_SIZE
  }

  function PageAddress(s: Segment, k: nat): NvU64 {
    (s.address + k * PAGE_SIZE) % 0x1_0000_0000_0000_0000
  }

  /** The first `n` page addresses of a segment. */
  function FirstPages(s: Segment, n: nat): (ps: seq<NvU64>)
    ensures |ps| == n
  {
    seq(n, k requires 0 <= k < n => PageAddress(s, k))
  }

  function Expansion(segments: seq<Segment>): seq<NvU64> {
    if segments == [] then [] else
    var last := segments[|segments| - 1];
    Expansion(segments[..|segments| - 1]) + FirstPages(last, PageCount(last))
  }

  function Min(a: nat, b: nat): nat {
    if a < b then a else b
  }

  /** The loop condition `sg_off < sg_len` counts exactly the pages of the segment. */
  lemma OffsetCountsPages(s: Segment, k: nat)
    ensures k * PAGE_SIZE < s.length <==> k < PageCount(s)
  {
  }

  lemma {:induction false} ExpansionGrows(segments: seq<Segment>, i: nat)
    requires i <= |segments|
    ensures Expansion(segments[..i]) <= Expansion(segments)
    decreases |segments| - i
  {
    if i == |segments| {
      assert segments[..i] == segments;
    } else {
      assert segments[..i + 1][..i] == segments[..i];
      ExpansionGrows(segments, i + 1);
    }
  }

  /** The pages of a segment stand in the expansion behind those of the segments before it, one for each 4096
      bytes begun. */
  lemma {:induction false} ExpansionEntry(segments: seq<Segment>, i: nat, k: nat)
    requires i < |segments| && k < PageCount(segments[i])
    ensures |Expansion(segments[..i])| + k < |Expansion(segments)|
    ensures Expansion(segments)[|Expansion(segments[..i])| + k]
         == (segments[i].address + 4096 * k) % 0x1_0000_0000_0000_0000
  {
    ExpansionGrows(segments, i + 1);
    assert segments[..i + 1][..i] == segments[..i];
  }

  /** And the expansion holds nothing else: every entry is a page that some segment has begun. */
  lemma {:induction false} EveryEntryIsAPage(segments: seq<Segment>, j: nat) returns (i: nat, k: nat)
    requires j < |Expansion(segments)|
    ensures i < |segments| && 4096 * k < segments[i].length && j == |Expansion(segments[..i])| + k
    decreases |segments|
  {
    var n := |segments| - 1;
    if j < |Expansion(segments[..n])| {
      i, k := EveryEntryIsAPage(segments[..n], j);
      assert segments[..n][..i] == segments[..i];
    } else {
      i, k := n, j - |Expansion(segments[..n])|;
      OffsetCountsPages(segments[n], k);
    }
  }

  /** `nv_load_dma_map_scatterlist`: the array gets the first `pageCount` entries of the expansion, or
      all of it if it is shorter, and nothing is written beyond. The index is a 32-bit counter. */
  method LoadScatterlist(segments: seq<Segment>, pageCount: nat, ptes: array<NvU64>)
    requires pageCount <= ptes.Length && pageCount < 0x1_0000_0000
    modifies ptes
    ensures var n := Min(pageCount, |Expansion(segments)|);
      ptes[..n] == Expansion(segments)[..n] && ptes[n..] == old(ptes[n..])
  {
    var j: NvU32 := 0;
    for i := 0 to |segments|
      invariant j == Min(pageCount, |Expansion(segments[..i])|)
      invariant forall x :: 0 <= x < j ==> ptes[x] == Expansion(segments[..i])[x]
      invariant forall x :: j <= x < ptes.Length ==> ptes[x] == old(ptes[x])
    {
      assert segments[..i + 1][..i] == segments[..i];
      j := LoadSegment(segments[i], j, pageCount, ptes);
    }
    assert segments[..|segments|] == segments;
  }

  /** The inner loop: one segment, from array index `from` on. */
  method LoadSegment(sg: Segment, from: NvU32, pageCount: nat, ptes: array<NvU64>) returns (j: NvU32)
    requires from <= pageCount <= ptes.Length && pageCount < 0x1_0000_0000
    modifies ptes
    ensures j == Min(pageCount, from + PageCount(sg))
    ensures forall x :: from <= x < j ==> ptes[x] == PageAddress(sg, x - from)
    ensures forall x :: from <= x < j ==> ptes[x] == (sg.address + 4096 * (x - from)) % 0x1_0000_0000_0000_0000
    ensures forall x :: 0 <= x < ptes.Length && !(from <= x < j) ==> ptes[x] == old(ptes[x])
  {
    j := from;
    var offset := 0;
    OffsetCountsPages(sg, 0);
    while offset < sg.length && j < pageCount
      invariant from <= j <= pageCount && offset == (j - from) * PAGE_SIZE
      invariant j - from <= PageCount(sg)
      invariant forall x :: from <= x < j ==> ptes[x] == PageAddress(sg, x - from)
      invariant forall x :: 0 <= x < ptes.Length && !(from <= x < j) ==> ptes[x] == old(ptes[x])
      decreases pageCount - j
    {
      OffsetCountsPages(sg, j - from);
      ptes[j] := (sg.address + offset) % 0x1_0000_0000_0000_0000;
      j := (j + 1) % 0x1_0000_0000;
      offset := offset + PAGE_SIZE;
    }
    OffsetCountsPages(sg, j - from);
  }

  // ------------------------------------------------------------------ map and unmap

  datatype Status = Ok | NotSupported | InvalidRequest | NoMemory | OperatingSystem | InvalidAddress

  /** What the caller's `priv` points at: its own pages before mapping, the record after. */
  datatype Private = UserPages(id: nat) | Mapping(record: Record)

  class Record {
    const userPages: Private
    const pageCount: nat
    var segments: seq<Segment>

    constructor (userPages: Private, pageCount: nat)
      ensures this.userPages == userPages && this.pageCount == pageCount && segments == []
    {
      this.userPages, this.pageCount, segments := userPages, pageCount, [];
    }
  }

  class Cell {
    var value: Private

    constructor (value: Private)
      ensures this.value == value
    {
      this.value := value;
    }
  }

  /** The kernel's side: which records, scatterlist tables and DMA mappings exist. */
  class System {
    var records: set<Record>
    var tables: set<Record>
    var mapped: set<Record>
    const numPhysPages: nat
    const dmaStart: nat
    const dmaLimit: nat

    constructor (numPhysPages: nat, dmaStart: nat, dmaLimit: nat)
      ensures records == tables == mapped == {}
    {
      records, tables, mapped := {}, {}, {};
      this.numPhysPages, this.dmaStart, this.dmaLimit := numPhysPages, dmaStart, dmaLimit;
    }

    predicate Addressable(a: NvU64) {
      dmaStart <= a <= dmaLimit
    }

    /** A record in use has its table, and a DMA mapping exactly if it has segments. */
    ghost predicate Holds(r: Record)
      reads this, r
    {
      r in records && r in tables && (r in mapped <==> r.segments != [])
    }

    /** `nv_dma_unmap_pages`. */
    method Unmap(pageCount: nat, priv: Cell?) returns (status: Status)
      requires priv != null ==> priv.value.Mapping? && Holds(priv.value.record)
      modifies this, priv
      ensures status == if priv == null then NotSupported
                        else if pageCount > numPhysPages || pageCount != old(priv.value.record).pageCount
                        then InvalidRequest
                        else Ok
      ensures status != Ok ==>
        && records == old(records) && tables == old(tables) && mapped == old(mapped)
        && (priv != null ==> priv.value == old(priv.value))
      ensures status == Ok ==>
        var r := old(priv.value.record);
        && priv.value == r.userPages
        && records == old(records) - {r} && tables == old(tables) - {r} && mapped == old(mapped) - {r}
    {
      if priv == null {
        return NotSupported;
      }
      var r := priv.value.record;
      if pageCount > numPhysPages {
        return InvalidRequest;
      }
      if pageCount != r.pageCount {
        return InvalidRequest;
      }
      if r.segments != [] {
        mapped := mapped - {r};
      }
      priv.value := r.userPages;
      tables := tables - {r};
      records := records - {r};
      return Ok;
    }

    /** `nv_dma_map_pages`. The environment decides whether the record and the table can be
        allocated, and what segments `pci_map_sg` returns, none meaning failure. A successful map
        leaves every entry addressable; a failed one leaves the caller's pointer as it was and
        nothing allocated or mapped. */
    method Map(pageCount: nat, ptes: array<NvU64>, priv: Cell?, recordOk: bool, tableOk: bool, segments: seq<Segment>)
      returns (status: Status)
      requires pageCount <= ptes.Length && numPhysPages < 0x1_0000_0000
      modifies this, ptes, priv
      ensures status != Ok ==>
        && records == old(records) && tables == old(tables) && mapped == old(mapped)
        && (priv != null ==> priv.value == old(priv.value))
      ensures status == Ok ==>
        && priv != null && priv.value.Mapping? && fresh(priv.value.record)
        && priv.value.record.userPages == old(priv.value) && priv.value.record.pageCount == pageCount
        && Holds(priv.value.record)
        && records == old(records) + {priv.value.record}
        && tables == old(tables) + {priv.value.record}
        && mapped == old(mapped) + {priv.value.record}
        && var n := Min(pageCount, |Expansion(segments)|);
           ptes[..n] == Expansion(segments)[..n] && ptes[n..] == old(ptes[n..])
      ensures status == Ok <==>
        && priv != null && pageCount <= numPhysPages && recordOk && tableOk && segments != []
        && (forall i :: 0 <= i < pageCount ==> dmaStart <= ptes[i] <= dmaLimit)
      ensures status == InvalidAddress ==> exists i :: 0 <= i < pageCount && !Addressable(ptes[i])
      ensures status == NotSupported <==> priv == null
      ensures status == InvalidRequest <==> priv != null && pageCount > numPhysPages
      ensures status == NoMemory <==> priv != null && pageCount <= numPhysPages && !recordOk
      ensures status == OperatingSystem <==>
        priv != null && pageCount <= numPhysPages && recordOk && (!tableOk || segments == [])
    {
      if priv == null {
        return NotSupported;
      }
      if pageCount > numPhysPages {
        return InvalidRequest;
      }
      if !recordOk {
        return NoMemory;
      }
      var r := new Record(priv.value, pageCount);
      records := records + {r};
      if !tableOk {
        records := records - {r};
        return OperatingSystem;
      }
      tables := tables + {r};
      var local := new Cell(Mapping(r));
      r.segments := segments;
      if segments != [] {
        mapped := mapped + {r};
      } else {
        var _ := Unmap(pageCount, local);
        return OperatingSystem;
      }
      LoadScatterlist(segments, pageCount, ptes);
      var i := 0;
      while i < pageCount
        invariant 0 <= i <= pageCount
        invariant forall k :: 0 <= k < i ==> Addressable(ptes[k])
      {
        if !Addressable(ptes[i]) {
          var _ := Unmap(pageCount, local);
          return InvalidAddress;
        }
        i := i + 1;
      }
      priv.value := Mapping(r);
      return Ok;
    }

    /** Mapping and unmapping the same number of pages gives the caller its pointer back and leaves
        nothing behind. */
    method MapThenUnmap(pageCount: nat, ptes: array<NvU64>, priv: Cell,
                        recordOk: bool, tableOk: bool, segments: seq<Segment>)
      returns (status: Status)
      requires pageCount <= ptes.Length && numPhysPages < 0x1_0000_0000
      modifies this, ptes, priv
      ensures priv.value == old(priv.value)
      ensures records == old(records) && tables == old(tables) && mapped == old(mapped)
    {
      status := Map(pageCount, ptes, priv, recordOk, tableOk, segments);
      if status == Ok {
        status := Unmap(pageCount, priv);
      }
    }
  }
}
