/** The recursive extraction of ACPI objects into a byte buffer in
    nvidia-geforce-340.107/nv-acpi.c. */
module AcpiExtract {

  type Byte = x: int | 0 <= x < 0x100
  type NvU32 = x: int | 0 <= x < 0x1_0000_0000
  type NvU64 = x: int | 0 <= x < 0x1_0000_0000_0000_0000

  /** An ACPI object; `Other` is any type the extractor does not know. */
  datatype Object =
    | Integer(value: NvU64)
    | Buffer(bytes: seq<Byte>)
    | Package(elements: seq<Object>)
    | Other

  datatype Status = Ok | BufferTooSmall | NotSupported | InvalidArgument

  // ------------------------------------------------------------------ the flattened form

  function LittleEndian(v: nat, n: nat): (bs: seq<Byte>)
    ensures |bs| == n
    decreases n
  {
    if n == 0 then [] else [v % 0x100] + LittleEndian(v / 0x100, n - 1)
  }

  /** Four bytes for an integer that fits in 32 bits, eight otherwise. */
  function Encode(leaf: Object): seq<Byte> {
    match leaf
    case Integer(v) => LittleEndian(v, if v >= 0x1_0000_0000 then 8 else 4)
    case Buffer(bytes) => bytes
    case _ => []
  }

  function FromLittleEndian(bs: seq<Byte>): nat {
    if bs == [] then 0 else bs[0] + 0x100 * FromLittleEndian(bs[1..])
  }

  function Pow256(n: nat): nat {
    if n == 0 then 1 else 0x100 * Pow256(n - 1)
  }

  lemma {:induction false} LittleEndianRoundTrip(v: nat, n: nat)
    requires v < Pow256(n)
    ensures FromLittleEndian(LittleEndian(v, n)) == v
  {
    if n > 0 {
      LittleEndianRoundTrip(v / 0x100, n - 1);
    }
  }

  /** No integer loses bits by being stored in the short form. */
  lemma IntegerSurvives(v: NvU64)
    ensures FromLittleEndian(Encode(Integer(v))) == v
  {
    assert Pow256(4) == 0x1_0000_0000 && Pow256(8) == 0x1_0000_0000 * 0x1_0000_0000;
    LittleEndianRoundTrip(v, if v >= 0x1_0000_0000 then 8 else 4);
  }

  /** The leaves of a tree, left to right. */
  function Leaves(o: Object): seq<Object>
    decreases o, 1
  {
    if o.Package? then AllLeaves(o.elements) else [o]
  }

  function AllLeaves(es: seq<Object>): seq<Object>
    decreases es, 0
  {
    if es == [] then [] else Leaves(es[0]) + AllLeaves(es[1..])
  }

  function Flatten(leaves: seq<Object>): seq<Byte> {
    if leaves == [] then [] else Encode(leaves[0]) + Flatten(leaves[1..])
  }

  predicate Supported(leaf: Object) {
    leaf.Integer? || leaf.Buffer?
  }

  // ------------------------------------------------------------------ how far it gets

  /** How many leaves go into `cap` bytes before one is unsupported or does not fit. */
  function Fitting(leaves: seq<Object>, cap: nat): (n: nat)
    ensures n <= |leaves|
  {
    if leaves == [] || !Supported(leaves[0]) || |Encode(leaves[0])| > cap then 0
    else 1 + Fitting(leaves[1..], cap - |Encode(leaves[0])|)
  }

  function Verdict(leaves: seq<Object>, cap: nat): Status {
    var n := Fitting(leaves, cap);
    if n == |leaves| then Ok else if Supported(leaves[n]) then BufferTooSmall else NotSupported
  }

  /** What ends up in the buffer, also when the extraction fails half-way. */
  function Written(leaves: seq<Object>, cap: nat): seq<Byte> {
    Flatten(leaves[..Fitting(leaves, cap)])
  }

  lemma {:induction false} WrittenFits(leaves: seq<Object>, cap: nat)
    ensures |Written(leaves, cap)| <= cap
    decreases |leaves|
  {
    if Fitting(leaves, cap) > 0 {
      var n := Fitting(leaves, cap);
      assert leaves[..n][1..] == leaves[1..][..n - 1];
      WrittenFits(leaves[1..], cap - |Encode(leaves[0])|);
    }
  }

  lemma {:induction false} FlattenAppend(a: seq<Object>, b: seq<Object>)
    ensures Flatten(a + b) == Flatten(a) + Flatten(b)
    decreases |a|
  {
    if a == [] {
      assert a + b == b;
    } else {
      assert (a + b)[1..] == a[1..] + b;
      FlattenAppend(a[1..], b);
    }
  }

  ghost predicate AllSupported(leaves: seq<Object>) {
    forall i :: 0 <= i < |leaves| ==> Supported(leaves[i])
  }

  lemma AllSupportedFirst(leaves: seq<Object>)
    requires leaves != []
    ensures AllSupported(leaves) <==> Supported(leaves[0]) && AllSupported(leaves[1..])
  {
    assert forall i :: 0 < i < |leaves| ==> leaves[i] == leaves[1..][i - 1];
  }

  /** All leaves go in exactly if every leaf is supported and the whole flattening fits. */
  lemma {:induction false} FittingAll(leaves: seq<Object>, cap: nat)
    ensures Fitting(leaves, cap) == |leaves| <==> AllSupported(leaves) && |Flatten(leaves)| <= cap
    decreases |leaves|
  {
    if leaves != [] {
      AllSupportedFirst(leaves);
      if Supported(leaves[0]) && |Encode(leaves[0])| <= cap {
        FittingAll(leaves[1..], cap - |Encode(leaves[0])|);
      }
    }
  }

  /** Extraction succeeds in exactly that case, and then the buffer holds the whole flattening. */
  lemma OkIffAllFits(leaves: seq<Object>, cap: nat)
    ensures Verdict(leaves, cap) == Ok <==> AllSupported(leaves) && |Flatten(leaves)| <= cap
    ensures Verdict(leaves, cap) == Ok ==> Written(leaves, cap) == Flatten(leaves)
  {
    FittingAll(leaves, cap);
    assert leaves[..|leaves|] == leaves;
  }

  /** Otherwise the error names the first leaf in the way: everything before it is supported and
      fits, and it is unsupported or one too many. */
  lemma {:induction false} ErrorNamesFirstObstacle(leaves: seq<Object>, cap: nat)
    ensures var n := Fitting(leaves, cap);
      && (forall i :: 0 <= i < n ==> Supported(leaves[i]))
      && |Flatten(leaves[..n])| <= cap
      && (n < |leaves| ==> !Supported(leaves[n]) || |Flatten(leaves[..n + 1])| > cap)
    decreases |leaves|
  {
    WrittenFits(leaves, cap);
    if leaves != [] && Supported(leaves[0]) && |Encode(leaves[0])| <= cap {
      var n := Fitting(leaves, cap);
      ErrorNamesFirstObstacle(leaves[1..], cap - |Encode(leaves[0])|);
      assert forall i :: 0 < i < n ==> leaves[i] == leaves[1..][i - 1];
      if n < |leaves| {
        assert leaves[..n + 1][1..] == leaves[1..][..n];
      }
    } else if leaves != [] {
      assert leaves[..1] == [leaves[0]];
    }
  }

  /** Extracting a list of leaves can be cut anywhere. */
  lemma FittingAppend(a: seq<Object>, b: seq<Object>, cap: nat)
    ensures Fitting(a, cap) < |a| ==>
      && Fitting(a + b, cap) == Fitting(a, cap) && Verdict(a + b, cap) == Verdict(a, cap)
      && Written(a + b, cap) == Written(a, cap)
    ensures Fitting(a, cap) == |a| ==>
      && |Flatten(a)| <= cap
      && Fitting(a + b, cap) == |a| + Fitting(b, cap - |Flatten(a)|)
      && Verdict(a + b, cap) == Verdict(b, cap - |Flatten(a)|)
      && Written(a + b, cap) == Flatten(a) + Written(b, cap - |Flatten(a)|)
  {
    FittingCount(a, b, cap);
    if Fitting(a, cap) < |a| {
      assert (a + b)[..Fitting(a, cap)] == a[..Fitting(a, cap)];
    } else {
      var n := Fitting(b, cap - |Flatten(a)|);
      assert (a + b)[..|a| + n] == a + b[..n];
      FlattenAppend(a, b[..n]);
    }
  }

  lemma {:induction false} FittingCount(a: seq<Object>, b: seq<Object>, cap: nat)
    ensures Fitting(a, cap) < |a| ==> Fitting(a + b, cap) == Fitting(a, cap)
    ensures Fitting(a, cap) == |a| ==>
              |Flatten(a)| <= cap && Fitting(a + b, cap) == |a| + Fitting(b, cap - |Flatten(a)|)
    decreases |a|
  {
    if a == [] {
      assert a + b == b;
    } else {
      assert (a + b)[1..] == a[1..] + b;
      if Supported(a[0]) && |Encode(a[0])| <= cap {
        FittingCount(a[1..], b, cap - |Encode(a[0])|);
      }
    }
  }

  lemma {:induction false} AllLeavesSplit(es: seq<Object>, i: nat)
    requires i < |es|
    ensures AllLeaves(es[..i + 1]) == AllLeaves(es[..i]) + Leaves(es[i])
    ensures AllLeaves(es) == AllLeaves(es[..i]) + AllLeaves(es[i..])
    decreases i
  {
    if i == 0 {
      assert es[..1][1..] == [];
    } else {
      AllLeavesSplit(es[1..], i - 1);
      assert es[..i + 1][1..] == es[1..][..i] && es[..i][1..] == es[1..][..i - 1];
    }
  }

  lemma AllLeavesAround(es: seq<Object>, i: nat)
    requires i < |es|
    ensures AllLeaves(es) == AllLeaves(es[..i]) + (Leaves(es[i]) + AllLeaves(es[i + 1..]))
  {
    AllLeavesSplit(es, i);
    assert es[i..][0] == es[i] && es[i..][1..] == es[i + 1..];
  }

  // ------------------------------------------------------------------ the extractors

  /** `after` holds `w` from `at` on, and is otherwise `before`. */
  ghost predicate Stored(before: seq<Byte>, after: seq<Byte>, at: nat, w: seq<Byte>) {
    && |after| == |before| && at + |w| <= |before|
    && after == before[..at] + w + before[at + |w|..]
  }

  lemma StoredInTurn(s0: seq<Byte>, s1: seq<Byte>, s2: seq<Byte>, at: nat, w1: seq<Byte>, w2: seq<Byte>)
    requires Stored(s0, s1, at, w1) && Stored(s1, s2, at + |w1|, w2)
    ensures Stored(s0, s2, at, w1 + w2)
  {
  }

  lemma OneLeaf(o: Object, cap: nat)
    ensures !o.Package? ==> Leaves(o) == [o]
    ensures Flatten([o]) == Encode(o)
    ensures Verdict([o], cap)
         == if !Supported(o) then NotSupported else if |Encode(o)| > cap then BufferTooSmall else Ok
    ensures Written([o], cap) == if Supported(o) && |Encode(o)| <= cap then Encode(o) else []
  {
    assert [o][..1] == [o] && [o][1..] == [];
    assert Encode(o) + [] == Encode(o);
  }

  /** What a leaf is to the reader of the buffer. */
  predicate ReadsBack(leaf: Object, bs: seq<Byte>) {
    match leaf
    case Integer(v) => |bs| == (if v < 0x1_0000_0000 then 4 else 8) && FromLittleEndian(bs) == v
    case Buffer(bytes) => bs == bytes
    case _ => false
  }

  lemma LeafReadsBack(leaf: Object)
    requires Supported(leaf)
    ensures ReadsBack(leaf, Encode(leaf))
  {
    if leaf.Integer? {
      IntegerSurvives(leaf.value);
    }
  }

  /** After a successful extraction every leaf stands, behind those before it, in a form that reads back as
      it was. */
  lemma EveryLeafReadsBack(before: seq<Byte>, after: seq<Byte>, at: nat, leaves: seq<Object>, cap: nat, k: nat)
    requires Verdict(leaves, cap) == Ok && Stored(before, after, at, Written(leaves, cap)) && k < |leaves|
    ensures |Flatten(leaves[..k])| + |Encode(leaves[k])| <= cap
    ensures PartAt(after, at + |Flatten(leaves[..k])|, Encode(leaves[k])) && ReadsBack(leaves[k], Encode(leaves[k]))
  {
    OkIffAllFits(leaves, cap);
    assert Supported(leaves[k]);
    LeafReadsBack(leaves[k]);
    LeafInFlattening(leaves, k);
    PartOfStored(before, after, at, Flatten(leaves), |Flatten(leaves[..k])|, Encode(leaves[k]));
  }

  lemma {:induction false} LeafInFlattening(leaves: seq<Object>, k: nat)
    requires k < |leaves|
    ensures PartAt(Flatten(leaves), |Flatten(leaves[..k])|, Encode(leaves[k]))
    decreases k
  {
    if k == 0 {
      assert leaves[..0] == [];
    } else {
      assert leaves[..k][1..] == leaves[1..][..k - 1] && leaves[1..][k - 1] == leaves[k];
      LeafInFlattening(leaves[1..], k - 1);
      PartMoves(Encode(leaves[0]), Flatten(leaves[1..]), |Flatten(leaves[1..][..k - 1])|, Encode(leaves[k]));
    }
  }

  /** `part` stands at `from` in `whole`. */
  predicate PartAt(whole: seq<Byte>, from: nat, part: seq<Byte>) {
    from + |part| <= |whole| && whole[from..from + |part|] == part
  }

  lemma PartMoves(a: seq<Byte>, b: seq<Byte>, from: nat, part: seq<Byte>)
    requires PartAt(b, from, part)
    ensures PartAt(a + b, |a| + from, part)
  {
    assert (a + b)[|a| + from..|a| + from + |part|] == b[from..from + |part|];
  }

  lemma PartOfStored(before: seq<Byte>, after: seq<Byte>, at: nat, w: seq<Byte>, from: nat, part: seq<Byte>)
    requires Stored(before, after, at, w) && PartAt(w, from, part)
    ensures PartAt(after, at + from, part)
  {
    assert after[at + from..at + from + |part|] == w[from..from + |part|];
  }

  method CopyBytes(buffer: array<Byte>, at: nat, bytes: seq<Byte>)
    requires at + |bytes| <= buffer.Length
    modifies buffer
    ensures Stored(old(buffer[..]), buffer[..], at, bytes)
  {
    for k := 0 to |bytes|
      invariant forall j :: 0 <= j < k ==> buffer[at + j] == bytes[j]
      invariant forall j :: 0 <= j < buffer.Length && !(at <= j < at + k) ==> buffer[j] == old(buffer[j])
    {
      buffer[at + k] := bytes[k];
    }
  }

  method ExtractInteger(o: Object, buffer: array<Byte>, at: nat, size: NvU32) returns (status: Status, dataSize: NvU32)
    requires at + size <= buffer.Length
    modifies buffer
    ensures !o.Integer? ==> status == InvalidArgument && dataSize == 0 && Stored(old(buffer[..]), buffer[..], at, [])
    ensures o.Integer? ==>
      && status == Verdict([o], size) && dataSize == |Encode(o)|
      && Stored(old(buffer[..]), buffer[..], at, Written([o], size))
      && (status == Ok <==> dataSize <= size)
      && (status == Ok ==> ReadsBack(o, buffer[at..at + dataSize]))
  {
    if !o.Integer? {
      return InvalidArgument, 0;
    }
    OneLeaf(o, size);
    dataSize := if o.value >= 0x1_0000_0000 then 8 else 4;
    if size < 4 || (size < 8 && o.value >= 0x1_0000_0000) {
      return BufferTooSmall, dataSize;
    }
    CopyBytes(buffer, at, LittleEndian(o.value, dataSize));
    LeafReadsBack(o);
    assert buffer[..][at..at + dataSize] == buffer[at..at + dataSize];
    return Ok, dataSize;
  }

  method ExtractBuffer(o: Object, buffer: array<Byte>, at: nat, size: NvU32) returns (status: Status, dataSize: nat)
    requires at + size <= buffer.Length
    modifies buffer
    ensures !o.Buffer? ==> status == InvalidArgument && dataSize == 0 && Stored(old(buffer[..]), buffer[..], at, [])
    ensures o.Buffer? ==>
      && status == Verdict([o], size) && dataSize == |o.bytes|
      && Stored(old(buffer[..]), buffer[..], at, Written([o], size))
      && (status == Ok <==> |o.bytes| <= size)
      && (status == Ok ==> buffer[at..at + |o.bytes|] == o.bytes)
  {
    if !o.Buffer? {
      return InvalidArgument, 0;
    }
    OneLeaf(o, size);
    dataSize := |o.bytes|;
    if size < |o.bytes| {
      return BufferTooSmall, dataSize;
    }
    CopyBytes(buffer, at, o.bytes);
    assert buffer[..][at..at + |o.bytes|] == buffer[at..at + |o.bytes|];
    return Ok, dataSize;
  }

  /** The loop over the elements of a package. The remaining capacity is a 32-bit value from which
      the size of the last element is subtracted: it never goes below zero. */
  method ExtractPackage(o: Object, buffer: array<Byte>, at: nat, size: NvU32) returns (status: Status, dataSize: nat)
    requires at + size <= buffer.Length
    modifies buffer
    ensures !o.Package? ==> status == InvalidArgument && dataSize == 0 && Stored(old(buffer[..]), buffer[..], at, [])
    ensures o.Package? ==>
      && status == Verdict(Leaves(o), size)
      && Stored(old(buffer[..]), buffer[..], at, Written(Leaves(o), size))
      && (status == Ok ==> dataSize == |Flatten(Leaves(o))|)
    decreases o, 0
  {
    if !o.Package? {
      return InvalidArgument, 0;
    }
    var es := o.elements;
    ghost var start := buffer[..];
    status := Ok;
    dataSize := 0;
    var elementSize := 0;
    var pos, left: NvU32 := at, size;
    var i := 0;
    while i < |es|
      invariant 0 <= i <= |es| && status == Ok
      invariant elementSize <= left && pos + left == at + size && dataSize == pos - at + elementSize
      invariant Progress(es, i, size, at, start, buffer[..], dataSize)
    {
      pos := pos + elementSize;
      left := left - elementSize;
      status, elementSize := ExtractElement(es, i, buffer, pos, left, size, at, start);
      if status != Ok {
        return;
      }
      dataSize := dataSize + elementSize;
      i := i + 1;
    }
    PackageDone(es, size, at, start, buffer[..], dataSize);
  }

  /** One turn of that loop: an element that fails ends the package, and one that fits is one more. */
  method ExtractElement(es: seq<Object>, i: nat, buffer: array<Byte>, pos: nat, left: NvU32,
                        ghost cap: nat, ghost at: nat, ghost start: seq<Byte>)
    returns (status: Status, elementSize: nat)
    requires i < |es| && pos + left == at + cap <= buffer.Length && at <= pos
    requires Progress(es, i, cap, at, start, buffer[..], pos - at)
    modifies buffer
    ensures status == Ok ==>
      elementSize <= left && Progress(es, i + 1, cap, at, start, buffer[..], pos - at + elementSize)
    ensures status != Ok ==>
      status == Verdict(AllLeaves(es), cap) && Stored(start, buffer[..], at, Written(AllLeaves(es), cap))
    decreases es[i], 2
  {
    ghost var sofar := buffer[..];
    status, elementSize := ExtractObject(es[i], buffer, pos, left);
    if status != Ok {
      ElementFailed(es, i, cap, at, start, sofar, buffer[..], pos - at);
    } else {
      ElementTaken(es, i, cap, at, start, sofar, buffer[..], pos - at);
    }
  }

  /** The first `i` elements of a package went in completely. */
  ghost predicate Progress(es: seq<Object>, i: nat, cap: nat, at: nat, start: seq<Byte>, now: seq<Byte>, size: nat) {
    && i <= |es|
    && Fitting(AllLeaves(es[..i]), cap) == |AllLeaves(es[..i])|
    && size == |Flatten(AllLeaves(es[..i]))| <= cap
    && Stored(start, now, at, Flatten(AllLeaves(es[..i])))
  }

  lemma PackageDone(es: seq<Object>, cap: nat, at: nat, start: seq<Byte>, now: seq<Byte>, size: nat)
    requires Progress(es, |es|, cap, at, start, now, size)
    ensures Verdict(AllLeaves(es), cap) == Ok && size == |Flatten(AllLeaves(es))|
    ensures Stored(start, now, at, Written(AllLeaves(es), cap))
  {
    assert es[..|es|] == es;
    OkIffAllFits(AllLeaves(es), cap);
  }

  /** An element that fails ends the package with its own verdict. */
  lemma ElementFailed(es: seq<Object>, i: nat, cap: nat, at: nat,
                      start: seq<Byte>, sofar: seq<Byte>, now: seq<Byte>, size: nat)
    requires i < |es| && Progress(es, i, cap, at, start, sofar, size)
    requires Stored(sofar, now, at + size, Written(Leaves(es[i]), cap - size))
    requires Verdict(Leaves(es[i]), cap - size) != Ok
    ensures Verdict(AllLeaves(es), cap) == Verdict(Leaves(es[i]), cap - size)
    ensures Stored(start, now, at, Written(AllLeaves(es), cap))
  {
    AllLeavesAround(es, i);
    FailureStored(AllLeaves(es[..i]), Leaves(es[i]), AllLeaves(es[i + 1..]), cap, at, start, sofar, now, size);
  }

  lemma FailureStored(done: seq<Object>, x: seq<Object>, rest: seq<Object>, cap: nat, at: nat,
                      start: seq<Byte>, sofar: seq<Byte>, now: seq<Byte>, size: nat)
    requires Fitting(done, cap) == |done| && size == |Flatten(done)| <= cap
    requires Verdict(x, cap - size) != Ok
    requires Stored(start, sofar, at, Flatten(done))
    requires Stored(sofar, now, at + size, Written(x, cap - size))
    ensures Verdict(done + (x + rest), cap) == Verdict(x, cap - size)
    ensures Stored(start, now, at, Written(done + (x + rest), cap))
  {
    ElementFails(done, x, rest, cap);
    StoredInTurn(start, sofar, now, at, Flatten(done), Written(x, cap - |Flatten(done)|));
  }

  /** An element that goes in completely is one more. */
  lemma ElementTaken(es: seq<Object>, i: nat, cap: nat, at: nat,
                     start: seq<Byte>, sofar: seq<Byte>, now: seq<Byte>, size: nat)
    requires i < |es| && Progress(es, i, cap, at, start, sofar, size)
    requires Stored(sofar, now, at + size, Written(Leaves(es[i]), cap - size))
    requires Verdict(Leaves(es[i]), cap - size) == Ok
    ensures Progress(es, i + 1, cap, at, start, now, size + |Flatten(Leaves(es[i]))|)
  {
    var done, x := AllLeaves(es[..i]), Leaves(es[i]);
    StoredInTurn(start, sofar, now, at, Flatten(done), Written(x, cap - size));
    AllLeavesSplit(es, i);
    ElementFits(done, x, cap);
    assert AllLeaves(es[..i + 1]) == done + x;
  }

  lemma ElementFails(done: seq<Object>, x: seq<Object>, rest: seq<Object>, cap: nat)
    requires Fitting(done, cap) == |done| && |Flatten(done)| <= cap
    requires Verdict(x, cap - |Flatten(done)|) != Ok
    ensures Verdict(done + (x + rest), cap) == Verdict(x, cap - |Flatten(done)|)
    ensures Written(done + (x + rest), cap) == Flatten(done) + Written(x, cap - |Flatten(done)|)
  {
    FailureStaysFailure(x, rest, cap - |Flatten(done)|);
    FittingAppend(done, x + rest, cap);
  }

  lemma ElementFits(done: seq<Object>, x: seq<Object>, cap: nat)
    requires Fitting(done, cap) == |done| && |Flatten(done)| <= cap
    requires Verdict(x, cap - |Flatten(done)|) == Ok
    ensures Fitting(done + x, cap) == |done + x|
    ensures Flatten(done + x) == Flatten(done) + Written(x, cap - |Flatten(done)|)
    ensures |Flatten(done + x)| == |Flatten(done)| + |Flatten(x)| <= cap
  {
    OkIffAllFits(x, cap - |Flatten(done)|);
    FittingAppend(done, x, cap);
    FlattenAppend(done, x);
  }

  lemma FailureStaysFailure(a: seq<Object>, b: seq<Object>, cap: nat)
    requires Verdict(a, cap) != Ok
    ensures Verdict(a + b, cap) == Verdict(a, cap) && Written(a + b, cap) == Written(a, cap)
  {
    FittingAppend(a, b, cap);
  }

  /** `nv_acpi_extract_object`: the verdict is that of the leaves, and what is stored is their
      encoding up to the first obstacle, with every other byte of the buffer untouched. */
  method ExtractObject(o: Object, buffer: array<Byte>, at: nat, size: NvU32) returns (status: Status, dataSize: nat)
    requires at + size <= buffer.Length
    modifies buffer
    ensures status == Verdict(Leaves(o), size)
    ensures Stored(old(buffer[..]), buffer[..], at, Written(Leaves(o), size))
    ensures status == Ok ==> dataSize == |Flatten(Leaves(o))| <= size
    decreases o, 1
  {
    OneLeaf(o, size);
    OkIffAllFits(Leaves(o), size);
    match o
    case Integer(_) => status, dataSize := ExtractInteger(o, buffer, at, size);
    case Buffer(_) => status, dataSize := ExtractBuffer(o, buffer, at, size);
    case Package(_) => status, dataSize := ExtractPackage(o, buffer, at, size);
    case Other => status, dataSize := NotSupported, 0;
  }
}
