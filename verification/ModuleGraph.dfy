/** Paths in the module dependency graph of utils/build-depends.cpp, and the recursive search
    `DependsOn` over it. */
module ModuleGraph {
  import opened Options

  type Module = string

  /** `depends`: a module that is not a key has no dependencies. */
  type Graph = map<Module, seq<Module>>

  function Deps(g: Graph, m: Module): seq<Module> {
    if m in g then g[m] else []
  }

  ghost predicate Edge(g: Graph, a: Module, b: Module) {
    b in Deps(g, a)
  }

  /** `p` lists the modules along a path of at least one edge. */
  ghost predicate IsPath(g: Graph, p: seq<Module>) {
    |p| >= 2 && forall i :: 0 <= i < |p| - 1 ==> Edge(g, p[i], p[i + 1])
  }

  ghost predicate PathBetween(g: Graph, p: seq<Module>, a: Module, b: Module) {
    IsPath(g, p) && p[0] == a && p[|p| - 1] == b
  }

  /** `b` is reachable from `a` by one edge or more. */
  ghost predicate Reach(g: Graph, a: Module, b: Module) {
    exists p :: PathBetween(g, p, a, b)
  }

  ghost predicate Acyclic(g: Graph) {
    forall m :: !Reach(g, m, m)
  }

  ghost predicate SameReachability(g: Graph, h: Graph) {
    forall a, b :: Reach(g, a, b) <==> Reach(h, a, b)
  }

  ghost function Nodes(g: Graph): set<Module> {
    g.Keys + set k, d | k in g && d in g[k] :: d
  }

  // ------------------------------------------------------------------ paths

  lemma EdgeReaches(g: Graph, a: Module, b: Module)
    requires Edge(g, a, b)
    ensures Reach(g, a, b)
  {
    assert PathBetween(g, [a, b], a, b);
  }

  lemma ReachTransitive(g: Graph, a: Module, b: Module, c: Module)
    requires Reach(g, a, b) && Reach(g, b, c)
    ensures Reach(g, a, c)
  {
    var p :| PathBetween(g, p, a, b);
    var q :| PathBetween(g, q, b, c);
    var r := p + q[1..];
    forall i | 0 <= i < |r| - 1 ensures Edge(g, r[i], r[i + 1]) {
      if i >= |p| - 1 {
        assert r[i] == q[i - (|p| - 1)] && r[i + 1] == q[i - (|p| - 1) + 1];
      }
    }
    assert PathBetween(g, r, a, c);
  }

  /** A path leaves through some direct dependency. */
  lemma FirstHop(g: Graph, a: Module, b: Module) returns (d: Module)
    requires Reach(g, a, b)
    ensures Edge(g, a, d)
    ensures d == b || Reach(g, d, b)
  {
    var p :| PathBetween(g, p, a, b);
    d := p[1];
    assert Edge(g, p[0], p[1]);
    if |p| > 2 {
      var q := p[1..];
      forall i | 0 <= i < |q| - 1 ensures Edge(g, q[i], q[i + 1]) {
        assert Edge(g, p[i + 1], p[i + 2]);
      }
      assert PathBetween(g, q, d, b);
    }
  }

  lemma ReachStaysInNodes(g: Graph, a: Module, b: Module)
    requires Reach(g, a, b)
    ensures a in Nodes(g) && b in Nodes(g)
  {
    var p :| PathBetween(g, p, a, b);
    assert Edge(g, p[0], p[1]);
    assert Edge(g, p[|p| - 2], p[|p| - 2 + 1]);
  }

  // ------------------------------------------------------------------ DependsOn

  ghost function ReachSet(g: Graph, n: Module): set<Module> {
    set x | x in Nodes(g) && Reach(g, n, x)
  }

  /** Some cycle can be entered by searching from `n`. */
  ghost predicate CycleBelow(g: Graph, n: Module) {
    exists c :: (c == n || Reach(g, n, c)) && Reach(g, c, c)
  }

  /** Away from cycles, one recursive call shrinks the set of modules still reachable. */
  lemma HopShrinks(g: Graph, n: Module, d: Module)
    requires Edge(g, n, d) && !CycleBelow(g, n)
    ensures ReachSet(g, d) < ReachSet(g, n)
    ensures !CycleBelow(g, d)
  {
    EdgeReaches(g, n, d);
    forall x | Reach(g, d, x) ensures Reach(g, n, x) {
      ReachTransitive(g, n, d, x);
    }
    ReachStaysInNodes(g, n, d);
    assert d in ReachSet(g, n) && d !in ReachSet(g, d);
  }

  // ------------------------------------------------------------------ when the search returns

  /** The same search with the call stack cut at `depth` frames; `None` when that is not enough. */
  function Search(g: Graph, n: Module, t: Module, depth: nat): Option<bool>
    decreases depth, 0
  {
    if depth == 0 then None else SearchList(g, Deps(g, n), t, depth - 1)
  }

  function SearchList(g: Graph, ds: seq<Module>, t: Module, depth: nat): Option<bool>
    decreases depth, |ds| + 1
  {
    if ds == [] then Some(false)
    else if ds[0] == t then Some(true)
    else
      var below := Search(g, ds[0], t, depth);
      if below == Some(false) then SearchList(g, ds[1..], t, depth) else below
  }

  ghost predicate Returns(g: Graph, n: Module, t: Module) {
    exists depth: nat :: Search(g, n, t, depth).Some?
  }

  /** `ds` leads to `t` in one edge or more. */
  ghost predicate ListReaches(g: Graph, ds: seq<Module>, t: Module) {
    exists d :: d in ds && (d == t || Reach(g, d, t))
  }

  lemma ListReachesFirst(g: Graph, ds: seq<Module>, t: Module)
    requires ds != []
    ensures ListReaches(g, ds, t) <==> ds[0] == t || Reach(g, ds[0], t) || ListReaches(g, ds[1..], t)
  {
    if ListReaches(g, ds, t) {
      var d :| d in ds && (d == t || Reach(g, d, t));
      assert d == ds[0] || d in ds[1..];
    }
    if ds[0] == t || Reach(g, ds[0], t) {
      assert ds[0] in ds;
    }
    if ListReaches(g, ds[1..], t) {
      var d :| d in ds[1..] && (d == t || Reach(g, d, t));
      assert d in ds;
    }
  }

  lemma {:induction false} SearchSound(g: Graph, n: Module, t: Module, depth: nat)
    ensures Search(g, n, t, depth).Some? ==> (Search(g, n, t, depth).value <==> Reach(g, n, t))
    decreases depth, 0
  {
    if depth > 0 {
      SearchListSound(g, Deps(g, n), t, depth - 1);
      if Reach(g, n, t) {
        var d := FirstHop(g, n, t);
        assert d in Deps(g, n);
      }
      if ListReaches(g, Deps(g, n), t) {
        var d :| d in Deps(g, n) && (d == t || Reach(g, d, t));
        EdgeReaches(g, n, d);
        if d != t { ReachTransitive(g, n, d, t); }
      }
    }
  }

  lemma {:induction false} SearchListSound(g: Graph, ds: seq<Module>, t: Module, depth: nat)
    ensures SearchList(g, ds, t, depth).Some? ==> (SearchList(g, ds, t, depth).value <==> ListReaches(g, ds, t))
    decreases depth, |ds| + 1
  {
    if ds != [] {
      ListReachesFirst(g, ds, t);
      SearchSound(g, ds[0], t, depth);
      SearchListSound(g, ds[1..], t, depth);
    }
  }

  lemma {:induction false} SearchReturns(g: Graph, n: Module, t: Module, depth: nat)
    requires !CycleBelow(g, n) && depth > |ReachSet(g, n)|
    ensures Search(g, n, t, depth).Some?
    decreases depth, 0
  {
    forall d | d in Deps(g, n)
      ensures !CycleBelow(g, d) && depth - 1 > |ReachSet(g, d)|
    {
      HopShrinks(g, n, d);
      SubsetSmaller(ReachSet(g, d), ReachSet(g, n));
    }
    SearchListReturns(g, Deps(g, n), t, depth - 1);
  }

  lemma {:induction false} SearchListReturns(g: Graph, ds: seq<Module>, t: Module, depth: nat)
    requires forall d :: d in ds ==> !CycleBelow(g, d) && depth > |ReachSet(g, d)|
    ensures SearchList(g, ds, t, depth).Some?
    decreases depth, |ds| + 1
  {
    if ds != [] {
      SearchReturns(g, ds[0], t, depth);
      SearchListReturns(g, ds[1..], t, depth);
    }
  }

  lemma SubsetSmaller(a: set<Module>, b: set<Module>)
    requires a < b
    ensures |a| < |b|
  {
    assert b == a + (b - a);
    assert b - a != {};
  }

  lemma {:induction false} SearchDiverges(g: Graph, n: Module, t: Module, depth: nat)
    requires CycleBelow(g, n) && !Reach(g, n, t)
    ensures Search(g, n, t, depth) == None
    decreases depth, 0
  {
    if depth > 0 {
      var c :| (c == n || Reach(g, n, c)) && Reach(g, c, c);
      var d := FirstHop(g, n, c);
      assert CycleBelow(g, d);
      forall e | e in Deps(g, n) ensures e != t && !Reach(g, e, t) {
        EdgeReaches(g, n, e);
        if Reach(g, e, t) { ReachTransitive(g, n, e, t); }
      }
      SearchListDiverges(g, Deps(g, n), t, d, depth - 1);
    }
  }

  lemma {:induction false} SearchListDiverges(g: Graph, ds: seq<Module>, t: Module, bad: Module, depth: nat)
    requires bad in ds && CycleBelow(g, bad)
    requires forall d :: d in ds ==> d != t && !Reach(g, d, t)
    ensures SearchList(g, ds, t, depth) == None
    decreases depth, |ds| + 1
  {
    SearchSound(g, ds[0], t, depth);
    assert ds[0] in ds;
    if ds[0] == bad {
      SearchDiverges(g, bad, t, depth);
    } else {
      assert forall d :: d in ds[1..] ==> d in ds;
      SearchListDiverges(g, ds[1..], t, bad, depth);
    }
  }

  // ------------------------------------------------------------------ exactly when it returns

  /** A list entry that the search looks into and comes back from without having found `t`. */
  ghost predicate Skipped(g: Graph, e: Module, t: Module) {
    e != t && !CycleBelow(g, e) && !Reach(g, e, t)
  }

  /** `b` stands at place `k` in the list of `a`, behind entries that are all skipped. */
  ghost predicate ClearAt(g: Graph, a: Module, b: Module, t: Module, k: nat) {
    k < |Deps(g, a)| && Deps(g, a)[k] == b && forall j :: 0 <= j < k ==> Skipped(g, Deps(g, a)[j], t)
  }

  ghost predicate ClearHop(g: Graph, a: Module, b: Module, t: Module) {
    exists k: nat :: ClearAt(g, a, b, t, k)
  }

  /** `p` leads to `t` by clear hops. */
  ghost predicate ClearPath(g: Graph, p: seq<Module>, t: Module) {
    |p| >= 2 && p[|p| - 1] == t && forall i :: 0 <= i < |p| - 1 ==> ClearHop(g, p[i], p[i + 1], t)
  }

  ghost predicate ClearWay(g: Graph, n: Module, t: Module) {
    exists p :: ClearPath(g, p, t) && p[0] == n
  }

  lemma SkippedAnswersFalse(g: Graph, e: Module, t: Module, depth: nat)
    requires Skipped(g, e, t) && depth > |Nodes(g)|
    ensures Search(g, e, t, depth) == Some(false)
  {
    forall x | x in ReachSet(g, e)
      ensures x in Nodes(g)
    {
      ReachStaysInNodes(g, e, x);
    }
    if ReachSet(g, e) < Nodes(g) {
      SubsetSmaller(ReachSet(g, e), Nodes(g));
    } else {
      assert ReachSet(g, e) == Nodes(g);
    }
    SearchReturns(g, e, t, depth);
    SearchSound(g, e, t, depth);
  }

  lemma {:induction false} ListFinds(g: Graph, ds: seq<Module>, t: Module, k: nat, depth: nat)
    requires k < |ds| && depth > |Nodes(g)|
    requires forall j :: 0 <= j < k ==> Skipped(g, ds[j], t)
    requires ds[k] == t || Search(g, ds[k], t, depth) == Some(true)
    ensures SearchList(g, ds, t, depth) == Some(true)
    decreases k
  {
    if k > 0 {
      SkippedAnswersFalse(g, ds[0], t, depth);
      ListFinds(g, ds[1..], t, k - 1, depth);
    }
  }

  /** Along a clear path the search finds its target. */
  lemma {:induction false} ClearPathFound(g: Graph, p: seq<Module>, t: Module, depth: nat)
    requires ClearPath(g, p, t) && depth > |p| + |Nodes(g)|
    ensures Search(g, p[0], t, depth) == Some(true)
    decreases |p|
  {
    assert ClearHop(g, p[0], p[1], t);
    var k: nat :| ClearAt(g, p[0], p[1], t, k);
    if |p| > 2 {
      forall i | 0 <= i < |p| - 2
        ensures ClearHop(g, p[1..][i], p[1..][i + 1], t)
      {
        assert ClearHop(g, p[i + 1], p[i + 2], t);
      }
      ClearPathFound(g, p[1..], t, depth - 1);
    }
    ListFinds(g, Deps(g, p[0]), t, k, depth - 1);
  }

  /** Where a list answers true, the answer comes from an entry behind skipped ones. */
  lemma {:induction false} ListFound(g: Graph, ds: seq<Module>, t: Module, depth: nat) returns (k: nat)
    requires SearchList(g, ds, t, depth) == Some(true)
    ensures k < |ds| && forall j :: 0 <= j < k ==> Skipped(g, ds[j], t)
    ensures ds[k] == t || Search(g, ds[k], t, depth) == Some(true)
    decreases |ds|
  {
    if ds[0] == t || Search(g, ds[0], t, depth) == Some(true) {
      k := 0;
    } else {
      SearchSound(g, ds[0], t, depth);
      if CycleBelow(g, ds[0]) {
        SearchDiverges(g, ds[0], t, depth);
      }
      k := ListFound(g, ds[1..], t, depth);
      k := k + 1;
    }
  }

  /** So a search that answers true has gone along a clear path. */
  lemma {:induction false} FoundHasClearPath(g: Graph, n: Module, t: Module, depth: nat) returns (p: seq<Module>)
    requires Search(g, n, t, depth) == Some(true)
    ensures ClearPath(g, p, t) && p[0] == n
    decreases depth
  {
    var k := ListFound(g, Deps(g, n), t, depth - 1);
    var d := Deps(g, n)[k];
    assert ClearAt(g, n, d, t, k);
    if d == t {
      p := [n, d];
    } else {
      var q := FoundHasClearPath(g, d, t, depth - 1);
      p := [n] + q;
      forall i | 0 <= i < |p| - 1
        ensures ClearHop(g, p[i], p[i + 1], t)
      {
        assert i > 0 ==> ClearHop(g, q[i - 1], q[i], t);
      }
    }
  }

  /** For every graph, start and target: the search comes back exactly if no cycle can be entered from
      the start, or a path leads to the target on which each list has only entries in front that the
      search comes back from. Whenever it comes back its answer is reachability. */
  lemma SearchTerminationIsExact(g: Graph, n: Module, t: Module)
    ensures Returns(g, n, t) <==> !CycleBelow(g, n) || ClearWay(g, n, t)
    ensures forall depth: nat :: Search(g, n, t, depth).Some? ==> (Search(g, n, t, depth).value <==> Reach(g, n, t))
  {
    forall depth: nat
      ensures Search(g, n, t, depth).Some? ==> (Search(g, n, t, depth).value <==> Reach(g, n, t))
    {
      SearchSound(g, n, t, depth);
    }
    if Returns(g, n, t) {
      var depth: nat :| Search(g, n, t, depth).Some?;
      if Search(g, n, t, depth).value {
        var p := FoundHasClearPath(g, n, t, depth);
      } else if CycleBelow(g, n) {
        SearchDiverges(g, n, t, depth);
      }
    }
    if !CycleBelow(g, n) {
      SearchReturns(g, n, t, |ReachSet(g, n)| + 1);
    }
    if ClearWay(g, n, t) {
      var p :| ClearPath(g, p, t) && p[0] == n;
      ClearPathFound(g, p, t, |p| + |Nodes(g)| + 1);
    }
  }

  /** A module that depends on itself: searching from it for another one never ends. And with a second
      dependency the order of the list decides whether that one is found. */
  lemma OrderDecides()
    ensures !Returns(map["a" := ["a"]], "a", "b")
    ensures Reach(map["a" := ["a", "b"]], "a", "b") && !Returns(map["a" := ["a", "b"]], "a", "b")
    ensures Returns(map["a" := ["b", "a"]], "a", "b")
  {
    var loop, loopFirst, loopLast := map["a" := ["a"]], map["a" := ["a", "b"]], map["a" := ["b", "a"]];
    forall depth: nat
      ensures Search(loop, "a", "b", depth) == None && Search(loopFirst, "a", "b", depth) == None
    {
      SelfFirstDiverges(loop, "a", "b", depth);
      SelfFirstDiverges(loopFirst, "a", "b", depth);
    }
    EdgeReaches(loopFirst, "a", "b");
    assert Search(loopLast, "a", "b", 1) == Some(true);
  }

  lemma {:induction false} SelfFirstDiverges(g: Graph, n: Module, t: Module, depth: nat)
    requires n != t && Deps(g, n) != [] && Deps(g, n)[0] == n
    ensures Search(g, n, t, depth) == None
    decreases depth
  {
    if depth > 0 {
      SelfFirstDiverges(g, n, t, depth - 1);
    }
  }

  // ------------------------------------------------------------------ the search

  /** The smallest sufficient depth up to `bound`. */
  ghost function LeastUpTo(g: Graph, n: Module, t: Module, bound: nat): (depth: nat)
    requires Search(g, n, t, bound).Some?
    ensures Search(g, n, t, depth).Some?
    ensures forall d: nat :: d < depth ==> Search(g, n, t, d) == None
    decreases bound
  {
    if d: nat :| d < bound && Search(g, n, t, d).Some? then LeastUpTo(g, n, t, d) else bound
  }

  /** How many frames the search takes, where it returns at all. */
  ghost function Frames(g: Graph, n: Module, t: Module): (depth: nat)
    ensures Returns(g, n, t) ==>
              Search(g, n, t, depth).Some? && forall d: nat :: d < depth ==> Search(g, n, t, d) == None
  {
    if d: nat :| Search(g, n, t, d).Some? then LeastUpTo(g, n, t, d) else 0
  }

  /** The recursive search of `DependsOn`. Asking about the null module, or starting from it,
      answers false: its list is empty. Otherwise it asks of the graph exactly what it takes for the
      search to return. */
  method DependsOn(g: Graph, start: Option<Module>, target: Option<Module>) returns (found: bool)
    requires start.Some? && target.Some? ==> !CycleBelow(g, start.value) || ClearWay(g, start.value, target.value)
    ensures found <==> start.Some? && target.Some? && Reach(g, start.value, target.value)
    decreases if start.Some? && target.Some? then Frames(g, start.value, target.value) else 0
  {
    if target == None || start == None {
      return false;
    }
    var n, t := start.value, target.value;
    SearchTerminationIsExact(g, n, t);
    ghost var depth := Frames(g, n, t);
    var v := Deps(g, n);
    assert v[0..] == v;
    for i := 0 to |v|
      invariant Search(g, n, t, depth) == SearchList(g, v[i..], t, depth - 1)
    {
      assert v[i..][0] == v[i] && v[i..][1..] == v[i + 1..];
      if v[i] == t {
        return true;
      }
      SearchTerminationIsExact(g, v[i], t);
      assert Search(g, v[i], t, depth - 1).Some?;
      var below := DependsOn(g, Some(v[i]), target);
      if below {
        return true;
      }
    }
    return false;
  }
}
