/** The reduction loop at the end of `main` in utils/build-depends.cpp: it nulls, in a copy of
    each dependency list, the entries that another entry already reaches. */
module TransitiveReduction {
  import opened Options
  import opened ModuleGraph

  // ------------------------------------------------------------------ the plain filter

  /** `d` stays in the list `deps` of some module: no other listed module leads to it. */
  ghost predicate Kept(g: Graph, deps: seq<Module>, d: Module) {
    forall e :: e in deps && e != d ==> !Reach(g, e, d)
  }

  /** The entries of `deps[..n]` that stay, in order. */
  ghost function KeptPrefix(g: Graph, deps: seq<Module>, n: nat): seq<Module>
    requires n <= |deps|
    ensures forall d :: d in KeptPrefix(g, deps, n) <==> d in deps[..n] && Kept(g, deps, d)
  {
    if n == 0 then [] else
    KeptPrefix(g, deps, n - 1) + (if Kept(g, deps, deps[n - 1]) then [deps[n - 1]] else [])
  }

  ghost function KeptList(g: Graph, deps: seq<Module>): (kept: seq<Module>)
    ensures forall d :: d in kept <==> d in deps && Kept(g, deps, d)
  {
    assert deps[..|deps|] == deps;
    KeptPrefix(g, deps, |deps|)
  }

  ghost function Reduced(g: Graph): Graph {
    map m | m in g :: KeptList(g, g[m])
  }

  // ------------------------------------------------------------------ the in-place pass

  /** One list, reduced in place. An entry that has been nulled no longer takes part in later
      comparisons, and the search always runs on the full graph `g`. */
  method ReduceList(g: Graph, deps: seq<Module>) returns (kept: seq<Module>)
    requires Acyclic(g)
    ensures kept == KeptList(g, deps)
  {
    if |deps| <= 1 {
      assert deps != [] ==> Kept(g, deps, deps[0]) && KeptPrefix(g, deps, 1) == deps;
      return deps;
    }
    var v := new Option<Module>[|deps|](i requires 0 <= i < |deps| => Some(deps[i]));
    for i := 0 to |deps|
      invariant forall k :: i <= k < |deps| ==> v[k] == Some(deps[k])
      invariant forall k :: 0 <= k < i ==> v[k] == if Kept(g, deps, deps[k]) then Some(deps[k]) else None
    {
      NullIfReached(g, deps, v, i);
    }
    kept := [];
    for i := 0 to |deps|
      invariant kept == KeptPrefix(g, deps, i)
    {
      if v[i].Some? {
        kept := kept + [v[i].value];
      }
    }
  }

  /** The inner loop: entry `i` is compared with every entry that is still there. */
  method NullIfReached(g: Graph, deps: seq<Module>, v: array<Option<Module>>, i: nat)
    requires Acyclic(g)
    requires v.Length == |deps| && i < |deps|
    requires forall k :: i <= k < |deps| ==> v[k] == Some(deps[k])
    requires forall k :: 0 <= k < i ==> v[k] == if Kept(g, deps, deps[k]) then Some(deps[k]) else None
    modifies v
    ensures v[i] == if Kept(g, deps, deps[i]) then Some(deps[i]) else None
    ensures forall k :: 0 <= k < |deps| && k != i ==> v[k] == old(v[k])
  {
    var j := 0;
    while j < |deps|
      invariant 0 <= j <= |deps|
      invariant forall k :: 0 <= k < |deps| ==> v[k] == old(v[k])
      invariant forall k :: 0 <= k < j && v[k].Some? && deps[k] != deps[i] ==> !Reach(g, deps[k], deps[i])
    {
      if v[i] != v[j] {
        var reached := DependsOn(g, v[j], v[i]);
        if reached {
          assert deps[j] in deps && Reach(g, deps[j], deps[i]);
          v[i] := None;
          return;
        }
      }
      j := j + 1;
    }
    SurvivorsSuffice(g, deps, v[..], i);
  }

  /** Skipping the entries that are already nulled loses nothing: if any listed module leads to
      entry `i`, then one that was not nulled does. */
  lemma SurvivorsSuffice(g: Graph, deps: seq<Module>, v: seq<Option<Module>>, i: nat)
    requires Acyclic(g)
    requires |v| == |deps| && i < |deps|
    requires forall k :: i <= k < |deps| ==> v[k] == Some(deps[k])
    requires forall k :: 0 <= k < i ==> v[k] == if Kept(g, deps, deps[k]) then Some(deps[k]) else None
    requires forall k :: 0 <= k < |deps| && v[k].Some? && deps[k] != deps[i] ==> !Reach(g, deps[k], deps[i])
    ensures Kept(g, deps, deps[i])
  {
    if !Kept(g, deps, deps[i]) {
      var e :| e in deps && e != deps[i] && Reach(g, e, deps[i]);
      var top := TopmostAbove(g, deps, e, deps[i]);
    }
  }

  /** Among the listed modules that lead to `d`, climb from `e` to one that stays. */
  lemma {:induction false} TopmostAbove(g: Graph, deps: seq<Module>, e: Module, d: Module) returns (top: Module)
    requires Acyclic(g)
    requires e in deps && Reach(g, e, d)
    ensures top in deps && Reach(g, top, d) && top != d && Kept(g, deps, top)
    decreases Nodes(g) - ReachSet(g, e)
  {
    if Kept(g, deps, e) {
      top := e;
    } else {
      var f :| f in deps && f != e && Reach(g, f, e);
      ReachTransitive(g, f, e, d);
      forall x | Reach(g, e, x) ensures Reach(g, f, x) { ReachTransitive(g, f, e, x); }
      ReachStaysInNodes(g, f, e);
      assert e in ReachSet(g, f) && e !in ReachSet(g, e);
      top := TopmostAbove(g, deps, f, d);
    }
  }

  /** The outer loop over all modules. Each list is reduced in a copy, against the full graph. */
  method ReduceAll(g: Graph) returns (r: Graph)
    requires Acyclic(g)
    ensures r == Reduced(g)
    ensures IsTransitiveReduction(g, r)
  {
    r := map[];
    var todo := g.Keys;
    while todo != {}
      invariant todo <= g.Keys && r.Keys == g.Keys - todo
      invariant forall m :: m in r ==> r[m] == KeptList(g, g[m])
      decreases todo
    {
      var m :| m in todo;
      var kept := ReduceList(g, g[m]);
      r := r[m := kept];
      todo := todo - {m};
    }
    ReducedIsTransitiveReduction(g);
  }

  // ------------------------------------------------------------------ what the result is

  /** `g` without the edges from `a` to `b`. */
  ghost function Drop(g: Graph, a: Module, b: Module): Graph {
    map m | m in g :: if m == a then Without(g[m], b) else g[m]
  }

  ghost function Without(ds: seq<Module>, b: Module): (r: seq<Module>)
    ensures forall d :: d in r <==> d in ds && d != b
  {
    if ds == [] then [] else (if ds[0] == b then [] else [ds[0]]) + Without(ds[1..], b)
  }

  /** The defining property: same reachability, no edge to spare, and contained in every graph
      with that reachability, so there is only one. */
  ghost predicate IsTransitiveReduction(g: Graph, r: Graph) {
    && SameReachability(g, r)
    && (forall a, b :: Edge(r, a, b) ==> !SameReachability(g, Drop(r, a, b)))
    && (forall h: Graph, a, b :: SameReachability(g, h) && Edge(r, a, b) ==> Edge(h, a, b))
  }

  ghost function Between(g: Graph, a: Module, b: Module): set<Module> {
    set x | x in Nodes(g) && Reach(g, a, x) && Reach(g, x, b)
  }

  lemma BetweenShrinks(g: Graph, a: Module, c: Module, b: Module)
    requires Acyclic(g) && Reach(g, a, c) && Reach(g, c, b)
    ensures Between(g, a, c) < Between(g, a, b)
    ensures Between(g, c, b) < Between(g, a, b)
  {
    ReachStaysInNodes(g, a, c);
    forall x | Reach(g, x, c) ensures Reach(g, x, b) { ReachTransitive(g, x, c, b); }
    forall x | Reach(g, c, x) ensures Reach(g, a, x) { ReachTransitive(g, a, c, x); }
    assert c in Between(g, a, b) && c !in Between(g, a, c) && c !in Between(g, c, b);
  }

  /** Every path of the full graph has a path of kept edges beside it. */
  lemma {:induction false} ReducedStillReaches(g: Graph, a: Module, b: Module)
    requires Acyclic(g) && Reach(g, a, b)
    ensures Reach(Reduced(g), a, b)
    decreases Between(g, a, b)
  {
    if c :| Reach(g, a, c) && Reach(g, c, b) {
      BetweenShrinks(g, a, c, b);
      ReducedStillReaches(g, a, c);
      ReducedStillReaches(g, c, b);
      ReachTransitive(Reduced(g), a, c, b);
    } else {
      var d := FirstHop(g, a, b);
      EdgeReaches(g, a, d);
      assert d == b;
      forall e | e in g[a] && e != b ensures !Reach(g, e, b) {
        EdgeReaches(g, a, e);
      }
      assert Kept(g, g[a], b);
      EdgeReaches(Reduced(g), a, b);
    }
  }

  lemma ReducedReachesNoMore(g: Graph, a: Module, b: Module)
    requires Reach(Reduced(g), a, b)
    ensures Reach(g, a, b)
  {
    var p :| PathBetween(Reduced(g), p, a, b);
    forall i | 0 <= i < |p| - 1 ensures Edge(g, p[i], p[i + 1]) {
      assert Edge(Reduced(g), p[i], p[i + 1]);
    }
    assert PathBetween(g, p, a, b);
  }

  /** A kept edge has no detour, so every graph that reaches the same pairs must contain it. */
  lemma KeptEdgeIsForced(g: Graph, h: Graph, a: Module, b: Module)
    requires Acyclic(g) && SameReachability(g, h) && Edge(Reduced(g), a, b)
    ensures Edge(h, a, b)
  {
    EdgeReaches(g, a, b);
    assert Reach(h, a, b);
    var c := FirstHop(h, a, b);
    if c != b {
      EdgeReaches(h, a, c);
      assert Reach(g, a, c) && Reach(g, c, b);
      var d := FirstHop(g, a, c);
      if d != c { ReachTransitive(g, d, c, b); }
    }
  }

  /** The reduced graph is the transitive reduction of every acyclic graph, duplicates in the
      lists or not. */
  lemma ReducedIsTransitiveReduction(g: Graph)
    requires Acyclic(g)
    ensures IsTransitiveReduction(g, Reduced(g))
  {
    var r := Reduced(g);
    forall a, b ensures Reach(g, a, b) <==> Reach(r, a, b) {
      if Reach(g, a, b) { ReducedStillReaches(g, a, b); }
      if Reach(r, a, b) { ReducedReachesNoMore(g, a, b); }
    }
    forall h: Graph, a, b | SameReachability(g, h) && Edge(r, a, b) ensures Edge(h, a, b) {
      KeptEdgeIsForced(g, h, a, b);
    }
    forall a, b | Edge(r, a, b) ensures !SameReachability(g, Drop(r, a, b)) {
      assert !Edge(Drop(r, a, b), a, b);
      if SameReachability(g, Drop(r, a, b)) { KeptEdgeIsForced(g, Drop(r, a, b), a, b); }
    }
  }
}
