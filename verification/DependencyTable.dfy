/** The tables that utils/build-depends.cpp fills while it reads module lines: `modules`, which
    interns names, and `depends`, which lists dependencies by address. */
module DependencyTable {

  /** What the lines declare for `name`, read off the lines themselves. A line's first key is the
      module; a line with fewer than two keys declares nothing. */
  function Declared(lines: seq<seq<string>>, name: string): seq<string> {
    if lines == [] then [] else
    var line := lines[|lines| - 1];
    Declared(lines[..|lines| - 1], name) + LineDeclares(line, name)
  }

  function LineDeclares(line: seq<string>, name: string): seq<string> {
    if |line| > 1 && line[0] == name then line[1..] else []
  }

  /** That is: `dep` is declared for `name` exactly if it stands behind `name` at the head of some line. */
  lemma {:induction false} DeclaredIff(lines: seq<seq<string>>, name: string, dep: string)
    ensures dep in Declared(lines, name) <==>
              exists i, k :: 0 <= i < |lines| && 1 <= k < |lines[i]| && lines[i][0] == name && lines[i][k] == dep
    decreases |lines|
  {
    if lines != [] {
      var n := |lines| - 1;
      DeclaredIff(lines[..n], name, dep);
      assert forall i :: 0 <= i < n ==> lines[..n][i] == lines[i];
      LineDeclaresIff(lines[n], name, dep);
    }
  }

  lemma LineDeclaresIff(line: seq<string>, name: string, dep: string)
    ensures dep in LineDeclares(line, name) <==>
              exists k :: 1 <= k < |line| && line[0] == name && line[k] == dep
  {
    if dep in LineDeclares(line, name) {
      var k :| 0 <= k < |line[1..]| && line[1..][k] == dep;
      assert line[k + 1] == dep;
    }
    if k :| 1 <= k < |line| && line[0] == name && line[k] == dep {
      assert line[1..][k - 1] == dep;
    }
  }

  ghost predicate Consistent(names: seq<string>, depends: map<nat, seq<nat>>) {
    && (forall i, j :: 0 <= i < j < |names| ==> names[i] != names[j])
    && (forall m :: m in depends ==> m < |names|)
    && (forall m, k :: m in depends && 0 <= k < |depends[m]| ==> depends[m][k] < |names|)
  }

  /** The dependency list of the module called `name`, by name. */
  ghost function ByName(names: seq<string>, depends: map<nat, seq<nat>>, name: string): seq<string>
    requires Consistent(names, depends)
  {
    if m :| m in depends && names[m] == name
    then seq(|depends[m]|, k requires 0 <= k < |depends[m]| => names[depends[m][k]])
    else []
  }

  class Table {
    /** Element `i` of `modules` lives at address `i`; addresses never move. */
    var names: seq<string>
    var depends: map<nat, seq<nat>>

    ghost predicate Valid()
      reads this
    {
      Consistent(names, depends)
    }

    ghost function NamedDeps(name: string): seq<string>
      requires Valid()
      reads this
    {
      ByName(names, depends, name)
    }

    constructor ()
      ensures Valid() && names == [] && depends == map[]
    {
      names, depends := [], map[];
    }

    /** `getModule`: equal names get equal addresses, different names different ones, and an
        address once handed out keeps its name. */
    method GetModule(name: string) returns (m: nat)
      requires Valid()
      modifies this`names
      ensures Valid()
      ensures m < |names| && names[m] == name
      ensures names == if name in old(names) then old(names) else old(names) + [name]
      ensures forall n :: NamedDeps(n) == old(NamedDeps(n))
    {
      m := 0;
      while m < |names| && names[m] != name
        invariant 0 <= m <= |names|
        invariant forall i :: 0 <= i < m ==> names[i] != name
      {
        m := m + 1;
      }
      if m == |names| {
        names := names + [name];
      }
    }

    /** `v.push_back(getModule(key))` on the list of `front`. */
    method PushBack(front: nat, key: string)
      requires Valid() && front in depends
      modifies this
      ensures Valid() && front in depends && names[front] == old(names[front])
      ensures forall n :: NamedDeps(n) == old(NamedDeps(n)) + (if n == names[front] then [key] else [])
    {
      var d := GetModule(key);
      AppendByName(names, depends, front, d);
      depends := depends[front := depends[front] + [d]];
    }

    /** `depends[m]` creates an empty list for a module seen for the first time. */
    method OpenList(name: string) returns (front: nat)
      requires Valid()
      modifies this
      ensures Valid() && front in depends && names[front] == name
      ensures forall n :: NamedDeps(n) == old(NamedDeps(n))
    {
      front := GetModule(name);
      if front !in depends {
        depends := depends[front := []];
      }
    }

    /** One line of the input: every further key is appended to the first key's list. */
    method AddLine(keys: seq<string>)
      requires Valid()
      modifies this
      ensures Valid()
      ensures forall n :: NamedDeps(n) == old(NamedDeps(n)) + LineDeclares(keys, n)
    {
      if |keys| <= 1 {
        return;
      }
      var front := OpenList(keys[0]);
      var i := 1;
      while i < |keys|
        invariant 1 <= i <= |keys|
        invariant Valid() && front in depends && names[front] == keys[0]
        invariant forall n :: NamedDeps(n) == old(NamedDeps(n)) + (if n == keys[0] then keys[1..i] else [])
      {
        PushBack(front, keys[i]);
        assert keys[1..i + 1] == keys[1..i] + [keys[i]];
        forall n
          ensures NamedDeps(n) == old(NamedDeps(n)) + (if n == keys[0] then keys[1..i + 1] else [])
        {
          assert n == keys[0] ==>
              (old(NamedDeps(n)) + keys[1..i]) + [keys[i]] == old(NamedDeps(n)) + (keys[1..i] + [keys[i]]);
        }
        i := i + 1;
      }
      assert keys[1..|keys|] == keys[1..];
    }

    /** All lines: the table then holds, under every name, exactly what the lines declare. */
    method Load(lines: seq<seq<string>>)
      requires Valid() && names == [] && depends == map[]
      modifies this
      ensures Valid()
      ensures forall n :: NamedDeps(n) == Declared(lines, n)
    {
      for i := 0 to |lines|
        invariant Valid()
        invariant forall n :: NamedDeps(n) == Declared(lines[..i], n)
      {
        AddLine(lines[i]);
        assert lines[..i + 1][..i] == lines[..i];
      }
      assert lines[..|lines|] == lines;
    }
  }

  lemma AppendByName(names: seq<string>, depends: map<nat, seq<nat>>, front: nat, d: nat)
    requires Consistent(names, depends) && front in depends && d < |names|
    ensures Consistent(names, depends[front := depends[front] + [d]])
    ensures forall n :: ByName(names, depends[front := depends[front] + [d]], n)
                     == ByName(names, depends, n) + (if n == names[front] then [names[d]] else [])
  {
    var after := depends[front := depends[front] + [d]];
    forall n
      ensures ByName(names, after, n) == ByName(names, depends, n) + (if n == names[front] then [names[d]] else [])
    {
      if m :| m in depends && names[m] == n {
        assert m in after;
      }
    }
  }
}
