/**
 * `DepsTree` of `nox/update.py`: a depth-first walk over the "changed
 * reference -> dependents" map that prints every package once in full and
 * every later occurrence collapsed, remembering the printed packages in
 * `seen`.
 */
module DepsTrees {
  import opened Text
  import opened NixPaths

  /** The map from a changed reference to the packages that gained it (a defaultdict(list)). */
  type Edges = map<string, seq<string>>

  /** `changed_refs_tree[pkg]`: a missing key reads as the empty list. */
  function Children(edges: Edges, pkg: string): seq<string> {
    if pkg in edges then edges[pkg] else []
  }

  /** Every package the map mentions, as a key or as a dependent. */
  ghost function Universe(edges: Edges): set<string> {
    edges.Keys + set k, r | k in edges && r in edges[k] :: r
  }

  /** One printed line: the package at an indentation level, in full or collapsed. */
  datatype Visit = Visit(level: nat, path: string, expanded: bool)

  /** The text of a line with the terminal styling removed. */
  function Render(v: Visit): string {
    Repeat("  ", v.level) + DisplayPath(v.path, v.expanded).Plain() + (if v.expanded then "" else " [...]")
  }

  function Repeat(s: string, n: nat): string {
    if n == 0 then "" else s + Repeat(s, n - 1)
  }

  lemma {:induction false} RepeatSpaces(n: nat)
    ensures |Repeat("  ", n)| == 2 * n && forall k :: 0 <= k < 2 * n ==> Repeat("  ", n)[k] == ' '
  {
    if n > 0 {
      RepeatSpaces(n - 1);
      assert Repeat("  ", n) == "  " + Repeat("  ", n - 1);
    }
  }

  /**
   * A printed line: two spaces per level, then the path (whenever the
   * display gives the path back), then ` [...]` for a collapsed package.
   */
  lemma RenderLayout(v: Visit)
    ensures var r := Render(v); var indent := 2 * v.level;
      && |r| >= indent && (forall k :: 0 <= k < indent ==> r[k] == ' ')
      && (!EndsWith(v.path, DrvSuffix) || |v.path| >= HashPrefixLength + 4 ==>
            r[indent..] == v.path + (if v.expanded then "" else " [...]"))
  {
    RepeatSpaces(v.level);
    var r := Render(v);
    var indent := Repeat("  ", v.level);
    assert r == indent + (DisplayPath(v.path, v.expanded).Plain() + (if v.expanded then "" else " [...]"));
    assert r[|indent|..] == DisplayPath(v.path, v.expanded).Plain() + (if v.expanded then "" else " [...]");
  }

  /** The state a walk leaves behind: the seen set and the lines printed. */
  datatype Walk = Walk(seen: set<string>, visits: seq<Visit>)

  /** Marking a key of the map as seen leaves fewer unseen packages. */
  lemma UnseenShrinks(edges: Edges, seen: set<string>, pkg: string)
    ensures pkg in edges && pkg !in seen ==> |Universe(edges) - (seen + {pkg})| < |Universe(edges) - seen|
  {
    if pkg in edges && pkg !in seen {
      var u := Universe(edges);
      assert u - seen == (u - (seen + {pkg})) + {pkg};
    }
  }

  lemma UnseenMonotone(edges: Edges, seen: set<string>, seen': set<string>)
    requires seen <= seen'
    ensures |Universe(edges) - seen'| <= |Universe(edges) - seen|
  {
    var a, b := Universe(edges) - seen', Universe(edges) - seen;
    assert b == a + (b - a) && a * (b - a) == {};
  }

  /**
   * `show(pkg, level)` as a function of the map and the seen set: the first
   * visit prints the package in full, marks it seen and walks its children
   * one level deeper; a later visit prints it collapsed and stops.
   */
  function ShowSpec(edges: Edges, seen: set<string>, pkg: string, level: nat): (w: Walk)
    ensures seen <= w.seen && pkg in w.seen
    decreases |Universe(edges) - seen|, 1, 0
  {
    if pkg in seen then Walk(seen, [Visit(level, pkg, false)])
    else
      var children := Children(edges, pkg);
      UnseenShrinks(edges, seen, pkg);
      UnseenMonotone(edges, seen, seen + {pkg});
      var rest := ShowList(edges, seen + {pkg}, children, level + 1);
      Walk(rest.seen, [Visit(level, pkg, true)] + rest.visits)
  }

  /** `for ref in refs: show(ref, level)`, the seen set threaded from one call to the next. */
  function ShowList(edges: Edges, seen: set<string>, refs: seq<string>, level: nat): (w: Walk)
    ensures seen <= w.seen
    decreases |Universe(edges) - seen|, if refs == [] then 0 else 2, |refs|
  {
    if refs == [] then Walk(seen, [])
    else
      var init := ShowList(edges, seen, refs[..|refs| - 1], level);
      UnseenMonotone(edges, seen, init.seen);
      var last := ShowSpec(edges, init.seen, refs[|refs| - 1], level);
      Walk(last.seen, init.visits + last.visits)
  }

  /** Walking one more reference of a list continues from the seen set the walk so far left. */
  lemma ShowListStep(edges: Edges, seen: set<string>, refs: seq<string>, i: nat, level: nat)
    requires i < |refs|
    ensures var init := ShowList(edges, seen, refs[..i], level);
      var last := ShowSpec(edges, init.seen, refs[i], level);
      ShowList(edges, seen, refs[..i + 1], level) == Walk(last.seen, init.visits + last.visits)
  {
    assert refs[..i + 1][..i] == refs[..i];
  }

  /** The packages printed in full, in order. */
  function Expanded(visits: seq<Visit>): seq<string> {
    if visits == [] then []
    else Expanded(visits[..|visits| - 1]) + (if visits[|visits| - 1].expanded then [visits[|visits| - 1].path] else [])
  }

  lemma {:induction false} ExpandedAppend(a: seq<Visit>, b: seq<Visit>)
    ensures Expanded(a + b) == Expanded(a) + Expanded(b)
    decreases |b|
  {
    if b != [] {
      ExpandedAppend(a, b[..|b| - 1]);
      assert (a + b)[..|a + b| - 1] == a + b[..|b| - 1];
    } else {
      assert a + b == a;
    }
  }

  ghost predicate Distinct(s: seq<string>) {
    forall i, j :: 0 <= i < j < |s| ==> s[i] != s[j]
  }

  lemma DistinctAppend(a: seq<string>, b: seq<string>)
    requires Distinct(a) && Distinct(b)
    requires forall x :: x in a ==> x !in b
    ensures Distinct(a + b)
  {
    forall i, j | 0 <= i < j < |a + b| ensures (a + b)[i] != (a + b)[j] {
      if i < |a| && j >= |a| {
        assert (a + b)[i] in a && (a + b)[j] in b;
      }
    }
  }

  /**
   * The walk prints each package in full at most once: the packages printed
   * in full are pairwise distinct, and they are exactly the packages the walk
   * added to the seen set.
   */
  lemma {:induction false} ShowExpandsOnce(edges: Edges, seen: set<string>, pkg: string, level: nat)
    ensures Distinct(Expanded(ShowSpec(edges, seen, pkg, level).visits))
    ensures forall x :: x in Expanded(ShowSpec(edges, seen, pkg, level).visits) <==> x in ShowSpec(edges, seen, pkg, level).seen - seen
    decreases |Universe(edges) - seen|, 1, 0
  {
    var w := ShowSpec(edges, seen, pkg, level);
    if pkg in seen {
      assert Expanded(w.visits) == Expanded([]) + [];
    } else {
      var children := Children(edges, pkg);
      UnseenShrinks(edges, seen, pkg);
      UnseenMonotone(edges, seen, seen + {pkg});
      var rest := ShowList(edges, seen + {pkg}, children, level + 1);
      assert w == Walk(rest.seen, [Visit(level, pkg, true)] + rest.visits);
      ShowListExpandsOnce(edges, seen + {pkg}, children, level + 1);
      ExpandedAppend([Visit(level, pkg, true)], rest.visits);
      assert Expanded([Visit(level, pkg, true)]) == [pkg] by {
        assert [Visit(level, pkg, true)][..0] == [];
      }
      var e := Expanded(rest.visits);
      assert Expanded(w.visits) == [pkg] + e;
      DistinctAppend([pkg], e);
      assert pkg in rest.seen;
    }
  }

  lemma {:induction false} ShowListExpandsOnce(edges: Edges, seen: set<string>, refs: seq<string>, level: nat)
    ensures Distinct(Expanded(ShowList(edges, seen, refs, level).visits))
    ensures forall x :: x in Expanded(ShowList(edges, seen, refs, level).visits) <==> x in ShowList(edges, seen, refs, level).seen - seen
    decreases |Universe(edges) - seen|, if refs == [] then 0 else 2, |refs|
  {
    if refs != [] {
      var init := ShowList(edges, seen, refs[..|refs| - 1], level);
      ShowListExpandsOnce(edges, seen, refs[..|refs| - 1], level);
      UnseenMonotone(edges, seen, init.seen);
      var last := ShowSpec(edges, init.seen, refs[|refs| - 1], level);
      ShowExpandsOnce(edges, init.seen, refs[|refs| - 1], level);
      ExpandedAppend(init.visits, last.visits);
      DistinctAppend(Expanded(init.visits), Expanded(last.visits));
    }
  }

  /** A package already seen is printed collapsed and nothing else happens. */
  lemma RevisitIsCollapsed(edges: Edges, seen: set<string>, pkg: string, level: nat)
    requires pkg in seen
    ensures ShowSpec(edges, seen, pkg, level) == Walk(seen, [Visit(level, pkg, false)])
  {
  }

  /** A package that is not a key of the map has no children: it is printed and marked seen. */
  lemma MissingKeyIsLeaf(edges: Edges, seen: set<string>, pkg: string, level: nat)
    requires pkg !in edges && pkg !in seen
    ensures ShowSpec(edges, seen, pkg, level) == Walk(seen + {pkg}, [Visit(level, pkg, true)])
  {
  }

  /**
   * The walker of the source: `seen` grows as packages are printed, and
   * `printed` is the output so far.
   */
  class DepsTree {
    var seen: set<string>
    const changedRefsTree: Edges
    var printed: seq<Visit>

    constructor (changedRefsTree: Edges)
      ensures seen == {} && this.changedRefsTree == changedRefsTree && printed == []
    {
      seen := {};
      this.changedRefsTree := changedRefsTree;
      printed := [];
    }

    /** `show(pkg, level)`: prints and records exactly what ShowSpec describes. */
    method Show(pkg: string, level: nat)
      modifies this
      ensures var w := ShowSpec(changedRefsTree, old(seen), pkg, level);
        seen == w.seen && printed == old(printed) + w.visits
      decreases |Universe(changedRefsTree) - seen|, 1
    {
      var expand := pkg !in seen;
      printed := printed + [Visit(level, pkg, expand)];
      if expand {
        seen := seen + {pkg};
        var refs := Children(changedRefsTree, pkg);
        UnseenShrinks(changedRefsTree, old(seen), pkg);
        UnseenMonotone(changedRefsTree, old(seen), seen);
        assert refs != [] ==> pkg in changedRefsTree;
        ShowChildren(refs, level + 1);
        ghost var rest := ShowList(changedRefsTree, old(seen) + {pkg}, refs, level + 1);
        assert printed == old(printed) + ([Visit(level, pkg, true)] + rest.visits);
      }
    }

    /** The loop of `show` over the dependents of a package, one level deeper. */
    method ShowChildren(refs: seq<string>, level: nat)
      modifies this
      ensures var w := ShowList(changedRefsTree, old(seen), refs, level);
        seen == w.seen && printed == old(printed) + w.visits
      decreases |Universe(changedRefsTree) - seen|, if refs == [] then 0 else 2
    {
      for i := 0 to |refs|
        invariant var w := ShowList(changedRefsTree, old(seen), refs[..i], level);
          seen == w.seen && printed == old(printed) + w.visits
      {
        ghost var before := ShowList(changedRefsTree, old(seen), refs[..i], level);
        UnseenMonotone(changedRefsTree, old(seen), seen);
        Show(refs[i], level);
        ShowListStep(changedRefsTree, old(seen), refs, i, level);
        ghost var last := ShowSpec(changedRefsTree, before.seen, refs[i], level);
        assert printed == old(printed) + (before.visits + last.visits);
      }
      assert refs[..|refs|] == refs;
    }
  }
}
