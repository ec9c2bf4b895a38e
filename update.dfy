/**
 * The body of `main` in `nox/update.py`: every requisite of the new system
 * that is not a requisite of the current one is paired with the current
 * requisite of the same name (and the same "has a version" flag), sorted
 * into one of four buckets, and explained by a dependency tree built from the
 * references it gained.
 */
module Update {
  import opened Outcomes
  import opened Text
  import opened Sorting
  import opened NixPaths
  import opened DepsTrees

  // ---------------------------------------------------------------------
  // Pairing with the current system

  /** `(drv.name, bool(drv.version))`: tells `firefox-31` apart from a plain `firefox`. */
  type NameKey = (string, bool)

  function KeyOf(p: NixPath): NameKey { (p.Name(), HasVersion(p)) }

  /** Each entry is a non-blacklisted current requisite filed under its own key, and every such requisite has an entry. */
  ghost predicate IsNameIndex(names: map<NameKey, NixPath>, current: seq<NixPath>) {
    && (forall k :: k in names ==> names[k] in current && KeyOf(names[k]) == k && !IsBlacklisted(names[k].path))
    && (forall d :: d in current && !IsBlacklisted(d.path) ==> KeyOf(d) in names)
  }

  /** The `current_names` dict comprehension, visiting the requisites in the given order (a later one wins). */
  method IndexCurrent(current: seq<NixPath>) returns (names: map<NameKey, NixPath>)
    ensures IsNameIndex(names, current)
  {
    names := map[];
    for i := 0 to |current|
      invariant forall k :: k in names ==> names[k] in current && KeyOf(names[k]) == k && !IsBlacklisted(names[k].path)
      invariant forall j :: 0 <= j < i && !IsBlacklisted(current[j].path) ==> KeyOf(current[j]) in names
    {
      var drv := current[i];
      if !IsBlacklisted(drv.path) {
        names := names[KeyOf(drv) := drv];
      }
    }
  }

  /** `current_names.get((pkg.name, bool(pkg.version)))`. */
  function Previous(names: map<NameKey, NixPath>, pkg: NixPath): Option<NixPath> {
    if KeyOf(pkg) in names then Some(names[KeyOf(pkg)]) else None
  }

  function PreviousVersion(names: map<NameKey, NixPath>, pkg: NixPath): Option<string> {
    match Previous(names, pkg)
    case None => None
    case Some(prev) => prev.Version()
  }

  // ---------------------------------------------------------------------
  // Classification

  datatype Bucket = NewPackage | NewVersion | ChangedExpression | Rest

  /**
   * The bucket of a changed package, by the tests of the loop in order: no
   * previous package, then a different version, then identical references,
   * and otherwise the rest.
   */
  function BucketOf(store: Store, names: map<NameKey, NixPath>, pkg: NixPath): (b: Bucket)
    ensures b == NewPackage <==> Previous(names, pkg).None?
    ensures b == NewVersion <==> Previous(names, pkg).Some? && Previous(names, pkg).value.Version() != pkg.Version()
    ensures b == ChangedExpression <==> Previous(names, pkg).Some? && Previous(names, pkg).value.Version() == pkg.Version()
                                        && Refs(store, Previous(names, pkg).value) == Refs(store, pkg)
    ensures b == Rest <==> Previous(names, pkg).Some? && Previous(names, pkg).value.Version() == pkg.Version()
                           && Refs(store, Previous(names, pkg).value) != Refs(store, pkg)
  {
    match Previous(names, pkg)
    case None => NewPackage
    case Some(prev) =>
      if prev.Version() != pkg.Version() then NewVersion
      else if Refs(store, prev) == Refs(store, pkg) then ChangedExpression
      else Rest
  }

  /** `pkg.refs() - previous.refs()`: the references the package gained; none for a new package. */
  function GainedRefs(store: Store, names: map<NameKey, NixPath>, pkg: NixPath): set<string> {
    match Previous(names, pkg)
    case None => {}
    case Some(prev) => Refs(store, pkg) - Refs(store, prev)
  }

  /** The packages of ps in bucket b, in order. */
  function Select(store: Store, names: map<NameKey, NixPath>, ps: seq<NixPath>, b: Bucket): seq<NixPath> {
    if ps == [] then []
    else
      var last := ps[|ps| - 1];
      Select(store, names, ps[..|ps| - 1], b) + (if BucketOf(store, names, last) == b then [last] else [])
  }

  /** The `new_versions` entries for ps, in order: each package of the NewVersion bucket with its previous version. */
  function VersionChanges(store: Store, names: map<NameKey, NixPath>, ps: seq<NixPath>): seq<(NixPath, Option<string>)> {
    if ps == [] then []
    else
      var last := ps[|ps| - 1];
      VersionChanges(store, names, ps[..|ps| - 1])
        + (if BucketOf(store, names, last) == NewVersion then [(last, PreviousVersion(names, last))] else [])
  }

  /** The dependents recorded under reference r for the packages of ps, in order. */
  function Dependents(store: Store, names: map<NameKey, NixPath>, ps: seq<NixPath>, r: string): seq<string> {
    if ps == [] then []
    else
      var last := ps[|ps| - 1];
      Dependents(store, names, ps[..|ps| - 1], r) + (if r in GainedRefs(store, names, last) then [last.path] else [])
  }

  function Firsts<A, B>(s: seq<(A, B)>): (r: seq<A>)
    ensures |r| == |s| && forall k :: 0 <= k < |s| ==> r[k] == s[k].0
  {
    if s == [] then [] else Firsts(s[..|s| - 1]) + [s[|s| - 1].0]
  }

  /** The spec functions above, one package further. */
  lemma AppendOne(store: Store, names: map<NameKey, NixPath>, ps: seq<NixPath>, x: NixPath)
    ensures forall b :: Select(store, names, ps + [x], b)
                        == Select(store, names, ps, b) + (if BucketOf(store, names, x) == b then [x] else [])
    ensures VersionChanges(store, names, ps + [x]) == VersionChanges(store, names, ps)
              + (if BucketOf(store, names, x) == NewVersion then [(x, PreviousVersion(names, x))] else [])
    ensures forall r :: Dependents(store, names, ps + [x], r)
                        == Dependents(store, names, ps, r) + (if r in GainedRefs(store, names, x) then [x.path] else [])
  {
    assert (ps + [x])[..|ps|] == ps;
  }

  /** `for ref in changed_refs: changed_refs_tree[ref].append(pkg.path)`, the references visited in any order. */
  method RecordDependent(tree: Edges, refs: set<string>, path: string) returns (tree': Edges)
    ensures forall r :: Children(tree', r) == Children(tree, r) + (if r in refs then [path] else [])
  {
    tree' := tree;
    var todo := refs;
    while todo != {}
      invariant todo <= refs
      invariant forall r :: Children(tree', r) == Children(tree, r) + (if r in refs - todo then [path] else [])
      decreases todo
    {
      var r :| r in todo;
      tree' := tree'[r := Children(tree', r) + [path]];
      todo := todo - {r};
    }
  }

  /**
   * The loop of `main`: appends each changed package to its bucket and, for a
   * package with a previous one, records it as a dependent of every
   * reference it gained.
   */
  method Classify(store: Store, names: map<NameKey, NixPath>, changed: seq<NixPath>)
    returns (newPackages: seq<NixPath>, newVersions: seq<(NixPath, Option<string>)>,
             changedExpressions: seq<NixPath>, rest: seq<NixPath>, tree: Edges)
    ensures newPackages == Select(store, names, changed, NewPackage)
    ensures newVersions == VersionChanges(store, names, changed)
    ensures changedExpressions == Select(store, names, changed, ChangedExpression)
    ensures rest == Select(store, names, changed, Rest)
    ensures forall r :: Children(tree, r) == Dependents(store, names, changed, r)
  {
    newPackages, newVersions, changedExpressions, rest, tree := [], [], [], [], map[];
    for i := 0 to |changed|
      invariant newPackages == Select(store, names, changed[..i], NewPackage)
      invariant newVersions == VersionChanges(store, names, changed[..i])
      invariant changedExpressions == Select(store, names, changed[..i], ChangedExpression)
      invariant rest == Select(store, names, changed[..i], Rest)
      invariant forall r :: Children(tree, r) == Dependents(store, names, changed[..i], r)
    {
      var pkg := changed[i];
      assert changed[..i + 1] == changed[..i] + [pkg];
      AppendOne(store, names, changed[..i], pkg);
      var previous := Previous(names, pkg);
      if previous.None? {
        newPackages := newPackages + [pkg];
      } else {
        var prev := previous.value;
        tree := RecordDependent(tree, Refs(store, pkg) - Refs(store, prev), pkg.path);
        if prev.Version() != pkg.Version() {
          newVersions := newVersions + [(pkg, prev.Version())];
        } else if Refs(store, prev) == Refs(store, pkg) {
          changedExpressions := changedExpressions + [pkg];
        } else {
          rest := rest + [pkg];
        }
      }
    }
    assert changed[..|changed|] == changed;
  }

  // ---------------------------------------------------------------------
  // Properties of the classification

  /** Every changed package lands in exactly one bucket: the four buckets together are the changed packages. */
  lemma {:induction false} BucketsPartition(store: Store, names: map<NameKey, NixPath>, ps: seq<NixPath>)
    ensures multiset(Select(store, names, ps, NewPackage)) + multiset(Select(store, names, ps, NewVersion))
          + multiset(Select(store, names, ps, ChangedExpression)) + multiset(Select(store, names, ps, Rest))
          == multiset(ps)
  {
    if ps != [] {
      var init, x := ps[..|ps| - 1], ps[|ps| - 1];
      var bx := BucketOf(store, names, x);
      var np, nv, ce, re := Select(store, names, init, NewPackage), Select(store, names, init, NewVersion),
                            Select(store, names, init, ChangedExpression), Select(store, names, init, Rest);
      assert multiset(np) + multiset(nv) + multiset(ce) + multiset(re) == multiset(init) by {
        BucketsPartition(store, names, init);
      }
      assert Select(store, names, ps, NewPackage) == np + (if bx == NewPackage then [x] else []) by { }
      assert Select(store, names, ps, NewVersion) == nv + (if bx == NewVersion then [x] else []) by { }
      assert Select(store, names, ps, ChangedExpression) == ce + (if bx == ChangedExpression then [x] else []) by { }
      assert Select(store, names, ps, Rest) == re + (if bx == Rest then [x] else []) by { }
      SplitLast(ps);
      PartitionStep(np, nv, ce, re, Select(store, names, ps, NewPackage), Select(store, names, ps, NewVersion),
                    Select(store, names, ps, ChangedExpression), Select(store, names, ps, Rest), init, x, bx);
    }
  }

  lemma SplitLast<T>(s: seq<T>)
    requires s != []
    ensures s == s[..|s| - 1] + [s[|s| - 1]]
  {
  }

  /** Adding one element to the bucket it belongs to keeps the buckets a partition. */
  lemma PartitionStep<T>(np: seq<T>, nv: seq<T>, ce: seq<T>, re: seq<T>,
                         np': seq<T>, nv': seq<T>, ce': seq<T>, re': seq<T>, all: seq<T>, x: T, b: Bucket)
    requires multiset(np) + multiset(nv) + multiset(ce) + multiset(re) == multiset(all)
    requires np' == np + (if b == NewPackage then [x] else [])
    requires nv' == nv + (if b == NewVersion then [x] else [])
    requires ce' == ce + (if b == ChangedExpression then [x] else [])
    requires re' == re + (if b == Rest then [x] else [])
    ensures multiset(np') + multiset(nv') + multiset(ce') + multiset(re') == multiset(all + [x])
  {
  }

  /** A bucket holds only packages of its kind. */
  lemma {:induction false} SelectIsOfBucket(store: Store, names: map<NameKey, NixPath>, ps: seq<NixPath>, b: Bucket)
    ensures forall p :: p in Select(store, names, ps, b) ==> p in ps && BucketOf(store, names, p) == b
  {
    if ps != [] {
      SelectIsOfBucket(store, names, ps[..|ps| - 1], b);
    }
  }

  /** The `new_versions` entries are the NewVersion bucket, each with its previous version. */
  lemma {:induction false} VersionChangesAreNewVersions(store: Store, names: map<NameKey, NixPath>, ps: seq<NixPath>)
    ensures Firsts(VersionChanges(store, names, ps)) == Select(store, names, ps, NewVersion)
    ensures forall e :: e in VersionChanges(store, names, ps) ==> e.1 == PreviousVersion(names, e.0)
  {
    if ps != [] {
      var init, x := ps[..|ps| - 1], ps[|ps| - 1];
      VersionChangesAreNewVersions(store, names, init);
      var vc := VersionChanges(store, names, init);
      var isNew := BucketOf(store, names, x) == NewVersion;
      var e := (x, PreviousVersion(names, x));
      assert VersionChanges(store, names, ps) == vc + (if isNew then [e] else []) by { }
      assert Select(store, names, ps, NewVersion) == Select(store, names, init, NewVersion) + (if isNew then [x] else []) by { }
      if isNew {
        assert (vc + [e])[..|vc|] == vc;
      }
    }
  }

  /**
   * A version change is between two present versions: a package and its
   * previous one share the "has a version" flag, so when their versions
   * differ neither is None.
   */
  lemma NewVersionHasBothVersions(store: Store, names: map<NameKey, NixPath>, current: seq<NixPath>, pkg: NixPath)
    requires IsNameIndex(names, current)
    requires BucketOf(store, names, pkg) == NewVersion
    ensures pkg.Version().Some? && PreviousVersion(names, pkg).Some?
  {
    var prev := Previous(names, pkg).value;
    assert KeyOf(prev) == KeyOf(pkg);
  }

  /**
   * The tree records r -> pkg exactly when pkg is a changed package with a
   * previous package and r is among the references it gained; new packages
   * contribute no edges.
   */
  lemma {:induction false} DependentsAreGainers(store: Store, names: map<NameKey, NixPath>, ps: seq<NixPath>, r: string, x: string)
    ensures x in Dependents(store, names, ps, r) <==>
      exists p :: p in ps && p.path == x && Previous(names, p).Some? && r in Refs(store, p) - Refs(store, Previous(names, p).value)
  {
    if ps != [] {
      var init, last := ps[..|ps| - 1], ps[|ps| - 1];
      DependentsAreGainers(store, names, init, r, x);
      assert ps == init + [last];
      if x in Dependents(store, names, ps, r) && x !in Dependents(store, names, init, r) {
        assert last in ps;
      }
      if exists p :: p in ps && p.path == x && Previous(names, p).Some? && r in Refs(store, p) - Refs(store, Previous(names, p).value) {
        var p :| p in ps && p.path == x && Previous(names, p).Some? && r in Refs(store, p) - Refs(store, Previous(names, p).value);
        if p != last { assert p in init; }
      }
    }
  }

  // ---------------------------------------------------------------------
  // Ordering and output

  predicate ByName(a: NixPath, b: NixPath) { StrLe(a.Name(), b.Name()) }

  predicate ByPackageName(a: (NixPath, Option<string>), b: (NixPath, Option<string>)) { StrLe(a.0.Name(), b.0.Name()) }

  lemma ByNameIsTotalPreorder()
    ensures TotalPreorder(ByName) && TotalPreorder(ByPackageName)
  {
    forall x: string, y: string { StrLeTotal(x, y); }
    forall x: string, y: string, z: string | StrLe(x, y) && StrLe(y, z) ensures StrLe(x, z) {
      StrLeTransitive(x, y, z);
    }
  }

  /** `str()` of an optional version, as `format` prints it. */
  function VersionText(v: Option<string>): string {
    match v
    case None => "None"
    case Some(s) => s
  }

  function NewPackageHeading(p: NixPath): string { p.FullName() + " : seems to be new" }

  function NewVersionHeading(p: NixPath, oldVersion: Option<string>): string {
    p.Name() + " : new version (" + VersionText(oldVersion) + " -> " + VersionText(p.Version()) + ")"
  }

  function NewExpressionHeading(p: NixPath): string { p.FullName() + " : new expression" }

  /** A line of the report: a bold heading, or one line of a dependency tree. */
  datatype Line = Heading(text: string) | Node(visit: Visit)

  function Nodes(visits: seq<Visit>): (r: seq<Line>)
    ensures |r| == |visits| && forall k :: 0 <= k < |visits| ==> r[k] == Node(visits[k])
  {
    seq(|visits|, k requires 0 <= k < |visits| => Node(visits[k]))
  }

  /**
   * What a run of `(heading, root)` entries prints, and the seen set it
   * leaves: each heading then the tree of its root; `visits` are the tree
   * lines alone, as the walker records them.
   */
  datatype Explanation = Explanation(seen: set<string>, lines: seq<Line>, visits: seq<Visit>)

  function ExplainSpec(edges: Edges, seen: set<string>, entries: seq<(string, string)>): (e: Explanation)
    ensures seen <= e.seen
  {
    if entries == [] then Explanation(seen, [], [])
    else
      var init := ExplainSpec(edges, seen, entries[..|entries| - 1]);
      var last := entries[|entries| - 1];
      var w := ShowSpec(edges, init.seen, last.1, 0);
      Explanation(w.seen, init.lines + [Heading(last.0)] + Nodes(w.visits), init.visits + w.visits)
  }

  /** The printing loops of `main`: a heading, then `tree.show(root)`, for each entry. */
  method Explain(tree: DepsTree, entries: seq<(string, string)>) returns (lines: seq<Line>)
    modifies tree
    ensures var e := ExplainSpec(tree.changedRefsTree, old(tree.seen), entries);
      tree.seen == e.seen && lines == e.lines && tree.printed == old(tree.printed) + e.visits
  {
    lines := [];
    for i := 0 to |entries|
      invariant var e := ExplainSpec(tree.changedRefsTree, old(tree.seen), entries[..i]);
        tree.seen == e.seen && lines == e.lines && tree.printed == old(tree.printed) + e.visits
    {
      assert entries[..i + 1][..i] == entries[..i];
      lines := lines + [Heading(entries[i].0)];
      var mark := |tree.printed|;
      tree.Show(entries[i].1, 0);
      lines := lines + Nodes(tree.printed[mark..]);
    }
    assert entries[..|entries|] == entries;
  }

  function Entries(newPackages: seq<NixPath>, newVersions: seq<(NixPath, Option<string>)>,
                   changedExpressions: seq<NixPath>): seq<(string, string)>
  {
    seq(|newPackages|, k requires 0 <= k < |newPackages| => (NewPackageHeading(newPackages[k]), newPackages[k].path))
    + seq(|newVersions|, k requires 0 <= k < |newVersions| =>
            (NewVersionHeading(newVersions[k].0, newVersions[k].1), newVersions[k].0.path))
    + seq(|changedExpressions|, k requires 0 <= k < |changedExpressions| =>
            (NewExpressionHeading(changedExpressions[k]), changedExpressions[k].path))
  }

  // ---------------------------------------------------------------------
  // The command

  /** Enumerates: the order in which a loop visits the members of a set, each once. */
  ghost predicate Enumerates<T(!new)>(order: seq<T>, s: set<T>) {
    && (forall x :: x in order <==> x in s)
    && (forall i, j :: 0 <= i < j < |order| ==> order[i] != order[j])
  }

  datatype UpdateReport =
    | NoSystemUpdates
    | Report(currentNames: map<NameKey, NixPath>,
             newPackages: seq<NixPath>, newVersions: seq<(NixPath, Option<string>)>,
             changedExpressions: seq<NixPath>, rest: seq<NixPath>,
             changedRefsTree: Edges, lines: seq<Line>, forgotten: set<string>)

  /**
   * `main`. The new and current system derivations, the store's answers and
   * the order in which the two sets are iterated are given; no new system
   * derivation means "No system updates".
   */
  method Run(store: Store, newDrv: Option<NixPath>, currentDrv: NixPath,
              currentOrder: seq<NixPath>, changedOrder: seq<NixPath>) returns (report: UpdateReport)
    requires newDrv.Some? ==> Enumerates(currentOrder, Reqs(store, currentDrv))
    requires newDrv.Some? ==> Enumerates(changedOrder, Reqs(store, newDrv.value) - Reqs(store, currentDrv))
    ensures report.NoSystemUpdates? <==> newDrv.None?
    ensures report.Report? ==> IsNameIndex(report.currentNames, currentOrder)
    ensures report.Report? ==>
      var names := report.currentNames;
      && SortedBy(report.newPackages, ByName)
      && multiset(report.newPackages) == multiset(Select(store, names, changedOrder, NewPackage))
      && SortedBy(report.newVersions, ByPackageName)
      && multiset(report.newVersions) == multiset(VersionChanges(store, names, changedOrder))
      && SortedBy(report.changedExpressions, ByName)
      && multiset(report.changedExpressions) == multiset(Select(store, names, changedOrder, ChangedExpression))
      && SortedBy(report.rest, ByName)
      && multiset(report.rest) == multiset(Select(store, names, changedOrder, Rest))
      && (forall r :: Children(report.changedRefsTree, r) == Dependents(store, names, changedOrder, r))
    ensures report.Report? ==>
      var e := ExplainSpec(report.changedRefsTree, {},
                           Entries(report.newPackages, report.newVersions, report.changedExpressions));
      && report.lines == e.lines
      && report.forgotten == (set p | p in report.rest :: p.path) - e.seen
  {
    if newDrv.None? {
      return NoSystemUpdates;
    }
    var names := IndexCurrent(currentOrder);
    var newPackages, newVersions, changedExpressions, rest, changedRefsTree := Classify(store, names, changedOrder);
    ByNameIsTotalPreorder();
    newVersions := Sort(newVersions, ByPackageName);
    newPackages := Sort(newPackages, ByName);
    changedExpressions := Sort(changedExpressions, ByName);
    rest := Sort(rest, ByName);
    var tree := new DepsTree(changedRefsTree);
    var lines := Explain(tree, Entries(newPackages, newVersions, changedExpressions));
    var forgotten := (set p | p in rest :: p.path) - tree.seen;
    report := Report(names, newPackages, newVersions, changedExpressions, rest, changedRefsTree, lines, forgotten);
  }
}
