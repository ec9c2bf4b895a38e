/**
 * Store paths as `nox/update.py` reads them: a path such as
 * `/nix/store/<32-char hash>-firefox-31.0.drv` is split, by position, into the
 * 44-character store-and-hash prefix, the full name, and an optional `.drv`
 * suffix; the full name is split into a package name and a version at the
 * first `-` that is followed by a digit.
 */
module NixPaths {
  import opened Outcomes
  import opened Text

  /** Length of `/nix/store/` plus the 32-character hash and its dash. */
  const HashPrefixLength: nat := 44
  const DrvSuffix := ".drv"

  /** Substrings that mark sources, patches and boot scripts, which the diff ignores. */
  const Blacklist: seq<string> := [".tar.", ".tgz", ".zip", "stage-1-init", "stage-2-init", ".patch"]

  // ---------------------------------------------------------------------
  // Name and version

  /** A `-` at position i of s, followed by a digit. */
  predicate DashDigitAt(s: string, i: int) {
    0 <= i && i + 1 < |s| && s[i] == '-' && IsDigit(s[i + 1])
  }

  ghost predicate NoDashDigit(s: string) { forall i :: !DashDigitAt(s, i) }

  /** The leftmost position at or after `from` where a `-` is followed by a digit. */
  function FindDashDigit(s: string, from: nat): (r: Option<nat>)
    requires from <= |s|
    ensures r.Some? ==> from <= r.value && DashDigitAt(s, r.value)
    ensures r.Some? ==> forall j :: from <= j < r.value ==> !DashDigitAt(s, j)
    ensures r.None? ==> forall j :: from <= j ==> !DashDigitAt(s, j)
    decreases |s| - from
  {
    if from + 1 >= |s| then None
    else if s[from] == '-' && IsDigit(s[from + 1]) then Some(from)
    else FindDashDigit(s, from + 1)
  }

  datatype NameVersion = NameVersion(name: string, version: Option<string>)

  /**
   * The split of a full name made by the search for `-(\d.*)`: the name is
   * what comes before the first dash followed by a digit, the version what
   * comes after that dash; without such a dash the version is absent.
   */
  function SplitName(fullName: string): (r: NameVersion)
    ensures r.version.Some? ==> r.name + "-" + r.version.value == fullName
    ensures r.version.Some? ==> |r.version.value| > 0 && IsDigit(r.version.value[0])
    ensures r.version.None? ==> r.name == fullName
    ensures NoDashDigit(r.name)
  {
    match FindDashDigit(fullName, 0)
    case Some(i) =>
      var r := NameVersion(fullName[..i], Some(fullName[i + 1..]));
      assert fullName == fullName[..i] + "-" + fullName[i + 1..];
      assert forall j :: !DashDigitAt(r.name, j) by {
        forall j ensures !DashDigitAt(r.name, j) {
          if DashDigitAt(r.name, j) { assert DashDigitAt(fullName, j); }
        }
      }
      r
    case None => NameVersion(fullName, None)
  }

  // ---------------------------------------------------------------------
  // The path record

  /**
   * A store path. As with the source's `@attributes(['path'])` class, the
   * path is the only field: two values are equal exactly when their paths
   * are, and every other attribute is derived from it.
   */
  datatype NixPath = NixPath(path: string) {

    predicate IsDrv() { EndsWith(path, DrvSuffix) }

    /** The path after the hash prefix, without the `.drv` suffix of a derivation. */
    function FullName(): (r: string)
      ensures !IsDrv() && |path| >= HashPrefixLength ==> path == path[..HashPrefixLength] + r
      ensures IsDrv() && |path| >= HashPrefixLength + 4 ==> path == path[..HashPrefixLength] + r + DrvSuffix
      ensures |path| < HashPrefixLength + (if IsDrv() then 4 else 0) ==> r == []
    {
      var r := Slice(path, HashPrefixLength, if IsDrv() then -4 else |path|);
      assert |path| >= HashPrefixLength ==> path == path[..HashPrefixLength] + path[HashPrefixLength..];
      assert IsDrv() && |path| >= HashPrefixLength + 4 ==>
        path == path[..HashPrefixLength] + path[HashPrefixLength..|path| - 4] + path[|path| - 4..];
      r
    }

    function Name(): string { SplitName(FullName()).name }

    function Version(): Option<string> { SplitName(FullName()).version }
  }

  /** `bool(drv.version)`: a version, when present, is never the empty string. */
  function HasVersion(p: NixPath): (b: bool)
    ensures b <==> p.Version().Some?
  {
    match p.Version()
    case None => false
    case Some(v) => v != ""
  }

  // ---------------------------------------------------------------------
  // Blacklist

  /** `any(s in path for s in patterns)`. */
  function ContainsAny(path: string, patterns: seq<string>): (b: bool)
    ensures b <==> exists k, i :: 0 <= k < |patterns| && OccursAt(patterns[k], path, i)
  {
    if patterns == [] then false
    else if Contains(path, patterns[0]) then true
    else
      var b := ContainsAny(path, patterns[1..]);
      assert b ==> exists k, i :: 0 <= k < |patterns| && OccursAt(patterns[k], path, i) by {
        if b {
          var k, i :| 0 <= k < |patterns[1..]| && OccursAt(patterns[1..][k], path, i);
          assert OccursAt(patterns[k + 1], path, i);
        }
      }
      assert (exists k, i :: 0 <= k < |patterns| && OccursAt(patterns[k], path, i)) ==> b by {
        if exists k, i :: 0 <= k < |patterns| && OccursAt(patterns[k], path, i) {
          var k, i :| 0 <= k < |patterns| && OccursAt(patterns[k], path, i);
          assert k != 0;
          assert OccursAt(patterns[1..][k - 1], path, i);
        }
      }
      b
  }

  /** `is_blacklisted`: the path contains one of the blacklisted substrings. */
  function IsBlacklisted(path: string): (b: bool)
    ensures b <==> exists k, i :: 0 <= k < |Blacklist| && OccursAt(Blacklist[k], path, i)
  {
    ContainsAny(path, Blacklist)
  }

  // ---------------------------------------------------------------------
  // Display

  /** A line fragment in which only the middle part carries the bold/dim styling. */
  datatype Styled = Styled(head: string, body: string, bold: bool, tail: string) {
    /** The text once the terminal styling is removed. */
    function Plain(): string { head + body + tail }
  }

  /**
   * `display_path`: the hash prefix, then the full name styled, then the
   * `.drv` suffix of a derivation. Removing the styling gives the path back,
   * except for derivation paths too short to hold both prefix and suffix.
   */
  function DisplayPath(path: string, bold: bool): (d: Styled)
    ensures d.bold == bold && d.body == NixPath(path).FullName()
    ensures d.Plain() == path <==> !EndsWith(path, DrvSuffix) || |path| >= HashPrefixLength + 4
  {
    var isDrv := EndsWith(path, DrvSuffix);
    var nameSliceEnd := if isDrv then -4 else |path|;
    var d := Styled(Slice(path, 0, HashPrefixLength), Slice(path, HashPrefixLength, nameSliceEnd), bold,
                    if isDrv then Slice(path, nameSliceEnd, |path|) else "");
    if !isDrv then
      if |path| >= HashPrefixLength then
        assert path == path[..HashPrefixLength] + path[HashPrefixLength..];
        d
      else
        assert path[0..|path|] == path;
        d
    else if |path| >= HashPrefixLength + 4 then
      assert path == path[..HashPrefixLength] + path[HashPrefixLength..|path| - 4] + path[|path| - 4..];
      d
    else
      assert |d.Plain()| != |path|;
      d
  }

  // ---------------------------------------------------------------------
  // Store queries

  /**
   * The answers of `nix-store --query`, taken as given: the requisites
   * (closure) and the direct references of a path.
   */
  datatype Store = Store(requisites: string -> set<string>, references: string -> set<string>)

  /** `NixPath.reqs()`: the closure minus the path itself and minus blacklisted paths. */
  function Reqs(store: Store, p: NixPath): (r: set<NixPath>)
    ensures p !in r
    ensures forall q :: q in r ==> q.path in store.requisites(p.path) && !IsBlacklisted(q.path)
    ensures forall s :: s in store.requisites(p.path) && s != p.path && !IsBlacklisted(s) ==> NixPath(s) in r
  {
    set s | s in store.requisites(p.path) && s != p.path && !IsBlacklisted(s) :: NixPath(s)
  }

  /** `NixPath.refs()`: the direct references, as path strings. */
  function Refs(store: Store, p: NixPath): set<string> {
    store.references(p.path)
  }

  /** The set difference of two `reqs()` results is taken path by path. */
  lemma ReqsDifferenceByPath(store: Store, a: NixPath, b: NixPath, q: NixPath)
    ensures q in Reqs(store, a) - Reqs(store, b) <==>
      q.path in store.requisites(a.path) && q.path != a.path && !IsBlacklisted(q.path)
      && !(q.path in store.requisites(b.path) && q.path != b.path)
  {
  }
}
