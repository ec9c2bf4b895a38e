/**
 * `nox/main.py`, the older `search` command: the same query filter, order,
 * numbering and `parse_input` as `nox/search.py`, without the handling of a
 * failed nix evaluation, and with commands that do not pass `--show-trace`.
 */
module LegacySearch {
  import opened Outcomes
  import opened Sorting
  import PackageSearch

  function InstallCommand(attrs: seq<string>): seq<string> { ["nix-env", "-iA"] + attrs }

  function ShellCommand(attrs: seq<string>): seq<string> { ["nix-shell", "-p"] + PackageSearch.StripChannels(attrs) }

  /** The command for an action: the program and its flag, then one argument per selected package, in order. */
  function Command(action: PackageSearch.Action, ps: seq<PackageSearch.Package>): (cmd: seq<string>)
    ensures |cmd| == 2 + |ps|
    ensures action == PackageSearch.Install ==>
      cmd[..2] == ["nix-env", "-iA"] && forall k :: 0 <= k < |ps| ==> cmd[2 + k] == ps[k].attribute
    ensures action == PackageSearch.Shell ==>
      cmd[..2] == ["nix-shell", "-p"] && forall k :: 0 <= k < |ps| ==> cmd[2 + k] == PackageSearch.StripChannel(ps[k].attribute)
  {
    match action
    case Install => InstallCommand(PackageSearch.Attributes(ps))
    case Shell => ShellCommand(PackageSearch.Attributes(ps))
  }

  /** The newer command line differs only by the `--show-trace` flag after the program's own flag. */
  lemma NewerCommandAddsShowTrace(action: PackageSearch.Action, ps: seq<PackageSearch.Package>)
    ensures var cmd := Command(action, ps);
      PackageSearch.Command(action, ps) == cmd[..2] + ["--show-trace"] + cmd[2..]
  {
    var cmd := Command(action, ps);
    var newer := PackageSearch.Command(action, ps);
    assert newer == cmd[..2] + ["--show-trace"] + cmd[2..] by {
      assert |newer| == |cmd| + 1;
      forall k | 0 <= k < |newer| ensures newer[k] == (cmd[..2] + ["--show-trace"] + cmd[2..])[k] {
        if k < 3 {
          assert newer[..3][k] == newer[k];
          assert cmd[..2] + ["--show-trace"] == newer[..3];
        }
      }
    }
  }

  /** The sorted results and their lines; when there are results, what the answer to the prompt led to. */
  datatype Listing = Listing(results: seq<PackageSearch.Package>, lines: seq<string>,
                             selection: Option<Result<seq<string>, PackageSearch.InputError>>)

  /** `search`, with the JSON listing of the channels and the answer to the prompt given. */
  method Search(query: string, json: seq<(string, PackageSearch.RawPackage)>, answer: string) returns (out: Listing)
    ensures SortedBy(out.results, PackageSearch.PackageLe)
    ensures multiset(out.results) == multiset(PackageSearch.Filter(PackageSearch.AllPackages(json), query))
    ensures out.lines == PackageSearch.NumberedLines(out.results)
    ensures out.selection.None? <==> out.results == []
    ensures out.results != [] ==>
      out.selection.value == match PackageSearch.ParseInput(out.results, answer)
                             case Failure(e) => Failure(e)
                             case Success(sel) => Success(Command(sel.0, sel.1))
  {
    var results := PackageSearch.Filter(PackageSearch.AllPackages(json), query);
    PackageSearch.PackageLeIsTotalOrder();
    results := Sort(results, PackageSearch.PackageLe);
    var lines := PackageSearch.ListResults(results);
    if results == [] {
      return Listing(results, lines, None);
    }
    var parsed := PackageSearch.ParseInput(results, answer);
    if parsed.Failure? {
      return Listing(results, lines, Some(Failure(parsed.error)));
    }
    var (action, packages) := parsed.value;
    var attributes := PackageSearch.Attributes(packages);
    var command: seq<string>;
    if action == PackageSearch.Install {
      command := InstallCommand(attributes);
    } else {
      attributes := PackageSearch.StripChannels(attributes);
      command := ["nix-shell", "-p"] + attributes;
    }
    out := Listing(results, lines, Some(Success(command)));
  }
}
