/**
 * `nox/search.py`: list the packages of the nix channels whose attribute,
 * name or description contains the query, sorted and numbered from 1, then
 * read the numbers of the packages to install (or, after a leading `s`, to
 * open a shell with) and build the nix command.
 */
module PackageSearch {
  import opened Outcomes
  import opened Text
  import opened Sorting

  // ---------------------------------------------------------------------
  // Packages

  /** The `Package` named tuple, in its field order. */
  datatype Package = Package(attribute: string, name: string, description: string)

  /** One value of the `nix-env -qa --json` object: the package name and its `meta` attributes. */
  datatype RawPackage = RawPackage(name: string, meta: map<string, string>)

  function Description(v: RawPackage): string {
    if "description" in v.meta then v.meta["description"] else ""
  }

  /** `all_packages`: one Package per entry of the JSON object, in its order. */
  function AllPackages(json: seq<(string, RawPackage)>): (ps: seq<Package>)
    ensures |ps| == |json|
    ensures forall k :: 0 <= k < |json| ==> ps[k] == Package(json[k].0, json[k].1.name, Description(json[k].1))
  {
    seq(|json|, k requires 0 <= k < |json| => Package(json[k].0, json[k].1.name, Description(json[k].1)))
  }

  /** A package without a description is listed with the empty description. */
  lemma MissingDescriptionIsEmpty(json: seq<(string, RawPackage)>, k: nat)
    requires k < |json| && "description" !in json[k].1.meta
    ensures AllPackages(json)[k].description == ""
  {
  }

  // ---------------------------------------------------------------------
  // The query

  /** `any(query in s for s in p)`. */
  predicate Matches(p: Package, query: string) {
    Contains(p.attribute, query) || Contains(p.name, query) || Contains(p.description, query)
  }

  /** The list comprehension: the matching packages, in order. */
  function Filter(ps: seq<Package>, query: string): seq<Package> {
    if ps == [] then []
    else
      var init, last := ps[..|ps| - 1], ps[|ps| - 1];
      if Matches(last, query) then Filter(init, query) + [last] else Filter(init, query)
  }

  /** A package is kept exactly when it matches, as often as it is listed. */
  lemma {:induction false} FilterCounts(ps: seq<Package>, query: string)
    ensures forall p :: multiset(Filter(ps, query))[p] == if Matches(p, query) then multiset(ps)[p] else 0
  {
    if ps != [] {
      var init, last := ps[..|ps| - 1], ps[|ps| - 1];
      FilterCounts(init, query);
      assert ps == init + [last];
    }
  }

  lemma FilterMembership(ps: seq<Package>, query: string, p: Package)
    ensures p in Filter(ps, query) <==> p in ps && Matches(p, query)
  {
    FilterCounts(ps, query);
    assert p in Filter(ps, query) <==> multiset(Filter(ps, query))[p] > 0;
    assert p in ps <==> multiset(ps)[p] > 0;
  }

  /** The default query, the empty string, keeps every package in its place. */
  lemma {:induction false} EmptyQueryKeepsAll(ps: seq<Package>)
    ensures Filter(ps, "") == ps
  {
    if ps != [] {
      var init, last := ps[..|ps| - 1], ps[|ps| - 1];
      assert Matches(last, "") by {
        assert OccursAt("", last.attribute, 0);
      }
      assert Filter(ps, "") == Filter(init, "") + [last];
      EmptyQueryKeepsAll(init);
      assert ps == init + [last];
    }
  }

  // ---------------------------------------------------------------------
  // Order and numbering

  /** Python's order on the named tuples: by attribute, then name, then description. */
  predicate PackageLe(a: Package, b: Package) {
    || StrLt(a.attribute, b.attribute)
    || (a.attribute == b.attribute && StrLt(a.name, b.name))
    || (a.attribute == b.attribute && a.name == b.name && StrLe(a.description, b.description))
  }

  lemma PackageLeIsTotalOrder()
    ensures TotalPreorder(PackageLe)
    ensures forall a, b :: PackageLe(a, b) && PackageLe(b, a) ==> a == b
  {
    forall a: Package, b: Package ensures PackageLe(a, b) || PackageLe(b, a) {
      StrLtTrichotomy(a.attribute, b.attribute);
      StrLtTrichotomy(a.name, b.name);
      StrLtTrichotomy(a.description, b.description);
    }
    forall a: Package, b: Package, c: Package | PackageLe(a, b) && PackageLe(b, c) ensures PackageLe(a, c) {
      if StrLt(a.attribute, b.attribute) && StrLt(b.attribute, c.attribute) {
        StrLtTransitive(a.attribute, b.attribute, c.attribute);
      } else if a.attribute == b.attribute == c.attribute {
        if StrLt(a.name, b.name) && StrLt(b.name, c.name) {
          StrLtTransitive(a.name, b.name, c.name);
        } else if a.name == b.name == c.name {
          StrLeTransitive(a.description, b.description, c.description);
        }
      }
    }
    forall a: Package, b: Package | PackageLe(a, b) && PackageLe(b, a) ensures a == b {
      if StrLt(a.attribute, b.attribute) {
        StrLtAsymmetric(a.attribute, b.attribute);
      } else if StrLt(b.attribute, a.attribute) {
        StrLtAsymmetric(b.attribute, a.attribute);
      } else if StrLt(a.name, b.name) {
        StrLtAsymmetric(a.name, b.name);
      } else if StrLt(b.name, a.name) {
        StrLtAsymmetric(b.name, a.name);
      } else if StrLt(a.description, b.description) {
        StrLtAsymmetric(a.description, b.description);
      }
    }
  }

  /**
   * The listed order is the only one: two sorted lists of the same packages
   * are equal, so the sort of the model gives the list Python's sort gives.
   */
  lemma SortedResultsAreUnique(a: seq<Package>, b: seq<Package>)
    requires SortedBy(a, PackageLe) && SortedBy(b, PackageLe) && multiset(a) == multiset(b)
    ensures a == b
  {
    PackageLeIsTotalOrder();
    SortedUnique(a, b, PackageLe);
  }

  /** One line of the listing (without its styling): number, name, attribute, and the indented description. */
  function ResultLine(i: nat, p: Package): string {
    NatToString(i) + " " + p.name + " (" + p.attribute + ")\n    " + p.description
  }

  function NumberedLines(results: seq<Package>): (lines: seq<string>)
    ensures |lines| == |results|
    ensures forall k :: 0 <= k < |results| ==> lines[k] == ResultLine(k + 1, results[k])
  {
    seq(|results|, k requires 0 <= k < |results| => ResultLine(k + 1, results[k]))
  }

  /** The `enumerate(results, 1)` loop. */
  method ListResults(results: seq<Package>) returns (lines: seq<string>)
    ensures lines == NumberedLines(results)
  {
    lines := [];
    for i := 0 to |results|
      invariant lines == NumberedLines(results[..i])
    {
      lines := lines + [ResultLine(i + 1, results[i])];
    }
    assert results[..|results|] == results;
  }

  // ---------------------------------------------------------------------
  // The answer to the prompt

  datatype Action = Install | Shell

  datatype InputError =
    | EmptyInput                 // `inp[0]` raises IndexError
    | NotAnInteger(token: string) // `int(i)` raises ValueError
    | OutOfRange(token: string)   // `results[...]` raises IndexError

  /** A Python list index into a list of length n: negative indices count from the end. */
  function PyIndex(n: nat, k: int): (r: Option<nat>)
    ensures r.Some? <==> -(n as int) <= k < n
    ensures r.Some? ==> r.value < n && (r.value == k || r.value == n + k)
  {
    if 0 <= k < n then Some(k) else if -(n as int) <= k < 0 then Some(n + k) else None
  }

  /** `results[int(i) - 1]` for one token: the position it selects, or the error it raises. */
  function TokenIndex(n: nat, token: string): Result<nat, InputError> {
    match ParseInt(token)
    case None => Failure(NotAnInteger(token))
    case Some(v) =>
      match PyIndex(n, v - 1)
      case None => Failure(OutOfRange(token))
      case Some(k) => Success(k)
  }

  /** The packages the tokens select, in token order, or the error of the first token that fails. */
  function SelectTokens(results: seq<Package>, tokens: seq<string>): (r: Result<seq<Package>, InputError>)
    ensures r.Success? <==> forall k :: 0 <= k < |tokens| ==> TokenIndex(|results|, tokens[k]).Success?
    ensures r.Success? ==> |r.value| == |tokens|
    ensures r.Success? ==> forall k :: 0 <= k < |tokens| ==> r.value[k] == results[TokenIndex(|results|, tokens[k]).value]
    ensures r.Failure? ==> exists k :: 0 <= k < |tokens| && TokenIndex(|results|, tokens[k]) == Failure(r.error)
                                       && forall j :: 0 <= j < k ==> TokenIndex(|results|, tokens[j]).Success?
  {
    if tokens == [] then Success([])
    else
      match TokenIndex(|results|, tokens[0])
      case Failure(e) =>
        assert TokenIndex(|results|, tokens[0]) == Failure(e);
        Failure(e)
      case Success(i) =>
        var rest := SelectTokens(results, tokens[1..]);
        match rest
        case Failure(e) =>
          var k :| 0 <= k < |tokens[1..]| && TokenIndex(|results|, tokens[1..][k]) == Failure(e)
                   && forall j :: 0 <= j < k ==> TokenIndex(|results|, tokens[1..][j]).Success?;
          assert TokenIndex(|results|, tokens[k + 1]) == Failure(e);
          assert forall j :: 0 <= j < k + 1 ==> TokenIndex(|results|, tokens[j]).Success? by {
            forall j | 0 <= j < k + 1 ensures TokenIndex(|results|, tokens[j]).Success? {
              if j > 0 { assert tokens[j] == tokens[1..][j - 1]; }
            }
          }
          Failure(e)
        case Success(ps) =>
          assert forall k :: 1 <= k < |tokens| ==> tokens[k] == tokens[1..][k - 1];
          Success([results[i]] + ps)
  }

  /** The text after the action letter: a leading `s` is dropped, anything else is kept. */
  function Argument(inp: string): string
    requires inp != []
  {
    if inp[0] == 's' then inp[1..] else inp
  }

  /** `parse_input`: the action, and the selected packages of the whitespace-separated tokens. */
  function ParseInput(results: seq<Package>, inp: string): (r: Result<(Action, seq<Package>), InputError>)
    ensures r == Failure(EmptyInput) <==> inp == []
    ensures r.Success? ==> (r.value.0 == Shell <==> inp[0] == 's')
    ensures inp != [] ==> (r.Success? <==> SelectTokens(results, Words(Argument(inp))).Success?)
    ensures r.Success? ==> r.value.1 == SelectTokens(results, Words(Argument(inp))).value
    ensures inp != [] && r.Failure? ==> SelectTokens(results, Words(Argument(inp))) == Failure(r.error)
  {
    if inp == [] then Failure(EmptyInput)
    else
      var action := if inp[0] == 's' then Shell else Install;
      match SelectTokens(results, Words(Argument(inp)))
      case Failure(e) =>
        assert e != EmptyInput by {
          var tokens := Words(Argument(inp));
          var k :| 0 <= k < |tokens| && TokenIndex(|results|, tokens[k]) == Failure(e);
        }
        Failure(e)
      case Success(ps) => Success((action, ps))
  }

  /** A number shown in the listing selects the package on that line. */
  lemma {:induction false} NumberSelectsItsLine(results: seq<Package>, k: nat)
    requires k < |results|
    ensures ParseInput(results, Words(NumberedLines(results)[k])[0]) == Success((Install, [results[k]]))
  {
    LineStartsWithNumber(results, k);
    ShownNumberIndex(|results|, k);
    SingleTokenSelects(results, NatToString(k + 1), k);
  }

  /** The first word of line k is the number it shows. */
  lemma LineStartsWithNumber(results: seq<Package>, k: nat)
    requires k < |results|
    ensures Words(NumberedLines(results)[k])[0] == NatToString(k + 1)
  {
    var shown := NatToString(k + 1);
    var rest := " " + results[k].name + " (" + results[k].attribute + ")\n    " + results[k].description;
    assert NumberedLines(results)[k] == shown + rest;
    WordsAfterWord(shown, rest);
  }

  /** The number shown on line k is a numeral that indexes position k. */
  lemma ShownNumberIndex(n: nat, k: nat)
    requires k < n
    ensures IsNumeral(NatToString(k + 1)) && TokenIndex(n, NatToString(k + 1)) == Success(k)
  {
    ParseIntOfNatToString(k + 1);
  }

  /** An answer made of one numeral selects the one package it names. */
  lemma SingleTokenSelects(results: seq<Package>, token: string, k: nat)
    requires IsNumeral(token) && TokenIndex(|results|, token) == Success(k)
    ensures ParseInput(results, token) == Success((Install, [results[k]]))
  {
    assert token[0] != 's' && Argument(token) == token;
    assert Words(token) == [token] by {
      WordsAfterWord(token, []);
      assert token + [] == token;
    }
    assert SelectTokens(results, [token]) == Success([results[k]]) by {
      assert [token][1..] == [] && [results[k]] + [] == [results[k]];
    }
  }

  /** `0` is `results[-1]`: it selects the last package. */
  lemma ZeroSelectsLast(results: seq<Package>)
    requires results != []
    ensures ParseInput(results, "0") == Success((Install, [results[|results| - 1]]))
  {
    assert NumeralValue("0") == 0 by {
      assert "0"[..0] == [];
    }
    SingleTokenSelects(results, "0", |results| - 1);
  }

  // ---------------------------------------------------------------------
  // The commands

  /** `len('nixpkgs.')`: the channel prefix the shell command cuts off. */
  const ChannelPrefix := "nixpkgs."

  /**
   * `a[len('nixpkgs.'):]`: the first eight characters are dropped whatever
   * they are; for an attribute of the `nixpkgs` channel that is exactly the
   * channel name and its dot.
   */
  function StripChannel(a: string): (r: string)
    ensures StartsWith(a, ChannelPrefix) ==> ChannelPrefix + r == a
    ensures |a| >= |ChannelPrefix| ==> r == a[|ChannelPrefix|..]
    ensures |a| <= |ChannelPrefix| ==> r == ""
  {
    var r := Slice(a, |ChannelPrefix|, |a|);
    assert StartsWith(a, ChannelPrefix) ==> a == a[..|ChannelPrefix|] + a[|ChannelPrefix|..];
    r
  }

  /**
   * The cut does not look at the channel name `c`: a channel name shorter than
   * `nixpkgs` costs the package name `n` its first characters, and a longer one
   * leaves part of the channel name in front of `n`.
   */
  lemma OtherChannelIsCut(c: string, n: string)
    ensures |c| < |ChannelPrefix| <= |c| + 1 + |n| ==>
              StripChannel(c + "." + n) == n[|ChannelPrefix| - |c| - 1..]
    ensures |c| + 1 > |ChannelPrefix| ==> StripChannel(c + "." + n) == (c + ".")[|ChannelPrefix|..] + n
  {
    var a := c + "." + n;
    if |c| < |ChannelPrefix| <= |c| + 1 + |n| {
      assert a[|ChannelPrefix|..] == n[|ChannelPrefix| - |c| - 1..];
    } else if |c| + 1 > |ChannelPrefix| {
      assert a[|ChannelPrefix|..] == (c + ".")[|ChannelPrefix|..] + n;
    }
  }

  function Attributes(ps: seq<Package>): (attrs: seq<string>)
    ensures |attrs| == |ps| && forall k :: 0 <= k < |ps| ==> attrs[k] == ps[k].attribute
  {
    seq(|ps|, k requires 0 <= k < |ps| => ps[k].attribute)
  }

  function StripChannels(attrs: seq<string>): (r: seq<string>)
    ensures |r| == |attrs| && forall k :: 0 <= k < |attrs| ==> r[k] == StripChannel(attrs[k])
  {
    seq(|attrs|, k requires 0 <= k < |attrs| => StripChannel(attrs[k]))
  }

  function InstallCommand(attrs: seq<string>): seq<string> { ["nix-env", "-iA", "--show-trace"] + attrs }

  function ShellCommand(attrs: seq<string>): seq<string> { ["nix-shell", "-p", "--show-trace"] + StripChannels(attrs) }

  /** The command for an action: the fixed program and flags, then one argument per selected package, in order. */
  function Command(action: Action, ps: seq<Package>): (cmd: seq<string>)
    ensures |cmd| == 3 + |ps|
    ensures action == Install ==> cmd[..3] == ["nix-env", "-iA", "--show-trace"] && forall k :: 0 <= k < |ps| ==> cmd[3 + k] == ps[k].attribute
    ensures action == Shell ==> cmd[..3] == ["nix-shell", "-p", "--show-trace"] && forall k :: 0 <= k < |ps| ==> cmd[3 + k] == StripChannel(ps[k].attribute)
  {
    match action
    case Install => InstallCommand(Attributes(ps))
    case Shell => ShellCommand(Attributes(ps))
  }

  // ---------------------------------------------------------------------
  // The command line

  const NixErrorMessage := "An error occured while running nix (displayed above). Maybe the nixpkgs eval is broken."

  datatype SearchOutcome =
    | NixFailed(message: string)
    /** The sorted results and their lines; when there are results, what the answer to the prompt led to. */
    | Listed(results: seq<Package>, lines: seq<string>, selection: Option<Result<seq<string>, InputError>>)

  /**
   * `main`. The JSON listing of the channels is given (None when nix failed),
   * and so is the answer typed at the prompt.
   */
  method Run(query: string, json: Option<seq<(string, RawPackage)>>, answer: string) returns (out: SearchOutcome)
    ensures json.None? <==> out == NixFailed(NixErrorMessage)
    ensures out.Listed? <==> json.Some?
    ensures out.Listed? ==> SortedBy(out.results, PackageLe)
                            && multiset(out.results) == multiset(Filter(AllPackages(json.value), query))
    ensures out.Listed? ==> out.lines == NumberedLines(out.results)
    ensures out.Listed? ==> (out.selection.None? <==> out.results == [])
    ensures out.Listed? && out.results != [] ==>
      out.selection.value == match ParseInput(out.results, answer)
                             case Failure(e) => Failure(e)
                             case Success(sel) => Success(Command(sel.0, sel.1))
  {
    if json.None? {
      return NixFailed(NixErrorMessage);
    }
    var results := Filter(AllPackages(json.value), query);
    PackageLeIsTotalOrder();
    results := Sort(results, PackageLe);
    var lines := ListResults(results);
    if results == [] {
      return Listed(results, lines, None);
    }
    var parsed := ParseInput(results, answer);
    if parsed.Failure? {
      return Listed(results, lines, Some(Failure(parsed.error)));
    }
    var (action, packages) := parsed.value;
    var attributes := Attributes(packages);
    var command: seq<string>;
    if action == Install {
      command := InstallCommand(attributes);
    } else {
      attributes := StripChannels(attributes);
      command := ["nix-shell", "-p", "--show-trace"] + attributes;
    }
    out := Listed(results, lines, Some(Success(command)));
  }
}
