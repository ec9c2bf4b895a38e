/**
 * The decision logic of `nox/review.py`, between its calls to git, GitHub
 * and nix: the parse of the `pr` argument and the choice of repository slug,
 * the API request, the flags of the command group, and the selection of
 * what to build as the packages that differ between two revisions.
 */
module Review {
  import opened Outcomes
  import opened Text

  // ---------------------------------------------------------------------
  // The `pr` argument:
  // ^(?:https?://(?:www\.)?github\.com/([^/]+/[^/]+)/pull/)?([0-9]+)$, ignoring case

  /**
   * The URL part of a `pr` argument, each literal kept as the user wrote it
   * (the match ignores case): `scheme` is `http://` or `https://`, `www` is
   * empty or `www.`, `host` is `github.com/`, and `pull` is `pull`.
   */
  datatype PullUrl = PullUrl(scheme: string, www: string, host: string, owner: string, repo: string, pull: string) {

    predicate WellFormed() {
      && (EqualsIgnoreCase(scheme, "https://") || EqualsIgnoreCase(scheme, "http://"))
      && (www == "" || EqualsIgnoreCase(www, "www."))
      && EqualsIgnoreCase(host, "github.com/")
      && Segment(owner) && Segment(repo)
      && EqualsIgnoreCase(pull, "pull")
    }

    function Text(): string { scheme + (www + (host + PathText(owner, repo, pull))) }

    /** The first group of the match, `owner/repo`. */
    function Slug(): string { owner + "/" + repo }
  }

  function PathText(owner: string, repo: string, pull: string): string { owner + ("/" + (repo + ("/" + (pull + "/")))) }

  /** `[^/]+`. */
  predicate Segment(s: string) { |s| > 0 && '/' !in s }

  /**
   * A matched `pr` argument: an optional URL, the pull request number, and
   * whether a single trailing newline followed it (which `$` accepts).
   */
  datatype PrRef = PrRef(url: Option<PullUrl>, number: string, newline: bool) {

    predicate WellFormed() {
      (url.Some? ==> url.value.WellFormed()) && IsNumeral(number)
    }

    function Text(): string {
      (match url case None => "" case Some(u) => u.Text()) + number + NewlineText(newline)
    }
  }

  /** A literal of the pattern at the front of s, matched ignoring case: the text it matched and what follows. */
  function SplitLiteral(s: string, lit: string): (r: Option<(string, string)>)
    ensures r.Some? ==> EqualsIgnoreCase(r.value.0, lit) && r.value.0 + r.value.1 == s
    ensures r.None? <==> !StartsWithIgnoreCase(s, lit)
  {
    if StartsWithIgnoreCase(s, lit) then
      assert s == s[..|lit|] + s[|lit|..];
      Some((s[..|lit|], s[|lit|..]))
    else None
  }

  lemma SplitLiteralComplete(a: string, b: string, lit: string)
    requires EqualsIgnoreCase(a, lit)
    ensures SplitLiteral(a + b, lit) == Some((a, b))
  {
    assert (a + b)[..|lit|] == a && (a + b)[|lit|..] == b;
  }

  /** A character that does not match its place in the literal keeps the literal from matching. */
  lemma Mismatch(s: string, lit: string, k: nat)
    requires k < |lit| && k < |s| && Lower(s[k]) != Lower(lit[k])
    ensures !StartsWithIgnoreCase(s, lit)
  {
    if |lit| <= |s| {
      assert s[..|lit|][k] == s[k];
    }
  }

  /** `([^/]+/[^/]+)/pull/`: the owner, the repository and the `pull` literal. */
  /** The text before the first `/` and the text after it. */
  function SplitAtSlash(s: string): (r: Option<(string, string)>)
    ensures r.Some? ==> '/' !in r.value.0 && r.value.0 + ("/" + r.value.1) == s
    ensures r.None? <==> '/' !in s
  {
    match FindChar(s, '/')
    case None => None
    case Some(i) =>
      assert s == s[..i] + ("/" + s[i + 1..]);
      Some((s[..i], s[i + 1..]))
  }

  lemma FindCharOfSegment(a: string, rest: string)
    requires '/' !in a
    ensures FindChar(a + "/" + rest, '/') == Some(|a|)
    decreases |a|
  {
    var s := a + "/" + rest;
    if a != [] {
      assert s[1..] == a[1..] + "/" + rest;
      FindCharOfSegment(a[1..], rest);
    }
  }

  lemma SplitAtSlashOfSegment(a: string, rest: string)
    requires '/' !in a
    ensures SplitAtSlash(a + ("/" + rest)) == Some((a, rest))
  {
    FindCharOfSegment(a, rest);
    var s := a + ("/" + rest);
    assert s == a + "/" + rest;
    assert s[..|a|] == a && s[|a| + 1..] == rest;
  }

  function ParsePath(s: string): (r: Option<(string, string, string)>)
    ensures r.Some? ==> Segment(r.value.0) && Segment(r.value.1) && EqualsIgnoreCase(r.value.2, "pull")
    ensures r.Some? ==> PathText(r.value.0, r.value.1, r.value.2) == s
  {
    match SplitAtSlash(s)
    case None => None
    case Some(first) =>
      match SplitAtSlash(first.1)
      case None => None
      case Some(second) =>
        match SplitLiteral(second.1, "pull")
        case None => None
        case Some(p) =>
          if first.0 == "" || second.0 == "" || p.1 != "/" then None
          else Some((first.0, second.0, p.0))
  }

  lemma ParsePathComplete(owner: string, repo: string, pull: string)
    requires Segment(owner) && Segment(repo) && EqualsIgnoreCase(pull, "pull")
    ensures ParsePath(PathText(owner, repo, pull)) == Some((owner, repo, pull))
  {
    SplitAtSlashOfSegment(owner, repo + ("/" + (pull + "/")));
    SplitAtSlashOfSegment(repo, pull + "/");
    SplitLiteralComplete(pull, "/", "pull");
  }

  /** `https?://`, matched ignoring case, and what follows it. */
  function SplitScheme(s: string): (r: Option<(string, string)>)
    ensures r.Some? ==> (EqualsIgnoreCase(r.value.0, "https://") || EqualsIgnoreCase(r.value.0, "http://"))
                        && r.value.0 + r.value.1 == s
    ensures r.None? <==> !StartsWithIgnoreCase(s, "https://") && !StartsWithIgnoreCase(s, "http://")
  {
    match SplitLiteral(s, "https://")
    case Some(p) => Some(p)
    case None => SplitLiteral(s, "http://")
  }

  /** `(?:www\.)?`, matched ignoring case, and what follows it. */
  function SplitWww(s: string): (r: (string, string))
    ensures (r.0 == "" || EqualsIgnoreCase(r.0, "www.")) && r.0 + r.1 == s
    ensures r.0 == "" <==> !StartsWithIgnoreCase(s, "www.")
  {
    match SplitLiteral(s, "www.")
    case Some(p) => p
    case None => assert "" + s == s; ("", s)
  }

  /** The URL part of the pattern, on the text before the number. */
  function ParseUrl(prefix: string): (r: Option<PullUrl>)
    ensures r.Some? ==> r.value.WellFormed() && r.value.Text() == prefix
  {
    match SplitScheme(prefix)
    case None => None
    case Some(sp) =>
      var wp := SplitWww(sp.1);
      match SplitLiteral(wp.1, "github.com/")
      case None => None
      case Some(hp) =>
        match ParsePath(hp.1)
        case None => None
        case Some(path) =>
          Some(PullUrl(sp.0, wp.0, hp.0, path.0, path.1, path.2))
  }

  /** Every well-formed URL part is read back by ParseUrl. */
  lemma ParseUrlComplete(u: PullUrl)
    requires u.WellFormed()
    ensures ParseUrl(u.Text()) == Some(u)
  {
    var path := PathText(u.owner, u.repo, u.pull);
    var afterWww := u.host + path;
    var afterScheme := u.www + afterWww;
    if EqualsIgnoreCase(u.scheme, "https://") {
      SplitLiteralComplete(u.scheme, afterScheme, "https://");
    } else {
      Mismatch(u.scheme + afterScheme, "https://", 4);
      SplitLiteralComplete(u.scheme, afterScheme, "http://");
    }
    if u.www == "" {
      assert afterScheme == afterWww;
      Mismatch(afterWww, "www.", 0);
    } else {
      SplitLiteralComplete(u.www, afterWww, "www.");
    }
    SplitLiteralComplete(u.host, path, "github.com/");
    ParsePathComplete(u.owner, u.repo, u.pull);
  }

  function NewlineText(newline: bool): string { if newline then "\n" else "" }

  /**
   * The end of the pattern, `([0-9]+)$`: an optional final newline, before it
   * the run of digits, and before that whatever is left for the URL part.
   */
  function SplitNumber(pr: string): (r: (string, string, bool))
    ensures r.0 + r.1 + NewlineText(r.2) == pr
    ensures AllDigits(r.1) && (r.0 == [] || !IsDigit(r.0[|r.0| - 1]))
    ensures r.2 <==> |pr| > 0 && pr[|pr| - 1] == '\n'
  {
    var (body, newline) := StripNewline(pr);
    var (prefix, number) := SplitDigits(body);
    (prefix, number, newline)
  }

  /** The one final newline `$` lets through, and the text before it. */
  function StripNewline(pr: string): (r: (string, bool))
    ensures r.0 + NewlineText(r.1) == pr
    ensures r.1 <==> |pr| > 0 && pr[|pr| - 1] == '\n'
  {
    if |pr| > 0 && pr[|pr| - 1] == '\n' then
      assert pr == pr[..|pr| - 1] + "\n";
      (pr[..|pr| - 1], true)
    else
      assert pr + "" == pr;
      (pr, false)
  }

  /** The longest run of digits at the end of the text, and what precedes it. */
  function SplitDigits(body: string): (r: (string, string))
    ensures r.0 + r.1 == body
    ensures AllDigits(r.1) && (r.0 == [] || !IsDigit(r.0[|r.0| - 1]))
  {
    var m := |body| - DigitSuffixLength(body);
    var prefix, number := body[..m], body[m..];
    assert prefix + number == body by { }
    assert AllDigits(number) by {
      assert forall k :: 0 <= k < |number| ==> number[k] == body[m + k];
    }
    assert prefix == [] || !IsDigit(prefix[|prefix| - 1]) by {
      if m > 0 {
        assert prefix[m - 1] == body[m - 1];
      }
    }
    (prefix, number)
  }

  /**
   * `re.match` of the `pr` pattern: the number is the run of digits at the
   * end (before an optional final newline), and what precedes it must be
   * empty or a pull request URL.
   */
  function ParsePr(pr: string): (r: Option<PrRef>)
    ensures r.Some? ==> r.value.WellFormed() && r.value.Text() == pr
  {
    var split := SplitNumber(pr);
    var prefix, number, newline := split.0, split.1, split.2;
    if number == "" then None
    else if prefix == "" then
      assert PrRef(None, number, newline).Text() == pr by {
        assert "" + number == number;
      }
      Some(PrRef(None, number, newline))
    else match ParseUrl(prefix)
      case None => None
      case Some(u) =>
        assert PrRef(Some(u), number, newline).Text() == pr by {
          assert u.Text() == prefix;
        }
        Some(PrRef(Some(u), number, newline))
  }

  lemma SplitNumberComplete(prefix: string, number: string, newline: bool)
    requires IsNumeral(number)
    requires prefix == [] || !IsDigit(prefix[|prefix| - 1])
    ensures SplitNumber(prefix + number + NewlineText(newline)) == (prefix, number, newline)
  {
    var body := prefix + number;
    assert body[|body| - 1] == number[|number| - 1];
    StripNewlineComplete(body, newline);
    SplitDigitsComplete(prefix, number);
  }

  lemma StripNewlineComplete(body: string, newline: bool)
    requires body != [] && body[|body| - 1] != '\n'
    ensures StripNewline(body + NewlineText(newline)) == (body, newline)
  {
    var pr := body + NewlineText(newline);
    if newline {
      assert pr[..|pr| - 1] == body;
    } else {
      assert pr == body;
    }
  }

  lemma SplitDigitsComplete(prefix: string, number: string)
    requires IsNumeral(number)
    requires prefix == [] || !IsDigit(prefix[|prefix| - 1])
    ensures SplitDigits(prefix + number) == (prefix, number)
  {
    var body := prefix + number;
    DigitSuffixOfNumeral(prefix, number);
    assert body[..|body| - |number|] == prefix && body[|body| - |number|..] == number;
  }

  /**
   * Every well-formed argument is accepted and read back as itself: together
   * with the ensures of ParsePr, an argument is accepted exactly when it is
   * the text of a well-formed PrRef, and that PrRef is what is read.
   */
  lemma ParsePrComplete(t: PrRef)
    requires t.WellFormed()
    ensures ParsePr(t.Text()) == Some(t)
  {
    match t.url
    case None =>
      assert t.Text() == "" + t.number + NewlineText(t.newline);
      SplitNumberComplete("", t.number, t.newline);
    case Some(u) =>
      var prefix := u.Text();
      assert t.Text() == prefix + t.number + NewlineText(t.newline);
      assert prefix[|prefix| - 1] == '/' by {
        var path := PathText(u.owner, u.repo, u.pull);
        assert path[|path| - 1] == '/';
        assert prefix == (u.scheme + u.www + u.host) + path;
      }
      SplitNumberComplete(prefix, t.number, t.newline);
      ParseUrlComplete(u);
  }

  /** The run of digits at the end of `prefix + number` is the numeral, when prefix does not end in a digit. */
  lemma DigitSuffixOfNumeral(prefix: string, number: string)
    requires IsNumeral(number)
    requires prefix == [] || !IsDigit(prefix[|prefix| - 1])
    ensures DigitSuffixLength(prefix + number) == |number|
  {
    var body := prefix + number;
    var n := DigitSuffixLength(body);
    assert forall k :: |prefix| <= k < |body| ==> IsDigit(body[k]) by {
      forall k | |prefix| <= k < |body| ensures IsDigit(body[k]) {
        assert body[k] == number[k - |prefix|];
      }
    }
    assert n <= |number| by {
      if |prefix| > 0 {
        assert !IsDigit(body[|prefix| - 1]);
      }
    }
  }

  /** Two different well-formed PrRefs have different texts: an accepted argument has exactly one reading. */
  lemma ParsePrUnique(a: PrRef, b: PrRef)
    requires a.WellFormed() && b.WellFormed() && a.Text() == b.Text()
    ensures a == b
  {
    ParsePrComplete(a);
    ParsePrComplete(b);
  }

  // ---------------------------------------------------------------------
  // `review_pr`: the slug and the API request

  /** Python truthiness of an optional string: absent and empty are both false. */
  predicate Truthy(o: Option<string>) { o.Some? && o.value != "" }

  const DefaultSlug := "NixOS/nixpkgs"

  datatype PrError = InvalidPr | SlugWithUrl

  /** The GitHub request `review_pr` sends for the pull request. */
  datatype ApiRequest = ApiRequest(pr: string, slug: string, url: string, headers: map<string, string>)

  function ApiUrl(slug: string, pr: string): string {
    "https://api.github.com/repos/" + slug + "/pulls/" + pr
  }

  /** The slug the command settles on, or the clash of a URL with `--slug`. */
  function ResolveSlug(m: PrRef, slug: Option<string>): Result<string, PrError> {
    match m.url
    case Some(u) => if Truthy(slug) then Failure(SlugWithUrl) else Success(u.Slug())
    case None => if Truthy(slug) then Success(slug.value) else Success(DefaultSlug)
  }

  /**
   * Lines 111-129 of `review_pr`: parse the argument, resolve the slug, and
   * build the URL and headers of the API request.
   */
  method ReviewPr(pr: string, slug: Option<string>, token: Option<string>) returns (r: Result<ApiRequest, PrError>)
    ensures ParsePr(pr).None? ==> r == Failure(InvalidPr)
    ensures r.Success? <==> ParsePr(pr).Some? && !(ParsePr(pr).value.url.Some? && Truthy(slug))
    ensures r == Failure(SlugWithUrl) <==> ParsePr(pr).Some? && ParsePr(pr).value.url.Some? && Truthy(slug)
    ensures r.Success? ==> ParsePr(pr).Some? && r.value.pr == ParsePr(pr).value.number
    ensures r.Success? ==> ResolveSlug(ParsePr(pr).value, slug) == Success(r.value.slug)
    ensures r.Success? ==> r.value.url == ApiUrl(r.value.slug, r.value.pr)
    ensures r.Success? ==> ("Authorization" in r.value.headers <==> Truthy(token))
    ensures r.Success? ==> r.value.headers.Keys <= {"Authorization"}
    ensures r.Success? && Truthy(token) ==> r.value.headers["Authorization"] == "token " + token.value
  {
    var m := ParsePr(pr);
    if m.None? {
      return Failure(InvalidPr);
    }
    var number := m.value.number;
    var chosen: string;
    if m.value.url.Some? {
      if Truthy(slug) {
        return Failure(SlugWithUrl);
      }
      chosen := m.value.url.value.Slug();
    } else if !Truthy(slug) {
      chosen := DefaultSlug;
    } else {
      chosen := slug.value;
    }
    var headers: map<string, string> := map[];
    if Truthy(token) {
      headers := headers["Authorization" := "token " + token.value];
    }
    r := Success(ApiRequest(number, chosen, ApiUrl(chosen, number), headers));
  }

  /** The slug of a URL argument is its `owner/repo`: one `/`, with text on both sides. */
  lemma UrlSlugHasOneSlash(t: PrRef, slug: Option<string>)
    requires t.WellFormed() && t.url.Some?
    requires ResolveSlug(t, slug).Success?
    ensures var s := ResolveSlug(t, slug).value;
      exists i :: 0 < i < |s| - 1 && s[i] == '/' && '/' !in s[..i] && '/' !in s[i + 1..]
  {
    var u := t.url.value;
    var s := u.Slug();
    var i := |u.owner|;
    assert s[..i] == u.owner && s[i + 1..] == u.repo;
  }

  // ---------------------------------------------------------------------
  // The command group

  datatype CliContext = CliContext(extraArgs: seq<string>, dryRun: bool, tests: bool, noBlacklist: bool)

  const KeepGoing := "--keep-going"

  /** `cli`: the options every sub-command reads from the context. */
  method Cli(keepGoing: bool, dryRun: bool, withTests: bool, allTests: bool) returns (ctx: CliContext)
    ensures ctx.extraArgs == if keepGoing then [KeepGoing] else []
    ensures ctx.dryRun == dryRun && ctx.tests == withTests && ctx.noBlacklist == allTests
  {
    var extraArgs: seq<string> := [];
    if keepGoing {
      extraArgs := extraArgs + [KeepGoing];
    }
    ctx := CliContext(extraArgs, dryRun, withTests, allTests);
  }

  // ---------------------------------------------------------------------
  // What to build

  /** A package or test of a nixpkgs revision, by attribute. */
  datatype Buildable = Buildable(attr: string)

  /**
   * The listings of a revision, as given: its packages, and its NixOS tests
   * with or without the blacklist of known false positives. `None` stands for
   * the working tree.
   */
  datatype Listing = Listing(packages: Option<string> -> set<Buildable>,
                             tests: (Option<string>, bool) -> set<Buildable>)

  /** The buildables listed for one revision: its packages, and its tests when asked for. */
  function Listed(listing: Listing, sha: Option<string>, withTests: bool, disableTestBlacklist: bool): set<Buildable> {
    listing.packages(sha) + (if withTests then listing.tests(sha, disableTestBlacklist) else {})
  }

  datatype BuildRequest = NothingChanged | Build(buildables: set<Buildable>, args: seq<string>, dryRun: bool)

  function NixpkgsOverride(canonicalPath: string): seq<string> { ["-I", "nixpkgs=" + canonicalPath] }

  /**
   * `build_sha`, at the revision checked out under `canonicalPath` (the
   * resolved path): nothing to build reports "Nothing changed"; otherwise
   * the build commands get the extra arguments followed by a `-I` that
   * points `nixpkgs` at that checkout.
   */
  function BuildSha(canonicalPath: string, buildables: set<Buildable>, extraArgs: seq<string>, dryRun: bool): (r: BuildRequest)
    ensures r.NothingChanged? <==> buildables == {}
    ensures r.Build? ==> r.buildables == buildables && r.dryRun == dryRun
    ensures r.Build? ==> |r.args| == |extraArgs| + 2 && r.args[..|extraArgs|] == extraArgs
    ensures r.Build? ==> r.args[|extraArgs|] == "-I" && r.args[|extraArgs| + 1] == "nixpkgs=" + canonicalPath
  {
    if buildables == {} then NothingChanged
    else Build(buildables, extraArgs + NixpkgsOverride(canonicalPath), dryRun)
  }

  function Progress(withTests: bool): seq<string> {
    ["Listing old packages..."] + (if withTests then ["Listing old tests..."] else [])
    + ["Listing new packages..."] + (if withTests then ["Listing new tests..."] else [])
  }

  /**
   * `build_difference`: list both revisions, adding the tests to each side
   * when asked, and build what the new revision lists and the old does not.
   */
  method BuildDifference(listing: Listing, oldSha: Option<string>, newSha: Option<string>, canonicalPath: string,
                         extraArgs: seq<string>, withTests: bool, disableTestBlacklist: bool, dryRun: bool)
    returns (log: seq<string>, request: BuildRequest)
    ensures log == Progress(withTests)
    ensures request == BuildSha(canonicalPath, Listed(listing, newSha, withTests, disableTestBlacklist)
                                               - Listed(listing, oldSha, withTests, disableTestBlacklist),
                                extraArgs, dryRun)
  {
    log := ["Listing old packages..."];
    var before := listing.packages(oldSha);
    if withTests {
      log := log + ["Listing old tests..."];
      before := before + listing.tests(oldSha, disableTestBlacklist);
    }
    log := log + ["Listing new packages..."];
    var after := listing.packages(newSha);
    if withTests {
      log := log + ["Listing new tests..."];
      after := after + listing.tests(newSha, disableTestBlacklist);
    }
    request := BuildSha(canonicalPath, after - before, extraArgs, dryRun);
  }

  /**
   * What gets built: exactly what the new revision lists and the old does
   * not; the same listing on both sides builds nothing.
   */
  lemma BuiltIsNewlyListed(listing: Listing, oldSha: Option<string>, newSha: Option<string>, canonicalPath: string,
                           extraArgs: seq<string>, withTests: bool, disableTestBlacklist: bool, dryRun: bool)
    ensures var before := Listed(listing, oldSha, withTests, disableTestBlacklist);
      var after := Listed(listing, newSha, withTests, disableTestBlacklist);
      var r := BuildSha(canonicalPath, after - before, extraArgs, dryRun);
      && (r.NothingChanged? <==> after <= before)
      && (r.Build? ==> forall b :: b in r.buildables <==> b in after && b !in before)
  {
    var before := Listed(listing, oldSha, withTests, disableTestBlacklist);
    var after := Listed(listing, newSha, withTests, disableTestBlacklist);
    if after - before == {} {
      assert forall b :: b in after ==> b in before by {
        forall b | b in after ensures b in before {
          assert b !in after - before;
        }
      }
    }
  }
}
