# nox, modelled in Dafny

This project models the decision logic of nox, a set of Nix helper commands:

- `nox-update` (`nox/update.py`) explains a NixOS system upgrade.
  - It reads store paths: a path's full name, package name and version, the blacklist of source, patch and boot-script paths, and how the path is displayed.
  - It pairs every new requisite of the system with the current requisite of the same name and the same "has a version" flag.
  - It sorts each new requisite into one of four buckets: new package, new version, new expression, or rest.
  - It builds the inverted map from a changed reference to the packages that gained it.
  - It prints the packages of the first three buckets, each with a depth-first dependency tree that expands every package once. Of the rest bucket it reports only the paths no tree reached.
- `nox-review` (`nox/review.py`) builds what a pull request or a working tree changes.
  - It parses the `pr` argument, which is a number or a GitHub pull-request URL, and resolves the repository slug.
  - It builds the GitHub API request and the flags of the command group.
  - It selects what to build: the packages (and tests) the new revision lists and the old one does not.
- `nox` (`nox/search.py`, and its older copy `nox/main.py`) searches packages.
  - It filters the packages by query and sorts them in tuple order.
  - It numbers the results from 1 and parses the answer to the prompt: a leading `s` means a shell, then one number per package, read as Python list indices.
  - It builds the `nix-env` / `nix-shell` command.

Files and modules:

| file | module | models |
|---|---|---|
| `outcomes.dfy` | `Outcomes` | `Option` and `Result` |
| `text.dfy` | `Text` | Python string operations used by the code: slices with negative and clamped bounds, `in`, `str.split()`, `int()`, `str(n)`, string order |
| `sorting.dfy` | `Sorting` | `list.sort()` on a list the caller owns |
| `nix_path.dfy` | `NixPaths` | `NixPath`, `is_blacklisted`, `display_path`, `reqs`/`refs` over the store |
| `deps_tree.dfy` | `DepsTrees` | `DepsTree` and its `show`, as a class proved against a functional walk |
| `update.dfy` | `Update` | the body of `main` in `nox/update.py` |
| `review.dfy` | `Review` | `review_pr` up to the HTTP request, `cli`, `build_difference`, `build_sha` |
| `search.dfy` | `PackageSearch` | `nox/search.py` |
| `legacy_search.dfy` | `LegacySearch` | `nox/main.py`, reusing the search functions the two files share |

Modelling choices:

- **External programs are parameters.** The answers of external programs are given to the model:
  - the store's requisites and references (`NixPaths.Store`);
  - the package and test listings of a revision (`Review.Listing`);
  - the JSON package listing;
  - the new system derivation;
  - the resolved checkout path;
  - the answer typed at the prompt.
- **Iteration order is a parameter.** Where the code iterates over a Python set, the order is a sequence. A precondition states that the sequence lists the set's members once each.
- **Python truthiness is kept.** For `if token:` and `if slug:`, an empty string counts as absent.
- **Case-insensitive matching.** The pull-request pattern ignores case. This covers the ASCII letters and the four non-ASCII letters that Python also matches against `i`, `s` and `k` (`Text.Lower`).
- **`$` in the pattern** accepts one trailing newline, as Python's does.
- **`NixPath` is a datatype whose only field is the path.** The source class declares `path` as its only attribute, so equality, hashing and set difference work path by path.
- **`DepsTree` is a class.** Its method `Show` is proved to leave exactly the `seen` set and output that the functional `ShowSpec` describes. The properties of the walk are lemmas about `ShowSpec`.
- **Pairing by name only.** `nox/update.py` pairs a new package with a current one only by `(name, has-version)`. It has no version matching beyond that, no split of a version into parts, and no depth limit on the printed trees. The model follows the code.

## Model

| member | source | states |
|---|---|---|
| Text.Slice | nox/update.py:33 | a Python slice with negative and clamped bounds: no longer than the sequence, the plain subsequence for in-range bounds and for a negative end counted from the back (as in `path[44:-4]`), empty when the bounds cross |
| Text.Contains | nox/search.py:57 | `needle in hay` holds exactly when the needle occurs at some position of hay |
| Text.WordsOfJoin | nox/search.py:76 | `str.split()` gives back the words that were joined by single spaces |
| Text.ParseInt | nox/search.py:76 | `int(token)` succeeds exactly for an optional sign followed by digits; the value is the decimal value of the digits, negated after `-` |
| Text.ParseIntOfNatToString | nox/search.py:61-76 | reading back a printed number gives the number |
| Text.StrLtTrichotomy | nox/search.py:60 | any two strings are equal or ordered one way or the other |
| Sorting.Sort | nox/update.py:124-126 | the result is sorted by the comparison and is a permutation of the input |
| Sorting.SortedUnique | nox/search.py:60 | under an order without ties, two sorted permutations of the same list are equal |
| NixPaths.FindDashDigit | nox/update.py:35 | finds the leftmost `-` followed by a digit, and reports none when there is none |
| NixPaths.SplitName | nox/update.py:35-41 | with a dash-digit, `name + "-" + version` is the full name, the version starts with a digit and the name has no dash-digit; without one, the name is the full name and the version is absent |
| NixPaths.NixPath.FullName | nox/update.py:31-33 | the path is the 44-character prefix, then the full name, then `.drv` for a derivation; the full name is empty for paths too short for that |
| NixPaths.HasVersion | nox/update.py:101 | `bool(version)` is exactly "a version is present", since a present version is never empty |
| NixPaths.ContainsAny | nox/update.py:24 | true exactly when one of the patterns occurs in the path |
| NixPaths.IsBlacklisted | nox/update.py:21-24 | true exactly when one of `.tar.`, `.tgz`, `.zip`, `stage-1-init`, `stage-2-init`, `.patch` occurs in the path |
| NixPaths.DisplayPath | nox/update.py:67-72 | the styled part is the full name, with the requested styling; removing the styling gives the path back exactly for non-`.drv` paths and `.drv` paths of 48 characters or more |
| NixPaths.Reqs | nox/update.py:43-46 | the requisites never contain the path itself nor a blacklisted path, and contain every other requisite |
| NixPaths.ReqsDifferenceByPath | nox/update.py:107 | the difference of two requisite sets is taken path by path |
| DepsTrees.RenderLayout | nox/update.py:81-88 | a printed line is two spaces per level, then the path, then ` [...]` exactly for a collapsed package |
| DepsTrees.ShowSpec | nox/update.py:80-88 | a walk only adds to `seen`, and the shown package ends up in it |
| DepsTrees.ShowList | nox/update.py:85-86 | walking a list of references only adds to `seen` |
| DepsTrees.ShowExpandsOnce | nox/update.py:80-88 | the packages printed in full are pairwise distinct, and they are exactly the packages the walk added to `seen` |
| DepsTrees.ShowListExpandsOnce | nox/update.py:85-86 | the same for a list of references walked in turn |
| DepsTrees.RevisitIsCollapsed | nox/update.py:87-88 | a package already seen is printed collapsed and nothing else happens |
| DepsTrees.MissingKeyIsLeaf | nox/update.py:85 | a package with no entry in the map has no children |
| DepsTrees.DepsTree.constructor | nox/update.py:76-78 | a new tree has seen nothing |
| DepsTrees.DepsTree.Show | nox/update.py:80-88 | `show` leaves exactly the `seen` set and printed lines of `ShowSpec` |
| DepsTrees.DepsTree.ShowChildren | nox/update.py:85-86 | the loop over a package's dependents leaves exactly the `seen` set and printed lines of `ShowList` |
| Update.IndexCurrent | nox/update.py:101-102 | each entry of `current_names` is a non-blacklisted current requisite under its own key, and every such requisite's key has an entry |
| Update.BucketOf | nox/update.py:108-122 | the bucket is decided in the loop's order: no previous package, else a different version, else equal references, else the rest |
| Update.RecordDependent | nox/update.py:114-115 | every gained reference gets the package appended to its list, and no other list changes |
| Update.Classify | nox/update.py:105-122 | the four lists are the packages of each bucket in loop order; the map records each package under exactly the references it gained |
| Update.BucketsPartition | nox/update.py:107-122 | the four buckets together hold every changed package exactly as often as it occurs |
| Update.SelectIsOfBucket | nox/update.py:109-122 | a bucket holds only changed packages of its kind |
| Update.VersionChangesAreNewVersions | nox/update.py:117-118 | the `new_versions` entries are the new-version bucket, each paired with its previous version |
| Update.NewVersionHasBothVersions | nox/update.py:108-118 | a version change is always between two present versions, so the heading never prints `None` |
| Update.DependentsAreGainers | nox/update.py:113-115 | `r -> path` is an edge exactly when a changed package at that path has a previous package and gained `r`; new packages add no edges |
| Update.ByNameIsTotalPreorder | nox/update.py:124-126 | ordering by name, for packages and for version pairs, is total and transitive |
| Update.ExplainSpec | nox/update.py:130-141 | printing the headings and trees only adds to `seen` |
| Update.Explain | nox/update.py:128-141 | the printing loops leave the lines and `seen` that `ExplainSpec` describes, and the walker's output grows by exactly the tree lines |
| Update.Run | nox/update.py:92-145 | no new system gives "No system updates"; otherwise the four lists are sorted by name and hold exactly their buckets, the map is the gained-reference map, the lines are the headings and trees, and `forgotten` is exactly the rest paths the trees never reached |
| Review.SplitLiteral | nox/review.py:113 | a literal of the pattern is matched ignoring case at the front, and splits the text there |
| Review.SplitScheme | nox/review.py:113 | `https?://` is matched ignoring case at the front, found exactly when the text starts with either form, and the text splits there |
| Review.SplitWww | nox/review.py:113 | the optional `www.` is taken exactly when present, ignoring case, and the text splits there |
| Review.SplitAtSlash | nox/review.py:113 | a `[^/]+/` step: the text before the first `/` has no `/`, and the text is that part, `/`, and the rest; there is no split exactly when the text has no `/` |
| Review.ParsePath | nox/review.py:113 | `owner/repo/pull/` splits into two non-empty segments without `/` and the `pull` literal, and reassembles to the input |
| Review.ParseUrl | nox/review.py:113 | an accepted URL part is well formed and reassembles to the input |
| Review.ParseUrlComplete | nox/review.py:113 | every well-formed URL part is accepted and read back as itself |
| Review.SplitNumber | nox/review.py:113 | the argument is prefix, trailing digits and an optional final newline; the newline is split off exactly when the argument ends in one, and the prefix never ends in a digit, so the digit run is the longest one |
| Review.StripNewline | nox/review.py:113 | the one final newline `$` accepts is split off exactly when the text ends in a newline |
| Review.SplitDigits | nox/review.py:113 | the text is a prefix not ending in a digit, followed by a run of digits |
| Review.ParsePr | nox/review.py:113-117 | an accepted argument is a well-formed number or URL, and `pr` becomes its digits |
| Review.ParsePrComplete | nox/review.py:113-117 | every well-formed argument is accepted and read back as itself; with `ParsePr`, an argument is accepted exactly when it is a number or pull URL |
| Review.ParsePrUnique | nox/review.py:113-117 | an accepted argument has exactly one reading |
| Review.ReviewPr | nox/review.py:113-129 | an invalid argument is an error, and so is a URL with `--slug`; every other argument succeeds; the slug is the URL's `owner/repo`, else `--slug`, else `NixOS/nixpkgs`; the API URL is built from slug and number; an `Authorization: token …` header is present exactly when a token was given |
| Review.UrlSlugHasOneSlash | nox/review.py:118-122 | the slug taken from a URL is `owner/repo`, with text on both sides of its one `/` |
| Review.Cli | nox/review.py:69-76 | the extra arguments are `--keep-going` when `-k` was given and empty otherwise; the other options are passed on unchanged |
| Review.BuildSha | nox/review.py:14-26 | nothing to build exactly when the set is empty; otherwise the build gets the extra arguments followed by `-I nixpkgs=<resolved path>` |
| Review.BuildDifference | nox/review.py:39-50 | the progress messages depend on `with_tests`, and what is built is the new listing minus the old, with tests on both sides only when asked |
| Review.BuiltIsNewlyListed | nox/review.py:39-50 | a package is built exactly when the new revision lists it and the old does not, and nothing is built when the new listing adds nothing (the cases of nox/tests/test_review.py:20-28) |
| PackageSearch.AllPackages | nox/search.py:42-48 | one package per JSON entry, in order, with `''` for a missing description |
| PackageSearch.MissingDescriptionIsEmpty | nox/search.py:47-48 | a package without a description is listed with the empty description |
| PackageSearch.FilterCounts | nox/search.py:56-57 | a package is kept exactly when the query occurs in its attribute, name or description, as often as it is listed |
| PackageSearch.FilterMembership | nox/search.py:56-57 | a package is in the results exactly when it is listed and matches |
| PackageSearch.EmptyQueryKeepsAll | nox/search.py:52-57 | the default query keeps every package in its place |
| PackageSearch.PackageLeIsTotalOrder | nox/search.py:60 | tuple order on packages is total, transitive and has no ties between different packages |
| PackageSearch.SortedResultsAreUnique | nox/search.py:60 | the sorted results are fully determined by the packages |
| PackageSearch.NumberedLines | nox/search.py:61-67 | line k shows number k+1, then name, attribute and description of the k-th result |
| PackageSearch.ListResults | nox/search.py:61-67 | the printing loop produces the numbered lines |
| PackageSearch.PyIndex | nox/search.py:76 | a list index is valid exactly from -n to n-1, negative indices counting from the end |
| PackageSearch.SelectTokens | nox/search.py:76 | the tokens select packages in order, duplicates kept, or the first failing token's error is raised |
| PackageSearch.ParseInput | nox/search.py:70-77 | empty input fails; a leading `s` and only that gives a shell; the packages are those the remaining tokens select, and a bad token fails with the error of the first bad token |
| PackageSearch.NumberSelectsItsLine | nox/search.py:61-76 | typing the number shown on a line selects that line's package for install |
| PackageSearch.LineStartsWithNumber | nox/search.py:61-65 | the first word of the k-th printed line is the number k+1 |
| PackageSearch.ShownNumberIndex | nox/search.py:72-76 | a shown number is a numeral, and as a token it picks the package at index k |
| PackageSearch.SingleTokenSelects | nox/search.py:76 | a single numeral answer selects the one package it names |
| PackageSearch.ZeroSelectsLast | nox/search.py:76 | `0` selects the last result |
| PackageSearch.StripChannel | nox/search.py:85 | the first eight characters are dropped whatever they are, which removes exactly `nixpkgs.` from attributes of that channel |
| PackageSearch.OtherChannelIsCut | nox/search.py:85 | the cut ignores the channel name: a channel name shorter than `nixpkgs` costs the package name as many leading characters as it is shorter than `nixpkgs`, and a longer one leaves part of the channel name in front |
| PackageSearch.Attributes | nox/search.py:81 | the attributes of the selected packages, in order |
| PackageSearch.StripChannels | nox/search.py:85 | the channel cut applied to each attribute, in order |
| PackageSearch.Command | nox/search.py:81-86 | `nix-env -iA --show-trace` followed by the attributes, or `nix-shell -p --show-trace` followed by the cut attributes |
| PackageSearch.Run | nox/search.py:53-86 | a failed evaluation, and only that, gives its error message; otherwise the results are the sorted matches, numbered from 1, and a non-empty listing leads to the command for the answer or to its error |
| LegacySearch.Command | nox/main.py:57-62 | `nix-env -iA` followed by the attributes, or `nix-shell -p` followed by the cut attributes |
| LegacySearch.NewerCommandAddsShowTrace | nox/main.py:57-62 | the newer command line is the older one with `--show-trace` after the program's flag |
| LegacySearch.Search | nox/main.py:31-62 | the results are the sorted matches, numbered from 1, and a non-empty listing leads to the command for the answer or to its error |

## Left out

- Process invocations are not modelled; their answers are parameters. This covers `nix-store --query`, `nixos-rebuild dry-run`, `nix-env`, `nix-shell`, `nix-build` and `git`.
  - The splitting of `nix-store` output into lines is part of the store given to the model.
- `current_system_drv` and `new_system_drv` are left out (nox/update.py:52-64). They read the file system and scrape command output, so `Update.Run` takes the derivations as parameters.
- Caching is left out: dogpile regions, `key_for_path` and `nox/cache.py`. It memoises and does not change results.
- The GitHub request itself is left out, along with the rate-limit check, the fetch of the base and the PR, the depth-doubling merge loop and the commit lookup (nox/review.py:130-181). These are network and git state.
- `wip` (nox/review.py:79-98) is left out. It probes the file system and git. It returns without building when there is no `default.nix` (nox/review.py:85-87), and when the working tree is clean and `--against` is `HEAD` (nox/review.py:91-94). Otherwise it calls `build_difference` against the working tree, which `Review.BuildDifference` covers with `None` as the new revision.
- `setup_nixpkgs_config` is left out. It writes a temporary file and changes the environment.
- `packages_for_sha` (nox/nixpkgs_repo.py:86) is not part of this model. `get_build_commands`, `at_given_sha` and `tests_for_sha` are imported by nox/review.py:11 but defined nowhere in the repository. The listings are parameters, and `Review.BuildSha` stops at the arguments it passes to `get_build_commands`.
- Output is modelled as plain text without terminal styling.
  - `display_path` keeps the styled part apart in `Styled`.
  - The progress messages, the temporary result directory and the listing of results of `build_sha` are left out.
  - The two error texts `review_pr` echoes before exiting with status 1 are represented by the `Review.PrError` values.
- The prompt is left out: click asks again on empty input and passes only non-empty input to `parse_input`. `PackageSearch.ParseInput` still models the empty case of the function itself.
- Errors from malformed JSON are left out: a missing `name` or `meta` raises `KeyError` in `all_packages`, and `RawPackage` always has both.
- `Text.IsSpace` only knows the ASCII whitespace. `str.split()` also splits on other Unicode whitespace; those characters are not modelled as separators.
- `Text.ParseInt` accepts an optional sign and ASCII digits. `int()` also accepts underscores between digits and non-ASCII decimal digits.
- `DepsTrees.DepsTree.Show`: the `changed_refs_tree[pkg]` read on a defaultdict inserts an empty list for a missing key. The map is a value here, and the inserted empty lists change no later read.
- `Update.Run`: the closing "Some packages where forgotten" message (nox/update.py:144-145) is not among the lines; it prints a Python set, whose order is not defined, and the model gives that set as `forgotten` instead.
- `Update.Run`: the order among packages with equal names is not pinned down. Python's sort keeps the loop order for them. For the search results the order has no ties, and `PackageSearch.SortedResultsAreUnique` shows the result is the one Python gives.
- `Sorting.Sort`: stability is not proved. The contract is a sorted permutation, although the insertion places each element after the equal ones already placed.
- `NixPaths.FindDashDigit` and `NixPaths.SplitName` treat only ASCII `0`-`9` as digits. In Python 3, `\d` in `-(\d.*)` (nox/update.py:35) matches any Unicode decimal digit. The model takes store-path names to be ASCII.
- `Update.IndexCurrent`: when two current requisites share a key, the entry that wins depends on the set's iteration order. That order is a parameter; the model proves only that the winner has that key.
- `LegacySearch.Search`: a failed nix evaluation is not modelled. `nox/main.py` does not catch it, so the command fails with the exception.
