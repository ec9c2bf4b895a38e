/**
 * The parts of Python's string semantics that the modelled code relies on:
 * slicing with clamped and negative bounds, `needle in hay`, `startswith`,
 * `endswith`, `str.split()` without arguments, `int()` on a token, `str(n)`
 * on a natural number, and the lexicographic ordering of strings.
 */
module Text {
  import opened Outcomes

  // ---------------------------------------------------------------------
  // Characters

  predicate IsDigit(c: char) { '0' <= c <= '9' }

  /** The ASCII characters that `str.split()` treats as whitespace. */
  predicate IsSpace(c: char) {
    c == ' ' || '\t' <= c <= '\r' || '\U{1C}' <= c <= '\U{1F}'
  }

  predicate AllDigits(s: string) { forall i :: 0 <= i < |s| ==> IsDigit(s[i]) }

  /** A non-empty run of ASCII digits. */
  predicate IsNumeral(s: string) { |s| > 0 && AllDigits(s) }

  /**
   * The case folding of a case-insensitive regular expression, for the
   * characters that fold to ASCII: the ASCII capitals, and the four
   * non-ASCII letters Python also matches against `i`, `s` and `k`.
   */
  function Lower(c: char): (d: char)
    ensures IsDigit(c) || c == '/' || c == ':' || c == '.' ==> d == c
    ensures d == '/' ==> c == '/'
  {
    if 'A' <= c <= 'Z' then (c as int + 32) as char
    else if c == '\U{130}' || c == '\U{131}' then 'i'
    else if c == '\U{17F}' then 's'
    else if c == '\U{212A}' then 'k'
    else c
  }

  predicate EqualsIgnoreCase(a: string, b: string) {
    |a| == |b| && forall i :: 0 <= i < |a| ==> Lower(a[i]) == Lower(b[i])
  }

  predicate StartsWithIgnoreCase(s: string, prefix: string) {
    |prefix| <= |s| && EqualsIgnoreCase(s[..|prefix|], prefix)
  }

  // ---------------------------------------------------------------------
  // Slicing

  /** A Python slice bound: negative bounds count from the end, and both are clamped to the sequence. */
  function SliceBound(i: int, n: nat): (k: nat)
    ensures k <= n
    ensures 0 <= i <= n ==> k == i
    ensures -(n as int) <= i < 0 ==> k == n + i
  {
    if i < 0 then (if n + i < 0 then 0 else n + i)
    else if i > n then n
    else i
  }

  /** `s[i:j]` in Python. */
  function Slice<T>(s: seq<T>, i: int, j: int): (r: seq<T>)
    ensures |r| <= |s|
    ensures 0 <= i <= j <= |s| ==> r == s[i..j]
    ensures 0 <= i && -|s| <= j < 0 && i <= |s| + j ==> r == s[i..|s| + j]
    ensures SliceBound(j, |s|) <= SliceBound(i, |s|) ==> r == []
  {
    var lo, hi := SliceBound(i, |s|), SliceBound(j, |s|);
    if lo < hi then s[lo..hi] else []
  }

  predicate StartsWith(s: string, prefix: string) {
    |prefix| <= |s| && s[..|prefix|] == prefix
  }

  predicate EndsWith(s: string, suffix: string) {
    |suffix| <= |s| && s[|s| - |suffix|..] == suffix
  }

  /** The first position of c in s. */
  function FindChar(s: string, c: char): (r: Option<nat>)
    ensures r.Some? ==> r.value < |s| && s[r.value] == c && c !in s[..r.value]
    ensures r.None? ==> c !in s
  {
    if s == [] then None
    else if s[0] == c then Some(0)
    else match FindChar(s[1..], c)
      case None => None
      case Some(i) =>
        assert s[..i + 1] == [s[0]] + s[1..][..i];
        Some(i + 1)
  }

  /** The length of the run of digits at the end of s. */
  function DigitSuffixLength(s: string): (n: nat)
    ensures n <= |s| && forall k :: |s| - n <= k < |s| ==> IsDigit(s[k])
    ensures n < |s| ==> !IsDigit(s[|s| - n - 1])
  {
    if s == [] || !IsDigit(s[|s| - 1]) then 0
    else
      var init := s[..|s| - 1];
      var n := DigitSuffixLength(init);
      assert forall k :: |s| - (n + 1) <= k < |s| - 1 ==> s[k] == init[k];
      n + 1
  }

  // ---------------------------------------------------------------------
  // Substring search: `needle in hay`

  ghost predicate OccursAt(needle: string, hay: string, i: int) {
    0 <= i && i + |needle| <= |hay| && hay[i..i + |needle|] == needle
  }

  /** `needle in hay`: the needle occurs at some position of hay (the empty needle everywhere). */
  function Contains(hay: string, needle: string): (b: bool)
    ensures b <==> exists i :: OccursAt(needle, hay, i)
    decreases |hay|
  {
    if |needle| > |hay| then false
    else if hay[..|needle|] == needle then
      assert OccursAt(needle, hay, 0);
      true
    else
      OccursAfterFirst(needle, hay);
      Contains(hay[1..], needle)
  }

  /** When the needle is not at the front of hay, it occurs in hay exactly when it occurs in hay[1..]. */
  lemma OccursAfterFirst(needle: string, hay: string)
    requires |needle| <= |hay| && hay[..|needle|] != needle
    ensures (exists i :: OccursAt(needle, hay, i)) <==> (exists j :: OccursAt(needle, hay[1..], j))
  {
    if exists i :: OccursAt(needle, hay, i) {
      var i :| OccursAt(needle, hay, i);
      assert i != 0;
      assert hay[1..][i - 1..i - 1 + |needle|] == hay[i..i + |needle|];
      assert OccursAt(needle, hay[1..], i - 1);
    }
    if exists j :: OccursAt(needle, hay[1..], j) {
      var j :| OccursAt(needle, hay[1..], j);
      assert hay[1..][j..j + |needle|] == hay[j + 1..j + 1 + |needle|];
      assert OccursAt(needle, hay, j + 1);
    }
  }

  // ---------------------------------------------------------------------
  // `str.split()` with no argument, and its inverse `" ".join(words)`

  /** The length of the run of non-space characters at the front of s. */
  function WordLength(s: string): (n: nat)
    ensures n <= |s|
    ensures forall k :: 0 <= k < n ==> !IsSpace(s[k])
    ensures n < |s| ==> IsSpace(s[n])
  {
    if s == [] || IsSpace(s[0]) then 0 else 1 + WordLength(s[1..])
  }

  predicate IsWord(w: string) { |w| > 0 && forall k :: 0 <= k < |w| ==> !IsSpace(w[k]) }

  /** The maximal runs of non-space characters of s, in order. */
  function Words(s: string): (ws: seq<string>)
    ensures forall k :: 0 <= k < |ws| ==> IsWord(ws[k])
    decreases |s|
  {
    if s == [] then []
    else if IsSpace(s[0]) then Words(s[1..])
    else
      var n := WordLength(s);
      [s[..n]] + Words(s[n..])
  }

  function Join(ws: seq<string>, sep: string): string {
    if ws == [] then ""
    else if |ws| == 1 then ws[0]
    else ws[0] + sep + Join(ws[1..], sep)
  }

  lemma WordsAfterWord(w: string, t: string)
    requires IsWord(w)
    requires t == [] || IsSpace(t[0])
    ensures Words(w + t) == [w] + Words(t)
  {
    var s := w + t;
    WordLengthOfWord(w, t);
    assert s[..|w|] == w && s[|w|..] == t;
  }

  lemma {:induction false} WordLengthOfWord(w: string, t: string)
    requires forall k :: 0 <= k < |w| ==> !IsSpace(w[k])
    requires t == [] || IsSpace(t[0])
    ensures WordLength(w + t) == |w|
    decreases |w|
  {
    if w != [] {
      assert (w + t)[1..] == w[1..] + t;
      WordLengthOfWord(w[1..], t);
    } else {
      assert w + t == t;
    }
  }

  /** Splitting the words joined by single spaces gives the words back. */
  lemma {:induction false} WordsOfJoin(ws: seq<string>)
    requires forall k :: 0 <= k < |ws| ==> IsWord(ws[k])
    ensures Words(Join(ws, " ")) == ws
    decreases |ws|
  {
    if ws == [] {
    } else if |ws| == 1 {
      WordsAfterWord(ws[0], []);
      assert ws[0] + [] == ws[0];
    } else {
      var rest := Join(ws[1..], " ");
      WordsOfJoin(ws[1..]);
      assert ws[0] + " " + rest == ws[0] + (" " + rest);
      WordsAfterWord(ws[0], " " + rest);
      assert (" " + rest)[1..] == rest;
      assert ws == [ws[0]] + ws[1..];
    }
  }

  // ---------------------------------------------------------------------
  // Decimal numerals: `str(n)` and `int(token)`

  function DigitChar(d: nat): (c: char)
    requires d < 10
    ensures IsDigit(c)
  {
    ('0' as int + d) as char
  }

  function DigitValue(c: char): nat
    requires IsDigit(c)
  {
    c as int - '0' as int
  }

  /** The value of a run of decimal digits, most significant first. */
  function NumeralValue(s: string): nat
    requires AllDigits(s)
  {
    if s == [] then 0 else 10 * NumeralValue(s[..|s| - 1]) + DigitValue(s[|s| - 1])
  }

  /** `str(n)` for a natural number. */
  function NatToString(n: nat): (s: string)
    ensures IsNumeral(s)
  {
    if n < 10 then [DigitChar(n)] else NatToString(n / 10) + [DigitChar(n % 10)]
  }

  lemma {:induction false} NatToStringValue(n: nat)
    ensures NumeralValue(NatToString(n)) == n
  {
    var s := NatToString(n);
    if n >= 10 {
      NatToStringValue(n / 10);
      assert s[..|s| - 1] == NatToString(n / 10);
    }
  }

  /**
   * `int(token)` for a token without surrounding whitespace: an optional sign
   * followed by a non-empty run of digits; anything else raises ValueError.
   */
  function ParseInt(token: string): (r: Option<int>)
    ensures r.Some? <==> IsNumeral(token) || (|token| > 0 && (token[0] == '+' || token[0] == '-') && IsNumeral(token[1..]))
    ensures IsNumeral(token) ==> r == Some(NumeralValue(token))
    ensures |token| > 0 && token[0] == '+' && IsNumeral(token[1..]) ==> r == Some(NumeralValue(token[1..]))
    ensures |token| > 0 && token[0] == '-' && IsNumeral(token[1..]) ==> r == Some(0 - NumeralValue(token[1..]))
  {
    if IsNumeral(token) then Some(NumeralValue(token))
    else if |token| > 0 && token[0] == '+' && IsNumeral(token[1..]) then Some(NumeralValue(token[1..]))
    else if |token| > 0 && token[0] == '-' && IsNumeral(token[1..]) then Some(0 - NumeralValue(token[1..]))
    else None
  }

  /** Reading back a printed number gives the number. */
  lemma ParseIntOfNatToString(n: nat)
    ensures ParseInt(NatToString(n)) == Some(n)
  {
    NatToStringValue(n);
  }

  // ---------------------------------------------------------------------
  // Python's ordering of strings: lexicographic by code point, a proper prefix first

  predicate StrLt(a: string, b: string)
    decreases |a|
  {
    if a == [] then b != []
    else if b == [] then false
    else if a[0] != b[0] then a[0] < b[0]
    else StrLt(a[1..], b[1..])
  }

  predicate StrLe(a: string, b: string) { a == b || StrLt(a, b) }

  lemma {:induction false} StrLtIrreflexive(a: string)
    ensures !StrLt(a, a)
    decreases |a|
  {
    if a != [] { StrLtIrreflexive(a[1..]); }
  }

  /** Any two strings are equal or ordered one way or the other. */
  lemma {:induction false} StrLtTrichotomy(a: string, b: string)
    ensures a == b || StrLt(a, b) || StrLt(b, a)
    decreases |a|
  {
    if a != [] && b != [] && a[0] == b[0] {
      StrLtTrichotomy(a[1..], b[1..]);
      if a[1..] == b[1..] {
        assert a == [a[0]] + a[1..] && b == [b[0]] + b[1..];
      }
    }
  }

  lemma {:induction false} StrLtTransitive(a: string, b: string, c: string)
    requires StrLt(a, b) && StrLt(b, c)
    ensures StrLt(a, c)
    decreases |a|
  {
    if a != [] && a[0] == b[0] && b[0] == c[0] {
      StrLtTransitive(a[1..], b[1..], c[1..]);
    }
  }

  lemma StrLtAsymmetric(a: string, b: string)
    requires StrLt(a, b)
    ensures !StrLt(b, a) && a != b
  {
    StrLtIrreflexive(a);
    if StrLt(b, a) { StrLtTransitive(a, b, a); }
  }

  lemma StrLeTotal(a: string, b: string)
    ensures StrLe(a, b) || StrLe(b, a)
  {
    StrLtTrichotomy(a, b);
  }

  lemma StrLeTransitive(a: string, b: string, c: string)
    requires StrLe(a, b) && StrLe(b, c)
    ensures StrLe(a, c)
  {
    if a != b && b != c { StrLtTransitive(a, b, c); }
  }
}
