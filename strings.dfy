/**
 * The JavaScript string primitives the services rely on, as functions on
 * `seq<char>`: `startsWith`, `includes`, `indexOf`, `replace` with a string
 * pattern (first occurrence only), `split` with a non-empty string separator,
 * `trim`, and the decimal rendering of a non-negative integer in a template
 * literal.
 */
module Strings {
  import opened Wrappers

  predicate StartsWith(s: string, w: string) {
    |w| <= |s| && s[..|w|] == w
  }

  /** `s.includes(w)`: some suffix of `s` starts with `w`. */
  predicate Contains(s: string, w: string)
    decreases |s|
  {
    StartsWith(s, w) || (|s| > 0 && Contains(s[1..], w))
  }

  /** `s.indexOf(w)`, with `None` for -1: the first position at which `w` occurs. */
  function IndexOf(s: string, w: string): (r: Option<nat>)
    ensures r.Some? ==> r.value + |w| <= |s| && StartsWith(s[r.value..], w)
    ensures r.Some? ==> forall j :: 0 <= j < r.value ==> !StartsWith(s[j..], w)
    ensures r.None? <==> !Contains(s, w)
    decreases |s|
  {
    if StartsWith(s, w) then Some(0)
    else if |s| == 0 then None
    else
      match IndexOf(s[1..], w)
      case None => None
      case Some(i) =>
        assert forall j :: 1 <= j <= i ==> s[j..] == s[1..][j - 1..];
        assert s[i + 1..] == s[1..][i..];
        Some(i + 1)
  }

  /** `s.replace(pat, rep)` with a string pattern: only the first occurrence is replaced. */
  function ReplaceFirst(s: string, pat: string, rep: string): string {
    match IndexOf(s, pat)
    case None => s
    case Some(i) => s[..i] + rep + s[i + |pat|..]
  }

  /** `s.split(sep)` for a non-empty separator. */
  function Split(s: string, sep: string): (parts: seq<string>)
    requires |sep| > 0
    ensures |parts| >= 1
    decreases |s|
  {
    match IndexOf(s, sep)
    case None => [s]
    case Some(i) => [s[..i]] + Split(s[i + |sep|..], sep)
  }

  /** `parts.join(sep)`. */
  function Join(parts: seq<string>, sep: string): string {
    if |parts| == 0 then ""
    else if |parts| == 1 then parts[0]
    else parts[0] + sep + Join(parts[1..], sep)
  }

  /** The characters JavaScript's `trim` removes: WhiteSpace and LineTerminator. */
  predicate IsSpace(c: char) {
    c == ' ' || c == '\t' || c == '\n' || c == '\r' || c == '\U{000B}' || c == '\U{000C}'
    || c == '\U{00A0}' || c == '\U{1680}' || ('\U{2000}' <= c <= '\U{200A}')
    || c == '\U{2028}' || c == '\U{2029}' || c == '\U{202F}' || c == '\U{205F}'
    || c == '\U{3000}' || c == '\U{FEFF}'
  }

  /** A string whose `trim()` is empty, so JavaScript treats `s.trim()` as falsy. */
  predicate Blank(s: string) {
    forall k :: 0 <= k < |s| ==> IsSpace(s[k])
  }

  function TrimStart(s: string): (r: string)
    ensures |r| <= |s| && r == s[|s| - |r|..]
    ensures Blank(s[..|s| - |r|])
    ensures r == [] || !IsSpace(r[0])
  {
    if |s| > 0 && IsSpace(s[0]) then
      var r := TrimStart(s[1..]);
      assert s[1..][..|s| - 1 - |r|] == s[1..|s| - |r|];
      r
    else s
  }

  function TrimEnd(s: string): (r: string)
    ensures |r| <= |s| && r == s[..|r|]
    ensures Blank(s[|r|..])
    ensures r == [] || !IsSpace(r[|r| - 1])
  {
    if |s| > 0 && IsSpace(s[|s| - 1]) then
      var r := TrimEnd(s[..|s| - 1]);
      assert s[..|s| - 1][|r|..] + [s[|s| - 1]] == s[|r|..];
      r
    else s
  }

  /** `s.trim()`. */
  function Trim(s: string): string {
    TrimEnd(TrimStart(s))
  }

  /** A decimal digit character. */
  predicate IsDigit(c: char) {
    '0' <= c <= '9'
  }

  function DigitChar(d: nat): char
    requires d < 10
  {
    "0123456789"[d]
  }

  function DigitValue(c: char): nat
    requires IsDigit(c)
  {
    (c as int - '0' as int) as nat
  }

  /** The decimal text of `n`, as `${n}` renders a non-negative integer. */
  function NatToString(n: nat): (r: string)
    ensures |r| >= 1 && forall k :: 0 <= k < |r| ==> IsDigit(r[k])
  {
    if n < 10 then [DigitChar(n)] else NatToString(n / 10) + [DigitChar(n % 10)]
  }

  /** Reads a string of decimal digits back as a number. */
  function ParseNat(s: string): nat
    requires forall k :: 0 <= k < |s| ==> IsDigit(s[k])
  {
    if |s| == 0 then 0 else 10 * ParseNat(s[..|s| - 1]) + DigitValue(s[|s| - 1])
  }

  // ---------------------------------------------------------------------------
  // Lemmas
  // ---------------------------------------------------------------------------

  /** An occurrence at any position makes `Contains` true. */
  lemma {:induction false} ContainsAt(s: string, w: string, i: nat)
    requires i <= |s| && StartsWith(s[i..], w)
    ensures Contains(s, w)
    decreases i
  {
    if i > 0 {
      assert s[1..][i - 1..] == s[i..];
      ContainsAt(s[1..], w, i - 1);
    }
  }

  /** `Contains` holds exactly when there is a position where `w` starts. */
  lemma ContainsIff(s: string, w: string)
    ensures Contains(s, w) <==> exists i :: 0 <= i <= |s| && StartsWith(s[i..], w)
  {
    if Contains(s, w) {
      var i := IndexOf(s, w).value;
      assert StartsWith(s[i..], w);
    }
    if exists i :: 0 <= i <= |s| && StartsWith(s[i..], w) {
      var i :| 0 <= i <= |s| && StartsWith(s[i..], w);
      ContainsAt(s, w, i);
    }
  }

  /** Text before the first occurrence of `w` does not contain `w`. */
  lemma {:induction false} NoOccurrenceBefore(s: string, w: string, i: nat)
    requires |w| > 0 && i <= |s|
    requires forall j :: 0 <= j < i ==> !StartsWith(s[j..], w)
    ensures !Contains(s[..i], w)
    decreases i
  {
    if i > 0 {
      assert s[..i][1..] == s[1..][..i - 1];
      forall j | 0 <= j < i - 1 ensures !StartsWith(s[1..][j..], w) {
        assert s[1..][j..] == s[j + 1..];
      }
      NoOccurrenceBefore(s[1..], w, i - 1);
      assert s[0..] == s;
    }
  }

  /** Prepending text keeps every occurrence. */
  lemma {:induction false} ContainsAfterPrefix(a: string, b: string, w: string)
    requires Contains(b, w)
    ensures Contains(a + b, w)
    decreases |a|
  {
    if |a| > 0 {
      assert (a + b)[1..] == a[1..] + b;
      ContainsAfterPrefix(a[1..], b, w);
    } else {
      assert a + b == b;
    }
  }

  /** A string that starts with `w` contains it, whatever follows. */
  lemma StartsWithContains(s: string, w: string)
    requires StartsWith(s, w)
    ensures Contains(s, w)
  {
  }

  /** A string lacking some character of `w` cannot contain `w`. */
  lemma {:induction false} MissingCharNotContained(s: string, w: string, c: char)
    requires c in w && c !in s
    ensures !Contains(s, w)
    decreases |s|
  {
    if |s| > 0 {
      assert s[0] in s;
      assert c !in s[1..] by {
        forall k | 0 <= k < |s[1..]|
          ensures s[1..][k] != c
        {
          assert s[1..][k] == s[k + 1];
        }
      }
      MissingCharNotContained(s[1..], w, c);
    }
  }

  /**
   * If `a` contains no occurrence of `w` and its last character does not occur
   * in `w`, no occurrence of `w` in `a + b` starts inside `a`.
   */
  lemma {:induction false} NoOccurrenceInPrefix(a: string, b: string, w: string)
    requires |a| > 0 && a[|a| - 1] !in w
    requires !Contains(a, w)
    ensures forall q :: 0 <= q < |a| ==> !StartsWith((a + b)[q..], w)
  {
    forall q | 0 <= q < |a| ensures !StartsWith((a + b)[q..], w) {
      if q + |w| <= |a| {
        assert a[q..][..|w|] == (a + b)[q..][..|w|];
        if StartsWith(a[q..], w) { ContainsAt(a, w, q); }
      } else {
        assert (a + b)[q..][|a| - 1 - q] == a[|a| - 1];
        assert w[|a| - 1 - q] in w;
      }
    }
  }

  /** `Contains(a + b, w)` for an occurrence in `b` when nothing starts inside `a`. */
  lemma {:induction false} ContainsSkipPrefix(a: string, b: string, w: string)
    requires forall q :: 0 <= q < |a| ==> !StartsWith((a + b)[q..], w)
    ensures Contains(a + b, w) <==> Contains(b, w)
    decreases |a|
  {
    if |a| > 0 {
      assert (a + b)[1..] == a[1..] + b;
      forall q | 0 <= q < |a| - 1 ensures !StartsWith((a[1..] + b)[q..], w) {
        assert (a[1..] + b)[q..] == (a + b)[q + 1..];
      }
      assert !StartsWith((a + b)[0..], w);
      ContainsSkipPrefix(a[1..], b, w);
    } else {
      assert a + b == b;
    }
  }

  /** Replacing a leading pattern: the replacement goes to the front. */
  lemma ReplaceLeading(s: string, pat: string, rep: string)
    requires StartsWith(s, pat)
    ensures ReplaceFirst(s, pat, rep) == rep + s[|pat|..]
  {
  }

  /** `(a + b).indexOf(w)` when b starts with w and a lacks the first character of w: the occurrence at the start of b. */
  lemma IndexAfterPrefix(a: string, b: string, w: string)
    requires |w| > 0 && w[0] !in a && StartsWith(b, w)
    ensures IndexOf(a + b, w) == Some(|a|)
  {
    var s := a + b;
    assert s[|a|..] == b;
    ContainsAt(s, w, |a|);
    forall q | 0 <= q < |a|
      ensures !StartsWith(s[q..], w)
    {
      assert s[q..][0] == a[q];
    }
  }

  /**
   * `(a + b).replace(pat, rep)` when b starts with pat and a lacks the first
   * character of pat: the occurrence at the start of b is the one replaced.
   */
  lemma ReplaceAfterPrefix(a: string, b: string, pat: string, rep: string)
    requires |pat| > 0 && pat[0] !in a && StartsWith(b, pat)
    ensures ReplaceFirst(a + b, pat, rep) == a + (rep + b[|pat|..])
  {
    var s := a + b;
    IndexAfterPrefix(a, b, pat);
    assert s[..|a|] == a;
    assert s[|a| + |pat|..] == b[|pat|..];
  }

  /** `s.split(w)` when b starts with w and a lacks the first character of w. */
  lemma SplitAfterPrefix(a: string, b: string, w: string)
    requires |w| > 0 && w[0] !in a && StartsWith(b, w)
    ensures Split(a + b, w) == [a] + Split(b[|w|..], w)
  {
    var s := a + b;
    IndexAfterPrefix(a, b, w);
    assert s[..|a|] == a;
    assert s[|a| + |w|..] == b[|w|..];
  }

  /** A one-character pattern occurs exactly where its character does. */
  lemma ContainsChar(s: string, c: char)
    ensures Contains(s, [c]) <==> c in s
  {
    if c in s {
      var k :| 0 <= k < |s| && s[k] == c;
      assert s[k..][..1] == [c];
      ContainsAt(s, [c], k);
    } else {
      MissingCharNotContained(s, [c], c);
    }
  }

  /** Appending text keeps every occurrence. */
  lemma {:induction false} ContainsBeforeSuffix(a: string, b: string, w: string)
    requires Contains(a, w)
    ensures Contains(a + b, w)
    decreases |a|
  {
    if StartsWith(a, w) {
      assert (a + b)[..|w|] == a[..|w|];
    } else {
      assert (a + b)[1..] == a[1..] + b;
      ContainsBeforeSuffix(a[1..], b, w);
    }
  }

  lemma JoinCons(p: string, parts: seq<string>, sep: string)
    requires |parts| >= 1
    ensures Join([p] + parts, sep) == p + sep + Join(parts, sep)
  {
    assert ([p] + parts)[1..] == parts;
  }

  /** The text around the first occurrence of the separator. */
  lemma SplitAtFirst(s: string, sep: string, i: nat)
    requires |sep| > 0 && IndexOf(s, sep) == Some(i)
    ensures Split(s, sep) == [s[..i]] + Split(s[i + |sep|..], sep)
    ensures s == s[..i] + sep + s[i + |sep|..]
  {
    assert s[i..][..|sep|] == s[i..i + |sep|];
    assert s == s[..i] + s[i..i + |sep|] + s[i + |sep|..];
  }

  /** `split` followed by `join` gives back the original text. */
  lemma {:induction false} JoinSplit(s: string, sep: string)
    requires |sep| > 0
    ensures Join(Split(s, sep), sep) == s
    decreases |s|
  {
    var found := IndexOf(s, sep);
    if found.Some? {
      var i := found.value;
      var rest := s[i + |sep|..];
      SplitAtFirst(s, sep, i);
      JoinSplit(rest, sep);
      JoinCons(s[..i], Split(rest, sep), sep);
    }
  }

  /** No piece produced by `split` contains the separator. */
  lemma {:induction false} SplitPiecesLackSeparator(s: string, sep: string)
    requires |sep| > 0
    ensures forall k :: 0 <= k < |Split(s, sep)| ==> !Contains(Split(s, sep)[k], sep)
    decreases |s|
  {
    var found := IndexOf(s, sep);
    if found.None? {
      assert Split(s, sep) == [s];
    } else {
      var i := found.value;
      var rest := s[i + |sep|..];
      NoOccurrenceBefore(s, sep, i);
      SplitPiecesLackSeparator(rest, sep);
      var parts := Split(s, sep);
      var later := Split(rest, sep);
      assert parts == [s[..i]] + later;
      forall k | 0 <= k < |parts| ensures !Contains(parts[k], sep) {
        if k > 0 {
          assert parts[k] == later[k - 1];
        }
      }
    }
  }

  /** A string without the separator splits into itself. */
  lemma SplitWithoutSeparator(s: string, sep: string)
    requires |sep| > 0 && !Contains(s, sep)
    ensures Split(s, sep) == [s]
  {
  }

  /** The trimmed text is what remains after removing blank ends. */
  lemma TrimShape(s: string)
    ensures exists i, j :: 0 <= i <= j <= |s| && Trim(s) == s[i..j]
                           && Blank(s[..i]) && Blank(s[j..])
    ensures Trim(s) == [] || (!IsSpace(Trim(s)[0]) && !IsSpace(Trim(s)[|Trim(s)| - 1]))
  {
    var t := TrimStart(s);
    var i := |s| - |t|;
    var r := TrimEnd(t);
    assert Trim(s) == s[i..i + |r|];
    assert s[i + |r|..] == t[|r|..];
    if r != [] {
      assert !IsSpace(t[0]);
      assert r[0] == t[0];
    }
  }

  /** `s.trim()` is empty exactly when `s` is blank. */
  lemma TrimEmptyIffBlank(s: string)
    ensures Trim(s) == [] <==> Blank(s)
  {
    TrimShape(s);
    var i, j :| 0 <= i <= j <= |s| && Trim(s) == s[i..j] && Blank(s[..i]) && Blank(s[j..]);
    if Trim(s) == [] {
      forall k | 0 <= k < |s| ensures IsSpace(s[k]) {
        if k < i { assert s[..i][k] == s[k]; } else { assert s[j..][k - j] == s[k]; }
      }
    } else {
      assert s[i..j][0] == s[i];
    }
  }

  /** Reading back the decimal text of a number gives the number. */
  lemma {:induction false} ParseNatToString(n: nat)
    ensures ParseNat(NatToString(n)) == n
  {
    if n >= 10 {
      var p := NatToString(n / 10);
      var r := p + [DigitChar(n % 10)];
      assert r[..|r| - 1] == p;
      ParseNatToString(n / 10);
    }
  }

  /** Distinct numbers render to distinct text. */
  lemma NatToStringInjective(m: nat, n: nat)
    requires NatToString(m) == NatToString(n)
    ensures m == n
  {
    ParseNatToString(m);
    ParseNatToString(n);
  }
}
