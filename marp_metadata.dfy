/**
 * Marp front matter and the theme list of the export service
 * (`ensureMarpMetadata`, `AVAILABLE_THEMES`, `getThemePreviews`).
 *
 * A document is a string. `String.prototype.replace` with a string pattern
 * is `Strings.ReplaceFirst`; the one regular expression, `/theme:.*\n/`, is
 * modelled as a search for its leftmost match, with `.` matching every
 * character except the four JavaScript line terminators.
 */
module MarpMetadata {
  import opened Wrappers
  import opened Strings

  // ---------------------------------------------------------------------------
  // The pattern /theme:.*\n/
  // ---------------------------------------------------------------------------

  /** The characters that `.` does not match. */
  predicate IsLineTerminator(c: char) {
    c == '\n' || c == '\r' || c == '\U{2028}' || c == '\U{2029}'
  }

  predicate NoLineBreak(s: string) {
    forall k :: 0 <= k < |s| ==> !IsLineTerminator(s[k])
  }

  /**
   * Where `.*\n` starting at p can end: the first line terminator at or after
   * p, provided that terminator is `\n`.
   */
  function LineEnd(s: string, p: nat): (r: Option<nat>)
    requires p <= |s|
    ensures r.Some? ==> p <= r.value < |s| && s[r.value] == '\n'
    decreases |s| - p
  {
    if p == |s| then None
    else if s[p] == '\n' then Some(p)
    else if IsLineTerminator(s[p]) then None
    else LineEnd(s, p + 1)
  }

  const ThemeKey := "theme:"

  /** The end (exclusive) of a match of the pattern that starts at k, if there is one. */
  function MatchEnd(s: string, k: nat): (r: Option<nat>)
    requires k <= |s|
    ensures r.Some? ==> k + 6 < r.value <= |s| && StartsWith(s[k..], ThemeKey) && s[r.value - 1] == '\n'
  {
    if StartsWith(s[k..], ThemeKey) then
      match LineEnd(s, k + 6)
      case None => None
      case Some(e) => Some(e + 1)
    else None
  }

  /** The leftmost match at or after a, as (start, end). */
  function FirstThemeLine(s: string, a: nat): (r: Option<(nat, nat)>)
    requires a <= |s|
    ensures r.Some? ==> a <= r.value.0 <= |s| && MatchEnd(s, r.value.0) == Some(r.value.1)
    decreases |s| - a
  {
    if MatchEnd(s, a).Some? then Some((a, MatchEnd(s, a).value))
    else if a == |s| then None
    else FirstThemeLine(s, a + 1)
  }

  /** `theme: <theme>\n` */
  function ThemeLine(theme: string): string {
    "theme: " + (theme + "\n")
  }

  /** `markdown.replace(/theme:.*\n/, `theme: ${theme}\n`)` */
  function ReplaceThemeLine(s: string, theme: string): string {
    match FirstThemeLine(s, 0)
    case None => s
    case Some((i, j)) => s[..i] + ThemeLine(theme) + s[j..]
  }

  // ---------------------------------------------------------------------------
  // ensureMarpMetadata
  // ---------------------------------------------------------------------------

  const Fence := "---\n"
  const MarpLine := "marp: true\n"
  const PaginateLine := "paginate: true\n"
  const MarpKey := "marp: true"
  const PaginateKey := "paginate:"

  /**
   * The document built when there is no front matter: the block
   * `---\nmarp: true\ntheme: <theme>\npaginate: true\n---\n` and an empty
   * line before the untouched text (see `NoFrontMatter`).
   */
  function FreshFrontMatter(markdown: string, theme: string): string {
    Fence + (MarpLine + (ThemeLine(theme) + (PaginateLine + (Fence + ("\n" + markdown)))))
  }

  /** Adds `marp: true` after the first `---\n` unless the text mentions it anywhere. */
  function MarpStep(s: string): string {
    if !Contains(s, MarpKey) then ReplaceFirst(s, Fence, Fence + MarpLine) else s
  }

  /** Adds a theme line after the first `---\n`, or rewrites the first existing one. */
  function ThemeStep(s: string, theme: string): string {
    if !Contains(s, ThemeKey) then ReplaceFirst(s, Fence, Fence + ThemeLine(theme))
    else ReplaceThemeLine(s, theme)
  }

  /** Adds `paginate: true` after the first `---\n` unless the text mentions `paginate:`. */
  function PaginateStep(s: string): string {
    if !Contains(s, PaginateKey) then ReplaceFirst(s, Fence, Fence + PaginateLine) else s
  }

  /** `ensureMarpMetadata(markdown, theme)` as the export service writes it. */
  function EnsureMarpMetadataAsWritten(markdown: string, theme: string): string {
    if StartsWith(markdown, Fence) then PaginateStep(ThemeStep(MarpStep(markdown), theme))
    else FreshFrontMatter(markdown, theme)
  }

  /**
   * `ensureMarpMetadata` with the `marp: true` check repeated after the theme
   * line has been rewritten, since that rewrite can remove the only mention.
   */
  function EnsureMarpMetadata(markdown: string, theme: string): string {
    if StartsWith(markdown, Fence) then MarpStep(EnsureMarpMetadataAsWritten(markdown, theme))
    else FreshFrontMatter(markdown, theme)
  }

  /** A theme id made of lower-case ASCII letters and digits, as every built-in id is. */
  predicate PlainTheme(theme: string) {
    forall k :: 0 <= k < |theme| ==> ('a' <= theme[k] <= 'z' || '0' <= theme[k] <= '9')
  }

  // ---------------------------------------------------------------------------
  // Facts about the pattern
  // ---------------------------------------------------------------------------

  /** `LineEnd` stops at the first line terminator. */
  lemma {:induction false} LineEndSound(s: string, p: nat)
    requires p <= |s| && LineEnd(s, p).Some?
    ensures forall k :: p <= k < LineEnd(s, p).value ==> !IsLineTerminator(s[k])
    decreases |s| - p
  {
    if s[p] != '\n' {
      LineEndSound(s, p + 1);
    }
  }

  /** `LineEnd` finds every `\n` that no other terminator precedes. */
  lemma {:induction false} LineEndAt(s: string, p: nat, q: nat)
    requires p <= q < |s| && s[q] == '\n'
    requires forall k :: p <= k < q ==> !IsLineTerminator(s[k])
    ensures LineEnd(s, p) == Some(q)
    decreases q - p
  {
    if p < q {
      LineEndAt(s, p + 1, q);
    }
  }

  /** `FirstThemeLine` finds the leftmost match, and finds none only when there is none. */
  lemma {:induction false} FirstThemeLineLeftmost(s: string, a: nat)
    requires a <= |s|
    ensures FirstThemeLine(s, a).Some? ==> forall k :: a <= k < FirstThemeLine(s, a).value.0 ==> MatchEnd(s, k).None?
    ensures FirstThemeLine(s, a).None? ==> forall k :: a <= k <= |s| ==> MatchEnd(s, k).None?
    decreases |s| - a
  {
    if MatchEnd(s, a).None? && a < |s| {
      FirstThemeLineLeftmost(s, a + 1);
    }
  }

  /** Positions without a match can be skipped. */
  lemma {:induction false} FirstThemeLineSkip(s: string, a: nat, b: nat)
    requires a <= b <= |s|
    requires forall k :: a <= k < b ==> MatchEnd(s, k).None?
    ensures FirstThemeLine(s, a) == FirstThemeLine(s, b)
    decreases b - a
  {
    if a < b {
      FirstThemeLineSkip(s, a + 1, b);
    }
  }

  lemma FirstThemeLineNext(s: string, a: nat)
    requires a < |s| && MatchEnd(s, a).None?
    ensures FirstThemeLine(s, a) == FirstThemeLine(s, a + 1)
  {
  }

  function ShiftEnd(r: Option<nat>, d: nat): Option<nat> {
    match r
    case None => None
    case Some(e) => Some(e + d)
  }

  function ShiftLine(r: Option<(nat, nat)>, d: nat): Option<(nat, nat)> {
    match r
    case None => None
    case Some((i, j)) => Some((i + d, j + d))
  }

  lemma {:induction false} LineEndShift(p: string, t: string, q: nat)
    requires q <= |t|
    ensures LineEnd(p + t, |p| + q) == ShiftEnd(LineEnd(t, q), |p|)
    decreases |t| - q
  {
    if q < |t| {
      assert (p + t)[|p| + q] == t[q];
      LineEndShift(p, t, q + 1);
    }
  }

  lemma MatchEndShift(p: string, t: string, k: nat)
    requires k <= |t|
    ensures MatchEnd(p + t, |p| + k) == ShiftEnd(MatchEnd(t, k), |p|)
  {
    assert (p + t)[|p| + k..] == t[k..];
    if StartsWith(t[k..], ThemeKey) {
      LineEndShift(p, t, k + 6);
    }
  }

  lemma {:induction false} FirstThemeLineShift(p: string, t: string, a: nat)
    requires a <= |t|
    ensures FirstThemeLine(p + t, |p| + a) == ShiftLine(FirstThemeLine(t, a), |p|)
    decreases |t| - a
  {
    MatchEndShift(p, t, a);
    var s := p + t;
    var m := MatchEnd(t, a);
    if m.Some? {
      assert FirstThemeLine(t, a) == Some((a, m.value));
      assert FirstThemeLine(s, |p| + a) == Some((|p| + a, m.value + |p|));
      assert ShiftLine(FirstThemeLine(t, a), |p|) == Some((a + |p|, m.value + |p|));
    } else if a == |t| {
      assert FirstThemeLine(t, a) == None;
      assert FirstThemeLine(s, |p| + a) == None;
    } else {
      var b := a + 1;
      assert MatchEnd(s, |p| + a).None?;
      FirstThemeLineNext(t, a);
      FirstThemeLineNext(s, |p| + a);
      FirstThemeLineShift(p, t, b);
    }
  }

  /** A prefix in which no match can start moves the leftmost match along by its length. */
  lemma PrefixShiftsThemeLine(p: string, t: string)
    requires |p| > 0 && p[|p| - 1] == '\n' && 'h' !in p
    ensures FirstThemeLine(p + t, 0) == ShiftLine(FirstThemeLine(t, 0), |p|)
  {
    MissingCharNotContained(p, ThemeKey, 'h');
    NoOccurrenceInPrefix(p, t, ThemeKey);
    FirstThemeLineSkip(p + t, 0, |p|);
    FirstThemeLineShift(p, t, 0);
  }

  /** The first theme line of s is exactly `theme: <theme>\n`. */
  predicate ThemeSettled(s: string, theme: string) {
    var f := FirstThemeLine(s, 0);
    f.Some? && s[f.value.0..f.value.1] == ThemeLine(theme)
  }

  /** Rewriting the theme line leaves s as it is. */
  predicate ThemeStable(s: string, theme: string) {
    FirstThemeLine(s, 0).None? || ThemeSettled(s, theme)
  }

  lemma StableIsFixed(s: string, theme: string)
    requires ThemeStable(s, theme)
    ensures ReplaceThemeLine(s, theme) == s
  {
    if FirstThemeLine(s, 0).Some? {
      var (i, j) := FirstThemeLine(s, 0).value;
      assert s == s[..i] + s[i..j] + s[j..];
    }
  }

  /** `LineEnd` depends only on the text up to a point where both texts agree about it. */
  lemma {:induction false} LineEndAgree(s: string, r: string, p: nat, q: nat)
    requires p <= q <= |s| && q <= |r| && s[..q] == r[..q]
    requires LineEnd(s, q).Some? <==> LineEnd(r, q).Some?
    ensures LineEnd(s, p).Some? <==> LineEnd(r, p).Some?
    decreases q - p
  {
    if p < q {
      assert s[p] == s[..q][p] == r[..q][p] == r[p];
      LineEndAgree(s, r, p + 1, q);
    }
  }

  /** A complete `theme: <theme>\n` line is one match of the pattern. */
  lemma LineMatches(r: string, i: nat, theme: string)
    requires NoLineBreak(theme) && i + |ThemeLine(theme)| <= |r|
    requires r[i..i + |ThemeLine(theme)|] == ThemeLine(theme)
    ensures MatchEnd(r, i) == Some(i + |ThemeLine(theme)|)
  {
    var line := ThemeLine(theme);
    var n := |line|;
    assert r[i + n - 1] == line[n - 1];
    forall k | i + 6 <= k < i + n - 1
      ensures !IsLineTerminator(r[k])
    {
      assert r[k] == line[k - i];
      if k > i + 6 {
        assert line[k - i] == theme[k - i - 7];
      }
    }
    LineEndAt(r, i + 6, i + n - 1);
    assert r[i..][..6] == line[..6];
  }

  /** A position before the rewritten line that was no match stays no match. */
  lemma EarlierStaysUnmatched(s: string, r: string, i: nat, k: nat)
    requires k < i && i + 6 <= |s| && i + 6 <= |r| && s[..i + 6] == r[..i + 6]
    requires LineEnd(s, i + 6).Some? && LineEnd(r, i + 6).Some?
    requires MatchEnd(s, k).None?
    ensures MatchEnd(r, k).None?
  {
    assert r[k..][..6] == r[..i + 6][k..k + 6] == s[..i + 6][k..k + 6] == s[k..][..6];
    LineEndAgree(s, r, k + 6, i + 6);
  }

  /**
   * A text r that agrees with s up to the end of `theme:` in s's leftmost
   * match, and has a complete theme line there, has its leftmost match there.
   */
  lemma LeftmostAfterRewrite(s: string, r: string, i: nat, theme: string)
    requires NoLineBreak(theme) && FirstThemeLine(s, 0).Some? && FirstThemeLine(s, 0).value.0 == i
    requires i + |ThemeLine(theme)| <= |r| && r[i..i + |ThemeLine(theme)|] == ThemeLine(theme)
    requires i + 6 <= |s| && s[..i + 6] == r[..i + 6]
    ensures FirstThemeLine(r, 0) == Some((i, i + |ThemeLine(theme)|))
  {
    FirstThemeLineLeftmost(s, 0);
    LineMatches(r, i, theme);
    forall k | 0 <= k < i
      ensures MatchEnd(r, k).None?
    {
      EarlierStaysUnmatched(s, r, i, k);
    }
    FirstThemeLineSkip(r, 0, i);
  }

  /**
   * After the rewrite, the leftmost match is the new line itself: nothing
   * before it changed and the new line is one complete match.
   */
  lemma ReplaceSettles(s: string, theme: string)
    requires NoLineBreak(theme) && FirstThemeLine(s, 0).Some?
    ensures ThemeSettled(ReplaceThemeLine(s, theme), theme)
  {
    var (i, j) := FirstThemeLine(s, 0).value;
    var line := ThemeLine(theme);
    var r := s[..i] + line + s[j..];
    assert r == ReplaceThemeLine(s, theme);
    assert r[i..i + |line|] == line;
    assert r[..i + 6] == s[..i + 6] by {
      assert s[i..][..6] == ThemeKey;
    }
    LeftmostAfterRewrite(s, r, i, theme);
  }


  lemma ConcatSlice(p: string, t: string, i: nat, j: nat)
    requires i <= j <= |t|
    ensures (p + t)[|p| + i..|p| + j] == t[i..j]
  {
  }

  /** A prefix in which no match can start neither settles nor unsettles the theme line. */
  lemma PrefixKeepsStable(p: string, t: string, theme: string)
    requires |p| > 0 && p[|p| - 1] == '\n' && 'h' !in p
    ensures ThemeStable(p + t, theme) <==> ThemeStable(t, theme)
  {
    PrefixShiftsThemeLine(p, t);
    var f := FirstThemeLine(t, 0);
    var g := FirstThemeLine(p + t, 0);
    if f.Some? {
      var i, j := f.value.0, f.value.1;
      assert g == ShiftLine(f, |p|);
      assert g.Some? && g.value.0 == |p| + i && g.value.1 == |p| + j;
      ConcatSlice(p, t, i, j);
      assert ThemeSettled(p + t, theme) <==> (p + t)[|p| + i..|p| + j] == ThemeLine(theme);
      assert ThemeSettled(t, theme) <==> t[i..j] == ThemeLine(theme);
    } else {
      assert g.None?;
    }
  }

  /** A text that starts with the fence is the fence followed by the rest. */
  lemma FenceSplit(s: string)
    requires StartsWith(s, Fence)
    ensures s == Fence + s[4..]
  {
    assert s[..4] == Fence;
  }

  /** `s.replace('---\n', '---\n' + line)` on a text that starts with the fence. */
  lemma InsertAfterFence(s: string, line: string)
    requires StartsWith(s, Fence)
    ensures ReplaceFirst(s, Fence, Fence + line) == Fence + (line + s[4..])
  {
    ReplaceLeading(s, Fence, Fence + line);
    assert (Fence + line) + s[4..] == Fence + (line + s[4..]);
  }

  /** Inserting the `marp` or `paginate` line after the fence keeps the theme line settled (or absent). */
  lemma InsertKeepsStable(s: string, line: string, theme: string)
    requires StartsWith(s, Fence) && ThemeStable(s, theme)
    requires line == MarpLine || line == PaginateLine
    ensures ThemeStable(Fence + (line + s[4..]), theme)
  {
    FenceSplit(s);
    PrefixKeepsStable(Fence, s[4..], theme);
    PrefixKeepsStable(line, s[4..], theme);
    PrefixKeepsStable(Fence, line + s[4..], theme);
  }

  /** A theme line written right after the fence is the leftmost match. */
  lemma InsertedThemeSettled(t: string, theme: string)
    requires NoLineBreak(theme)
    ensures FirstThemeLine(Fence + (ThemeLine(theme) + t), 0) == Some((4, 4 + |ThemeLine(theme)|))
    ensures ThemeSettled(Fence + (ThemeLine(theme) + t), theme)
  {
    var u := ThemeLine(theme) + t;
    var n := |ThemeLine(theme)|;
    assert u[0..n] == ThemeLine(theme);
    LineMatches(u, 0, theme);
    assert FirstThemeLine(u, 0) == Some((0, n));
    PrefixShiftsThemeLine(Fence, u);
    ConcatSlice(Fence, u, 0, n);
  }

  /** A settled theme line is a mention of `theme:`. */
  lemma SettledMentionsTheme(s: string, theme: string)
    requires ThemeSettled(s, theme)
    ensures Contains(s, ThemeKey)
  {
    ContainsAt(s, ThemeKey, FirstThemeLine(s, 0).value.0);
  }

  /** No match starts inside the leading fence. */
  lemma FenceBeforeMatch(s: string, i: nat)
    requires StartsWith(s, Fence) && i <= |s| && MatchEnd(s, i).Some?
    ensures i >= 4
  {
    FenceSplit(s);
    Hides(Fence, s[4..], ThemeKey, 'h');
  }

  /** Rewriting the theme line keeps the fence and leaves the line settled. */
  lemma RewriteKeepsFence(s: string, theme: string)
    requires StartsWith(s, Fence) && NoLineBreak(theme) && FirstThemeLine(s, 0).Some?
    ensures StartsWith(ReplaceThemeLine(s, theme), Fence)
    ensures ThemeSettled(ReplaceThemeLine(s, theme), theme)
  {
    var (i, j) := FirstThemeLine(s, 0).value;
    FenceBeforeMatch(s, i);
    ReplaceSettles(s, theme);
    assert ReplaceThemeLine(s, theme)[..4] == s[..i][..4];
  }

  /** The theme step leaves a text whose theme line is settled or absent. */
  lemma ThemeStepStable(s: string, theme: string)
    requires StartsWith(s, Fence) && NoLineBreak(theme)
    ensures StartsWith(ThemeStep(s, theme), Fence)
    ensures Contains(ThemeStep(s, theme), ThemeKey)
    ensures ThemeStable(ThemeStep(s, theme), theme)
  {
    if !Contains(s, ThemeKey) {
      InsertAfterFence(s, ThemeLine(theme));
      InsertedThemeSettled(s[4..], theme);
      SettledMentionsTheme(ThemeStep(s, theme), theme);
    } else if FirstThemeLine(s, 0).Some? {
      RewriteKeepsFence(s, theme);
      SettledMentionsTheme(ThemeStep(s, theme), theme);
    }
  }

  /** A prefix that ends outside w and does not contain w hides no occurrence of w. */
  lemma Transparent(a: string, b: string, w: string)
    requires |a| > 0 && a[|a| - 1] !in w && !Contains(a, w)
    ensures Contains(a + b, w) <==> Contains(b, w)
  {
    NoOccurrenceInPrefix(a, b, w);
    ContainsSkipPrefix(a, b, w);
  }

  /** The same for a prefix that lacks one of the characters of w altogether. */
  lemma Hides(a: string, b: string, w: string, c: char)
    requires |a| > 0 && a[|a| - 1] !in w && c in w && c !in a
    ensures forall q :: 0 <= q < |a| ==> !StartsWith((a + b)[q..], w)
    ensures Contains(a + b, w) <==> Contains(b, w)
  {
    MissingCharNotContained(a, w, c);
    NoOccurrenceInPrefix(a, b, w);
    ContainsSkipPrefix(a, b, w);
  }

  /** The three words scanned for occur in the fence followed by t exactly when they occur in t. */
  lemma ContainsSkipFence(t: string, w: string)
    requires w == MarpKey || w == ThemeKey || w == PaginateKey
    ensures Contains(Fence + t, w) <==> Contains(t, w)
  {
    Hides(Fence, t, w, w[0]);
  }

  /** Inserting a line after the fence keeps every mention of the scanned words. */
  lemma InsertKeepsContains(s: string, line: string, w: string)
    requires StartsWith(s, Fence) && Contains(s, w)
    requires w == MarpKey || w == ThemeKey || w == PaginateKey
    ensures Contains(Fence + (line + s[4..]), w)
  {
    FenceSplit(s);
    ContainsSkipFence(s[4..], w);
    ContainsAfterPrefix(line, s[4..], w);
    ContainsAfterPrefix(Fence, line + s[4..], w);
  }

  /** A line that starts with w is a mention of w wherever it stands first. */
  lemma LineMentions(line: string, t: string, w: string)
    requires StartsWith(line, w)
    ensures Contains(line + t, w)
  {
    assert (line + t)[..|w|] == line[..|w|];
    StartsWithContains(line + t, w);
  }

  lemma KeyLines(theme: string)
    ensures StartsWith(MarpLine, MarpKey) && StartsWith(PaginateLine, PaginateKey)
    ensures StartsWith(ThemeLine(theme), ThemeKey)
  {
    assert ThemeLine(theme)[..6] == ThemeKey;
  }

  // ---------------------------------------------------------------------------
  // Properties of ensureMarpMetadata
  // ---------------------------------------------------------------------------

  /** What a normalised document satisfies: every check passes and the theme line is already right. */
  predicate Normalised(s: string, theme: string) {
    StartsWith(s, Fence) && Contains(s, MarpKey) && Contains(s, ThemeKey)
    && Contains(s, PaginateKey) && ThemeStable(s, theme)
  }

  /** A normalised document passes through unchanged. */
  lemma NormalisedIsFixed(s: string, theme: string)
    requires Normalised(s, theme)
    ensures EnsureMarpMetadataAsWritten(s, theme) == s
    ensures EnsureMarpMetadata(s, theme) == s
  {
    StableIsFixed(s, theme);
  }

  /** The paginate step after a settled theme step. */
  lemma PaginateStepKeeps(s: string, theme: string)
    requires StartsWith(s, Fence) && Contains(s, ThemeKey) && ThemeStable(s, theme)
    ensures var r := PaginateStep(s);
            StartsWith(r, Fence) && Contains(r, ThemeKey) && Contains(r, PaginateKey) && ThemeStable(r, theme)
  {
    if !Contains(s, PaginateKey) {
      InsertAfterFence(s, PaginateLine);
      InsertKeepsStable(s, PaginateLine, theme);
      InsertKeepsContains(s, PaginateLine, ThemeKey);
      KeyLines(theme);
      LineMentions(PaginateLine, s[4..], PaginateKey);
      ContainsAfterPrefix(Fence, PaginateLine + s[4..], PaginateKey);
    }
  }

  /** The repeated marp step completes the normalisation. */
  lemma MarpStepCompletes(s: string, theme: string)
    requires StartsWith(s, Fence) && Contains(s, ThemeKey) && Contains(s, PaginateKey) && ThemeStable(s, theme)
    ensures Normalised(MarpStep(s), theme)
  {
    if !Contains(s, MarpKey) {
      InsertAfterFence(s, MarpLine);
      InsertKeepsStable(s, MarpLine, theme);
      InsertKeepsContains(s, MarpLine, ThemeKey);
      InsertKeepsContains(s, MarpLine, PaginateKey);
      KeyLines(theme);
      LineMentions(MarpLine, s[4..], MarpKey);
      ContainsAfterPrefix(Fence, MarpLine + s[4..], MarpKey);
    }
  }

  /** The block written before a document without front matter is already normalised. */
  lemma FreshIsNormalised(markdown: string, theme: string)
    requires NoLineBreak(theme)
    ensures Normalised(FreshFrontMatter(markdown, theme), theme)
  {
    var t := PaginateLine + (Fence + ("\n" + markdown));
    var u := ThemeLine(theme) + t;
    InsertedThemeSettled(t, theme);
    PrefixKeepsStable(Fence, u, theme);
    PrefixKeepsStable(MarpLine, u, theme);
    PrefixKeepsStable(Fence, MarpLine + u, theme);
    KeyLines(theme);
    LineMentions(MarpLine, u, MarpKey);
    ContainsAfterPrefix(Fence, MarpLine + u, MarpKey);
    LineMentions(ThemeLine(theme), t, ThemeKey);
    ContainsAfterPrefix(MarpLine, u, ThemeKey);
    ContainsAfterPrefix(Fence, MarpLine + u, ThemeKey);
    LineMentions(PaginateLine, Fence + ("\n" + markdown), PaginateKey);
    ContainsAfterPrefix(ThemeLine(theme), t, PaginateKey);
    ContainsAfterPrefix(MarpLine, u, PaginateKey);
    ContainsAfterPrefix(Fence, MarpLine + u, PaginateKey);
  }

  /**
   * Every output of the corrected function starts with the fence, mentions
   * `marp: true`, `theme:` and `paginate:`, and carries a settled theme line.
   */
  lemma OutputNormalised(markdown: string, theme: string)
    requires NoLineBreak(theme)
    ensures Normalised(EnsureMarpMetadata(markdown, theme), theme)
  {
    if StartsWith(markdown, Fence) {
      var s1 := MarpStep(markdown);
      if !Contains(markdown, MarpKey) {
        InsertAfterFence(markdown, MarpLine);
      }
      assert StartsWith(s1, Fence);
      var s2 := ThemeStep(s1, theme);
      ThemeStepStable(s1, theme);
      PaginateStepKeeps(s2, theme);
      MarpStepCompletes(PaginateStep(s2), theme);
    } else {
      FreshIsNormalised(markdown, theme);
    }
  }

  /** The corrected function is idempotent for any theme name without a line break. */
  lemma Idempotent(markdown: string, theme: string)
    requires NoLineBreak(theme)
    ensures EnsureMarpMetadata(EnsureMarpMetadata(markdown, theme), theme) == EnsureMarpMetadata(markdown, theme)
  {
    OutputNormalised(markdown, theme);
    NormalisedIsFixed(EnsureMarpMetadata(markdown, theme), theme);
  }

  lemma RegroupFresh(a: string, b: string, c: string, t: string, n: string, d: string, e: string, f: string, m: string)
    ensures a + (b + ((c + (t + n)) + (d + (e + (f + m))))) == ((a + b + c) + t) + (n + d + e + f) + m
  {
  }

  lemma FreshPieces()
    ensures Fence + MarpLine + "theme: " == "---\nmarp: true\ntheme: "
    ensures "\n" + PaginateLine + Fence + "\n" == "\npaginate: true\n---\n\n"
  {
  }

  /** Without front matter, the whole block is prepended to the untouched text. */
  lemma NoFrontMatter(markdown: string, theme: string)
    requires !StartsWith(markdown, Fence)
    ensures EnsureMarpMetadata(markdown, theme)
            == "---\nmarp: true\ntheme: " + theme + "\npaginate: true\n---\n\n" + markdown
    ensures EnsureMarpMetadataAsWritten(markdown, theme) == EnsureMarpMetadata(markdown, theme)
  {
    RegroupFresh(Fence, MarpLine, "theme: ", theme, "\n", PaginateLine, Fence, "\n", markdown);
    FreshPieces();
  }

  /** A plain theme line contains no `paginate:`. */
  lemma PlainThemeLineLacksPaginate(theme: string)
    requires PlainTheme(theme)
    ensures !Contains(ThemeLine(theme), PaginateKey)
  {
    assert ':' !in theme + "\n" by {
      forall k | 0 <= k < |theme + "\n"|
        ensures (theme + "\n")[k] != ':'
      {
        if k < |theme| {
          assert (theme + "\n")[k] == theme[k];
        }
      }
    }
    MissingCharNotContained(theme + "\n", PaginateKey, ':');
    Hides("theme: ", theme + "\n", PaginateKey, 'g');
  }

  /**
   * Front matter that mentions none of the keys gains all three lines, each
   * inserted right after the fence, so they appear in reverse order:
   * `---\npaginate: true\ntheme: <theme>\nmarp: true\n` and then the text
   * that followed the fence.
   */
  lemma LackingAllKeys(markdown: string, theme: string)
    requires StartsWith(markdown, Fence) && PlainTheme(theme)
    requires !Contains(markdown, MarpKey) && !Contains(markdown, ThemeKey) && !Contains(markdown, PaginateKey)
    ensures EnsureMarpMetadataAsWritten(markdown, theme)
            == Fence + (PaginateLine + (ThemeLine(theme) + (MarpLine + markdown[4..])))
    ensures EnsureMarpMetadata(markdown, theme) == EnsureMarpMetadataAsWritten(markdown, theme)
  {
    var t := markdown[4..];
    FenceSplit(markdown);
    ContainsSkipFence(t, ThemeKey);
    ContainsSkipFence(t, PaginateKey);
    InsertAfterFence(markdown, MarpLine);
    LackingThemeStep(t, theme);
    LackingPaginateStep(t, theme);
    LackingKeepsMarp(t, theme);
  }

  /** The theme step of `LackingAllKeys`. */
  lemma LackingThemeStep(t: string, theme: string)
    requires !Contains(t, ThemeKey)
    ensures ThemeStep(Fence + (MarpLine + t), theme) == Fence + (ThemeLine(theme) + (MarpLine + t))
  {
    var s1 := Fence + (MarpLine + t);
    Hides(MarpLine, t, ThemeKey, 'h');
    ContainsSkipFence(MarpLine + t, ThemeKey);
    InsertAfterFence(s1, ThemeLine(theme));
  }

  /** The paginate step of `LackingAllKeys`. */
  lemma LackingPaginateStep(t: string, theme: string)
    requires !Contains(t, PaginateKey) && PlainTheme(theme)
    ensures PaginateStep(Fence + (ThemeLine(theme) + (MarpLine + t)))
            == Fence + (PaginateLine + (ThemeLine(theme) + (MarpLine + t)))
  {
    var s2 := Fence + (ThemeLine(theme) + (MarpLine + t));
    Hides(MarpLine, t, PaginateKey, 'g');
    PlainThemeLineLacksPaginate(theme);
    Transparent(ThemeLine(theme), MarpLine + t, PaginateKey);
    ContainsSkipFence(ThemeLine(theme) + (MarpLine + t), PaginateKey);
    InsertAfterFence(s2, PaginateLine);
  }

  /** The inserted `marp: true` line survives the later insertions. */
  lemma LackingKeepsMarp(t: string, theme: string)
    ensures Contains(Fence + (PaginateLine + (ThemeLine(theme) + (MarpLine + t))), MarpKey)
  {
    KeyLines(theme);
    LineMentions(MarpLine, t, MarpKey);
    ContainsAfterPrefix(ThemeLine(theme), MarpLine + t, MarpKey);
    ContainsAfterPrefix(PaginateLine, ThemeLine(theme) + (MarpLine + t), MarpKey);
    ContainsAfterPrefix(Fence, PaginateLine + (ThemeLine(theme) + (MarpLine + t)), MarpKey);
  }

  /** Rewriting the theme line twice is rewriting it once. */
  lemma ReplaceThemeLineIdempotent(s: string, theme: string)
    requires NoLineBreak(theme)
    ensures ReplaceThemeLine(ReplaceThemeLine(s, theme), theme) == ReplaceThemeLine(s, theme)
  {
    if FirstThemeLine(s, 0).Some? {
      ReplaceSettles(s, theme);
      StableIsFixed(ReplaceThemeLine(s, theme), theme);
    }
  }

  /**
   * The code as written keeps the leading fence and always leaves a `theme:`
   * and a `paginate:` mention (not necessarily `marp: true`, see
   * `MarpCheckBeforeThemeRewrite`).
   */
  lemma AsWrittenPresence(markdown: string, theme: string)
    requires NoLineBreak(theme)
    ensures var out := EnsureMarpMetadataAsWritten(markdown, theme);
            StartsWith(out, Fence) && Contains(out, ThemeKey) && Contains(out, PaginateKey)
  {
    if StartsWith(markdown, Fence) {
      if !Contains(markdown, MarpKey) {
        InsertAfterFence(markdown, MarpLine);
      }
      ThemeStepStable(MarpStep(markdown), theme);
      PaginateStepKeeps(ThemeStep(MarpStep(markdown), theme), theme);
    } else {
      FreshIsNormalised(markdown, theme);
    }
  }

  /** Whenever `marp: true` survives, the code as written is idempotent too. */
  lemma AsWrittenIdempotentWhenMarpSurvives(markdown: string, theme: string)
    requires NoLineBreak(theme) && Contains(EnsureMarpMetadataAsWritten(markdown, theme), MarpKey)
    ensures var out := EnsureMarpMetadataAsWritten(markdown, theme);
            EnsureMarpMetadataAsWritten(out, theme) == out
  {
    OutputNormalised(markdown, theme);
    NormalisedIsFixed(EnsureMarpMetadata(markdown, theme), theme);
  }

  /** With no `theme:` line ending in `\n`, the rewrite changes nothing. */
  lemma NoThemeLineUnchanged(s: string, theme: string)
    requires FirstThemeLine(s, 0).None?
    ensures ReplaceThemeLine(s, theme) == s
    ensures forall k :: 0 <= k <= |s| ==> MatchEnd(s, k).None?
  {
    FirstThemeLineLeftmost(s, 0);
  }

  /** A match runs from `theme:` to the line end found after it. */
  lemma MatchEndLine(s: string, k: nat)
    requires k <= |s| && MatchEnd(s, k).Some?
    ensures k + 6 <= |s| && LineEnd(s, k + 6) == Some(MatchEnd(s, k).value - 1)
  {
    assert |ThemeKey| == 6;
    var e := LineEnd(s, k + 6);
    assert MatchEnd(s, k) == if e.None? then None else Some(e.value + 1);
  }

  /**
   * The line the rewrite replaces is the leftmost `theme:` that runs to a
   * `\n` without another line terminator in between.
   */
  lemma ThemeMatchShape(s: string, i: nat, j: nat)
    requires FirstThemeLine(s, 0) == Some((i, j))
    ensures StartsWith(s[i..], ThemeKey) && i + 6 < j <= |s| && s[j - 1] == '\n'
    ensures forall k :: i + 6 <= k < j - 1 ==> !IsLineTerminator(s[k])
    ensures forall k :: 0 <= k < i ==> MatchEnd(s, k).None?
  {
    MatchShapeEnds(s, i, j);
    MatchShapeLine(s, i, j);
    FirstThemeLineLeftmost(s, 0);
  }

  lemma MatchShapeEnds(s: string, i: nat, j: nat)
    requires FirstThemeLine(s, 0) == Some((i, j))
    ensures i + 6 < j <= |s| && s[j - 1] == '\n'
    ensures StartsWith(s[i..], ThemeKey)
  {
    assert MatchEnd(s, i) == Some(j);
    MatchAt(s, i, j);
  }

  lemma MatchAt(s: string, i: nat, j: nat)
    requires i <= |s| && MatchEnd(s, i) == Some(j)
    ensures i + 6 < j <= |s| && s[j - 1] == '\n'
    ensures StartsWith(s[i..], ThemeKey)
  {
  }

  lemma MatchShapeLine(s: string, i: nat, j: nat)
    requires FirstThemeLine(s, 0) == Some((i, j))
    ensures i + 6 < j && forall k :: i + 6 <= k < j - 1 ==> !IsLineTerminator(s[k])
  {
    assert MatchEnd(s, i) == Some(j);
    MatchEndLine(s, i);
    LineEndSound(s, i + 6);
  }

  /** Only that line changes: it becomes `theme: <theme>\n`, and the text around it is kept. */
  lemma ReplaceKeepsAround(s: string, theme: string, i: nat, j: nat)
    requires FirstThemeLine(s, 0) == Some((i, j))
    ensures var r := ReplaceThemeLine(s, theme);
            var n := |ThemeLine(theme)|;
            |r| == |s| - (j - i) + n && r[..i] == s[..i] && r[i..i + n] == ThemeLine(theme) && r[i + n..] == s[j..]
  {
    var r := s[..i] + ThemeLine(theme) + s[j..];
    assert ReplaceThemeLine(s, theme) == r;
    assert r[..i] == s[..i];
    assert r[i..i + |ThemeLine(theme)|] == ThemeLine(theme);
    assert r[i + |ThemeLine(theme)|..] == s[j..];
  }

  /** The corrected function differs from the code as written only when the rewrite removed the last `marp: true`. */
  lemma AsWrittenAgreesWhenMarpSurvives(markdown: string, theme: string)
    requires Contains(EnsureMarpMetadataAsWritten(markdown, theme), MarpKey)
    ensures EnsureMarpMetadata(markdown, theme) == EnsureMarpMetadataAsWritten(markdown, theme)
  {
  }

  /** Rewriting a theme line that directly follows the fence replaces just that line. */
  lemma RewriteLeadingLine(x: string, theme: string, t: string)
    requires NoLineBreak(x)
    ensures ReplaceThemeLine(Fence + (ThemeLine(x) + t), theme) == Fence + (ThemeLine(theme) + t)
  {
    assert Fence[3] == '\n' && 'h' !in Fence;
    RewriteLineAfter(Fence, x, theme, t);
  }

  /** The same after any prefix that ends a line and in which no match can start. */
  lemma RewriteLineAfter(p: string, x: string, theme: string, t: string)
    requires |p| > 0 && p[|p| - 1] == '\n' && 'h' !in p && NoLineBreak(x)
    ensures ReplaceThemeLine(p + (ThemeLine(x) + t), theme) == p + (ThemeLine(theme) + t)
  {
    var u := ThemeLine(x) + t;
    var n := |ThemeLine(x)|;
    assert u[0..n] == ThemeLine(x);
    LineMatches(u, 0, x);
    assert FirstThemeLine(u, 0) == Some((0, n));
    PrefixShiftsThemeLine(p, u);
    var s := p + u;
    ReplaceAt(s, theme, |p|, |p| + n);
    assert s[..|p|] == p;
    assert s[|p| + n..] == t;
    assert (p + ThemeLine(theme)) + t == p + (ThemeLine(theme) + t);
  }

  lemma ReplaceAt(s: string, theme: string, i: nat, j: nat)
    requires FirstThemeLine(s, 0) == Some((i, j))
    ensures ReplaceThemeLine(s, theme) == s[..i] + ThemeLine(theme) + s[j..]
  {
  }

  // ---------------------------------------------------------------------------
  // The document on which the code as written loses `marp: true`
  // ---------------------------------------------------------------------------

  /** `---\ntheme: marp: true\n---\n`: front matter whose only `marp: true` sits in the theme line. */
  const MarpInTheme := Fence + (ThemeLine(MarpKey) + Fence)

  /** The theme line written by the export when the user picks `default`. */
  const DefaultLine := ThemeLine("default")

  lemma MarpInThemeText()
    ensures MarpInTheme == "---\ntheme: marp: true\n---\n"
  {
  }

  /** The three steps as written: `marp: true` is found, the theme line is rewritten, `paginate` is added. */
  lemma MarpInThemeSteps()
    ensures EnsureMarpMetadataAsWritten(MarpInTheme, "default") == Fence + (PaginateLine + (DefaultLine + Fence))
  {
    var md := MarpInTheme;
    LineMentions(MarpKey, "\n", MarpKey);
    ContainsAfterPrefix("theme: ", MarpKey + "\n", MarpKey);
    ContainsBeforeSuffix(ThemeLine(MarpKey), Fence, MarpKey);
    ContainsAfterPrefix(Fence, ThemeLine(MarpKey) + Fence, MarpKey);
    assert MarpStep(md) == md;
    KeyLines(MarpKey);
    LineMentions(ThemeLine(MarpKey), Fence, ThemeKey);
    ContainsAfterPrefix(Fence, ThemeLine(MarpKey) + Fence, ThemeKey);
    RewriteLeadingLine(MarpKey, "default", Fence);
    var s2 := Fence + (DefaultLine + Fence);
    assert ThemeStep(md, "default") == s2;
    DefaultLineLacksPaginate();
    assert StartsWith(s2, Fence);
    InsertAfterFence(s2, PaginateLine);
    assert s2[4..] == DefaultLine + Fence;
  }

  lemma DefaultLineLacksPaginate()
    ensures !Contains(Fence + (DefaultLine + Fence), PaginateKey)
  {
    Hides(Fence, DefaultLine + Fence, PaginateKey, 'p');
    Hides(DefaultLine, Fence, PaginateKey, 'g');
    MissingCharNotContained(Fence, PaginateKey, 'p');
  }

  /** The result of the code as written no longer mentions `marp: true`. */
  lemma MarpInThemeLosesMarp()
    ensures !Contains(Fence + (PaginateLine + (DefaultLine + Fence)), MarpKey)
  {
    Hides(Fence, PaginateLine + (DefaultLine + Fence), MarpKey, 'm');
    Hides(PaginateLine, DefaultLine + Fence, MarpKey, 'm');
    Hides(DefaultLine, Fence, MarpKey, 'p');
    MissingCharNotContained(Fence, MarpKey, 'm');
  }

  /** Applied to its own result, the code as written adds the `marp: true` line it lost. */
  lemma MarpInThemeSecondPass()
    ensures EnsureMarpMetadataAsWritten(Fence + (PaginateLine + (DefaultLine + Fence)), "default")
            == Fence + (MarpLine + (PaginateLine + (DefaultLine + Fence)))
  {
    var s3 := Fence + (PaginateLine + (DefaultLine + Fence));
    var u := Fence + (MarpLine + (PaginateLine + (DefaultLine + Fence)));
    MarpInThemeLosesMarp();
    assert StartsWith(s3, Fence);
    InsertAfterFence(s3, MarpLine);
    assert s3[4..] == PaginateLine + (DefaultLine + Fence);
    assert MarpStep(s3) == u;
    InsertedThemeSettled(Fence, "default");
    PrefixKeepsStable(Fence, DefaultLine + Fence, "default");
    PrefixKeepsStable(PaginateLine, DefaultLine + Fence, "default");
    PrefixKeepsStable(MarpLine, PaginateLine + (DefaultLine + Fence), "default");
    PrefixKeepsStable(Fence, MarpLine + (PaginateLine + (DefaultLine + Fence)), "default");
    StableIsFixed(u, "default");
    KeyLines("default");
    LineMentions(DefaultLine, Fence, ThemeKey);
    ContainsAfterPrefix(PaginateLine, DefaultLine + Fence, ThemeKey);
    ContainsAfterPrefix(MarpLine, PaginateLine + (DefaultLine + Fence), ThemeKey);
    ContainsAfterPrefix(Fence, MarpLine + (PaginateLine + (DefaultLine + Fence)), ThemeKey);
    assert ThemeStep(u, "default") == u;
    LineMentions(PaginateLine, DefaultLine + Fence, PaginateKey);
    ContainsAfterPrefix(MarpLine, PaginateLine + (DefaultLine + Fence), PaginateKey);
    ContainsAfterPrefix(Fence, MarpLine + (PaginateLine + (DefaultLine + Fence)), PaginateKey);
  }

  /**
   * On `---\ntheme: marp: true\n---\n` with theme `default`, the code as
   * written returns front matter without `marp: true`, so its output is not a
   * Marp document and a second call changes it; the corrected function keeps
   * the marker.
   */
  lemma MarpCheckBeforeThemeRewrite()
    ensures var out := EnsureMarpMetadataAsWritten(MarpInTheme, "default");
            out == Fence + (PaginateLine + (DefaultLine + Fence))
            && !Contains(out, MarpKey)
            && EnsureMarpMetadataAsWritten(out, "default") != out
    ensures EnsureMarpMetadata(MarpInTheme, "default") == Fence + (MarpLine + (PaginateLine + (DefaultLine + Fence)))
    ensures Contains(EnsureMarpMetadata(MarpInTheme, "default"), MarpKey)
  {
    MarpInThemeSteps();
    MarpInThemeLosesMarp();
    MarpInThemeSecondPass();
    var out := Fence + (PaginateLine + (DefaultLine + Fence));
    var u := Fence + (MarpLine + (PaginateLine + (DefaultLine + Fence)));
    assert |u| == |out| + |MarpLine|;
    assert EnsureMarpMetadata(MarpInTheme, "default") == MarpStep(out);
    assert StartsWith(out, Fence);
    InsertAfterFence(out, MarpLine);
    assert out[4..] == PaginateLine + (DefaultLine + Fence);
    KeyLines("default");
    LineMentions(MarpLine, PaginateLine + (DefaultLine + Fence), MarpKey);
    ContainsAfterPrefix(Fence, MarpLine + (PaginateLine + (DefaultLine + Fence)), MarpKey);
  }

  // ---------------------------------------------------------------------------
  // AVAILABLE_THEMES and getThemePreviews
  // ---------------------------------------------------------------------------

  datatype Theme = Theme(id: string, name: string)

  const AvailableThemes: seq<Theme> := [
    Theme("default", "默认主题"),
    Theme("gaia", "Gaia"),
    Theme("uncover", "Uncover"),
    Theme("bespoke", "现代简约"),
    Theme("elegant", "优雅蓝"),
    Theme("corporate", "商务专业"),
    Theme("creative", "创意设计"),
    Theme("minimal", "极简黑白")
  ]

  /** Every built-in id is plain, so it has no line break, and no two themes share an id. */
  lemma ThemeIdsPlainAndDistinct()
    ensures forall i :: 0 <= i < |AvailableThemes| ==> PlainTheme(AvailableThemes[i].id)
    ensures forall i :: 0 <= i < |AvailableThemes| ==> NoLineBreak(AvailableThemes[i].id)
    ensures forall i, j :: 0 <= i < j < |AvailableThemes| ==> AvailableThemes[i].id != AvailableThemes[j].id
  {
  }

  /** The preview template, split at its `$THEME$` placeholder. */
  const SampleHead := "---\nmarp: true\ntheme: "
  const ThemePlaceholder := "$THEME$"
  const SampleTail := "\npaginate: true\n---\n\n"

  /** The four sample slides after the front matter. */
  const SampleSlides := "# 这是一个示例演示文稿\n\n---\n\n## 主要内容\n\n- 第一点\n- 第二点\n- 第三点\n\n---\n\n## 表格示例\n\n| 项目 | 描述 |\n|------|------|\n| 项目1 | 描述1 |\n| 项目2 | 描述2 |\n\n---\n\n# 谢谢观看！"

  const SampleMarkdown := SampleHead + (ThemePlaceholder + (SampleTail + SampleSlides))

  /** `sampleMarkdown.replace('$THEME$', theme.id)` */
  function Preview(id: string): string {
    ReplaceFirst(SampleMarkdown, ThemePlaceholder, id)
  }

  lemma Regroup4(a: string, b: string, c: string, d: string)
    ensures a + (b + (c + d)) == ((a + b) + c) + d
  {
  }

  /** A preview is the sample slides under the front matter the export itself would write. */
  lemma PreviewIsFresh(id: string)
    ensures Preview(id) == FreshFrontMatter(SampleSlides, id)
  {
    var rest := SampleTail + SampleSlides;
    assert (ThemePlaceholder + rest)[..|ThemePlaceholder|] == ThemePlaceholder;
    ReplaceAfterPrefix(SampleHead, ThemePlaceholder + rest, ThemePlaceholder, id);
    assert (ThemePlaceholder + rest)[|ThemePlaceholder|..] == rest;
    RegroupFresh(Fence, MarpLine, "theme: ", id, "\n", PaginateLine, Fence, "\n", SampleSlides);
    FreshPieces();
    Regroup4(SampleHead, id, SampleTail, SampleSlides);
  }

  /** Exporting a preview with its own theme leaves it unchanged. */
  lemma PreviewNormalised(id: string)
    requires NoLineBreak(id)
    ensures EnsureMarpMetadata(Preview(id), id) == Preview(id)
    ensures EnsureMarpMetadataAsWritten(Preview(id), id) == Preview(id)
  {
    PreviewIsFresh(id);
    FreshIsNormalised(SampleSlides, id);
    NormalisedIsFixed(Preview(id), id);
  }

  /** The ids of the first n themes. */
  function IdsBelow(n: nat): set<string>
    requires n <= |AvailableThemes|
  {
    if n == 0 then {} else IdsBelow(n - 1) + {AvailableThemes[n - 1].id}
  }

  lemma AllThemeIds()
    ensures IdsBelow(|AvailableThemes|)
            == {"default", "gaia", "uncover", "bespoke", "elegant", "corporate", "creative", "minimal"}
  {
    assert IdsBelow(2) == {"default", "gaia"};
    assert IdsBelow(4) == {"default", "gaia", "uncover", "bespoke"};
    assert IdsBelow(6) == {"default", "gaia", "uncover", "bespoke", "elegant", "corporate"};
  }

  /** `getThemePreviews()`: one preview per built-in theme, keyed by its id. */
  method GetThemePreviews() returns (previews: map<string, string>)
    ensures previews.Keys == IdsBelow(|AvailableThemes|)
    ensures forall id :: id in previews ==> previews[id] == Preview(id)
  {
    previews := FillPreviews(SampleMarkdown);
  }

  /** The loop of `getThemePreviews`, filling the placeholder of the given sample. */
  method FillPreviews(sample: string) returns (previews: map<string, string>)
    ensures previews.Keys == IdsBelow(|AvailableThemes|)
    ensures forall id :: id in previews ==> previews[id] == ReplaceFirst(sample, ThemePlaceholder, id)
  {
    previews := map[];
    var i := 0;
    while i < |AvailableThemes|
      invariant 0 <= i <= |AvailableThemes|
      invariant previews.Keys == IdsBelow(i)
      invariant forall id :: id in previews ==> previews[id] == ReplaceFirst(sample, ThemePlaceholder, id)
    {
      var id := AvailableThemes[i].id;
      assert IdsBelow(i + 1) == IdsBelow(i) + {id};
      previews := previews[id := ReplaceFirst(sample, ThemePlaceholder, id)];
      assert previews.Keys == IdsBelow(i) + {id};
      i := i + 1;
    }
  }
}
