/**
 * The text steps of `exportToPPTX`: cutting the normalised document into
 * slides, reading a Markdown table into rows of cells, and labelling the
 * slides with page numbers.
 *
 * Slide titles and the content left after removing them come from regular
 * expressions over the slide text; here they are inputs (`SlideText`).
 */
module PptxText {
  import opened Wrappers
  import opened Strings
  import MarpMetadata

  // ---------------------------------------------------------------------------
  // Slides: processedMarkdown.split('---').filter(slide => slide.trim())
  // ---------------------------------------------------------------------------

  /**
   * `r` is `parts.filter(keep)`, witnessed by `idx`: the kept elements, each
   * taken once from a distinct position, in their original order, and every
   * position whose element passes the test taken.
   */
  predicate Selects(r: seq<string>, parts: seq<string>, keep: string -> bool, idx: seq<nat>) {
    |idx| == |r|
    && (forall k :: 0 <= k < |idx| ==> idx[k] < |parts| && r[k] == parts[idx[k]])
    && (forall k, l :: 0 <= k < l < |idx| ==> idx[k] < idx[l])
    && (forall j :: 0 <= j < |parts| ==> (keep(parts[j]) <==> j in idx))
  }

  /** The positions of `idx`, one further along. */
  function Shifted(idx: seq<nat>): (r: seq<nat>)
    ensures |r| == |idx| && forall k :: 0 <= k < |idx| ==> r[k] == idx[k] + 1
  {
    seq(|idx|, k requires 0 <= k < |idx| => idx[k] + 1)
  }

  /** A position one further along is in the shifted witness exactly when the position before it is in the witness. */
  lemma ShiftedHas(idx: seq<nat>, j: nat)
    ensures j in Shifted(idx) <==> j > 0 && j - 1 in idx
  {
    var sh := Shifted(idx);
    if j > 0 && j - 1 in idx {
      var k :| 0 <= k < |idx| && idx[k] == j - 1;
      assert sh[k] == j;
    }
  }

  /** The witness for filtering `parts` when `rest` = `parts[1..]` has witness `idx`. */
  function ConsWitness(kept: bool, idx: seq<nat>): seq<nat> {
    if kept then [0] + Shifted(idx) else Shifted(idx)
  }

  /** Each position of the new witness holds the element the new result has there. */
  lemma ConsPositions(parts: seq<string>, r: seq<string>, keep: string -> bool, idx: seq<nat>)
    requires |parts| > 0 && Selects(r, parts[1..], keep, idx)
    ensures var r' := if keep(parts[0]) then [parts[0]] + r else r;
            var idx' := ConsWitness(keep(parts[0]), idx);
            |idx'| == |r'| && forall k :: 0 <= k < |idx'| ==> idx'[k] < |parts| && r'[k] == parts[idx'[k]]
  {
    var kept := keep(parts[0]);
    var r' := if kept then [parts[0]] + r else r;
    var idx' := ConsWitness(kept, idx);
    var d := if kept then 1 else 0;
    forall k | 0 <= k < |idx'|
      ensures idx'[k] < |parts| && r'[k] == parts[idx'[k]]
    {
      if k >= d {
        assert idx'[k] == idx[k - d] + 1 && r'[k] == r[k - d];
        assert parts[idx[k - d] + 1] == parts[1..][idx[k - d]];
      }
    }
  }

  /** The new witness takes exactly the positions whose element passes the test. */
  lemma ConsMembers(parts: seq<string>, r: seq<string>, keep: string -> bool, idx: seq<nat>)
    requires |parts| > 0 && Selects(r, parts[1..], keep, idx)
    ensures forall j :: 0 <= j < |parts| ==> (keep(parts[j]) <==> j in ConsWitness(keep(parts[0]), idx))
  {
    forall j | 0 <= j < |parts|
      ensures keep(parts[j]) <==> j in ConsWitness(keep(parts[0]), idx)
    {
      ShiftedHas(idx, j);
      if j > 0 {
        assert parts[j] == parts[1..][j - 1];
      }
    }
  }

  /** The new witness still rises strictly. */
  lemma ConsIncreasing(kept: bool, idx: seq<nat>)
    requires forall k, l :: 0 <= k < l < |idx| ==> idx[k] < idx[l]
    ensures var w := ConsWitness(kept, idx);
            forall k, l :: 0 <= k < l < |w| ==> w[k] < w[l]
  {
    var sh := Shifted(idx);
    assert forall k, l :: 0 <= k < l < |sh| ==> sh[k] < sh[l];
  }

  /** Filtering one more element in front: the witness shifts by one, with position 0 added when it is kept. */
  lemma SelectsCons(parts: seq<string>, r: seq<string>, keep: string -> bool, idx: seq<nat>)
    requires |parts| > 0 && Selects(r, parts[1..], keep, idx)
    ensures Selects(if keep(parts[0]) then [parts[0]] + r else r, parts, keep, ConsWitness(keep(parts[0]), idx))
  {
    ConsPositions(parts, r, keep, idx);
    ConsMembers(parts, r, keep, idx);
    ConsIncreasing(keep(parts[0]), idx);
  }

  /** `slide => slide.trim()`: a piece kept as a slide. */
  predicate IsSlideText(p: string) {
    !Blank(p)
  }

  /** `parts.filter(p => p.trim())`: the pieces that are not blank, in order. */
  function NonBlank(parts: seq<string>): seq<string> {
    if |parts| == 0 then []
    else if !IsSlideText(parts[0]) then NonBlank(parts[1..])
    else [parts[0]] + NonBlank(parts[1..])
  }

  /** The slides of a normalised document. */
  function Slides(markdown: string): seq<string> {
    NonBlank(Split(markdown, "---"))
  }

  /** The filter keeps exactly the pieces that are not blank, each once and in their order. */
  lemma {:induction false} NonBlankKeeps(parts: seq<string>)
    ensures forall k :: 0 <= k < |NonBlank(parts)| ==> !Blank(NonBlank(parts)[k]) && NonBlank(parts)[k] in parts
    ensures forall p :: p in parts && !Blank(p) ==> p in NonBlank(parts)
    ensures |NonBlank(parts)| <= |parts|
    ensures exists idx :: Selects(NonBlank(parts), parts, IsSlideText, idx)
  {
    var keep := IsSlideText;
    if |parts| == 0 {
      assert Selects([], parts, keep, []);
    } else {
      NonBlankKeeps(parts[1..]);
      assert forall p :: p in parts ==> p == parts[0] || p in parts[1..];
      var idx :| Selects(NonBlank(parts[1..]), parts[1..], keep, idx);
      SelectsCons(parts, NonBlank(parts[1..]), keep, idx);
      var idx' := ConsWitness(keep(parts[0]), idx);
      assert Selects(NonBlank(parts), parts, keep, idx');
    }
  }

  /** Splitting a fenced block: an empty piece before the first fence, then the block. */
  lemma SplitFenced(sep: string, block: string, rest: string)
    requires |sep| > 0 && sep[0] !in block
    ensures Split(sep + (block + (sep + rest)), sep) == [""] + ([block] + Split(rest, sep))
  {
    var tail := block + (sep + rest);
    assert (sep + tail)[..|sep|] == sep;
    assert (sep + tail)[|sep|..] == tail;
    SplitAfterPrefix("", sep + tail, sep);
    assert "" + (sep + tail) == sep + tail;
    assert (sep + rest)[..|sep|] == sep;
    assert (sep + rest)[|sep|..] == rest;
    SplitAfterPrefix(block, sep + rest, sep);
  }

  lemma NonBlankSkipsEmpty(block: string, parts: seq<string>)
    requires !Blank(block)
    ensures NonBlank([""] + ([block] + parts)) == [block] + NonBlank(parts)
  {
    assert Blank("");
    assert ([""] + ([block] + parts))[1..] == [block] + parts;
    assert ([block] + parts)[1..] == parts;
  }

  /**
   * A block fenced by `---` whose text has no `-` is the first slide, and the
   * slides of the rest follow it.
   */
  lemma FencedBlockIsFirstSlide(block: string, rest: string)
    requires '-' !in block && !Blank(block)
    ensures Slides("---" + (block + ("---" + rest))) == [block] + Slides(rest)
  {
    SplitFenced("---", block, rest);
    NonBlankSkipsEmpty(block, Split(rest, "---"));
  }

  /** The front matter the export writes when the document has none, between its fences. */
  function FrontBlock(theme: string): string {
    "\n" + (MarpMetadata.MarpLine + (MarpMetadata.ThemeLine(theme) + MarpMetadata.PaginateLine))
  }

  lemma Regroup(f: string, n: string, m: string, t: string, p: string, rest: string)
    requires |f| == 4 && |n| == 1 && f[3] == n[0]
    ensures f + (m + (t + (p + (f + rest)))) == f[..3] + ((n + (m + (t + p))) + (f[..3] + (n + rest)))
  {
    assert f == f[..3] + n;
  }

  /**
   * A document without front matter becomes, after normalisation by the code
   * as written, the normalising block as its first slide followed by its own
   * slides. So slide 0 of such a deck is never a title slide.
   */
  lemma ExportedSlides(markdown: string, theme: string)
    requires !StartsWith(markdown, MarpMetadata.Fence) && MarpMetadata.PlainTheme(theme)
    ensures Slides(MarpMetadata.EnsureMarpMetadataAsWritten(markdown, theme))
            == [FrontBlock(theme)] + Slides("\n\n" + markdown)
    ensures '#' !in FrontBlock(theme)
  {
    var t := MarpMetadata.ThemeLine(theme);
    Regroup(MarpMetadata.Fence, "\n", MarpMetadata.MarpLine, t, MarpMetadata.PaginateLine, "\n" + markdown);
    assert MarpMetadata.Fence[..3] == "---";
    assert '-' !in t && '#' !in t by {
      forall k | 0 <= k < |t|
        ensures t[k] != '-' && t[k] != '#'
      {
        if 7 <= k < 7 + |theme| {
          assert t[k] == theme[k - 7];
        }
      }
    }
    var block := FrontBlock(theme);
    assert block[0] == '\n' && !IsSpace('m') && block[1] == 'm';
    assert '-' !in block && '#' !in block;
    FencedBlockIsFirstSlide(block, "\n" + ("\n" + markdown));
    assert "\n" + ("\n" + markdown) == "\n\n" + markdown;
  }

  // ---------------------------------------------------------------------------
  // Tables
  // ---------------------------------------------------------------------------

  /** `cells.filter(cell => cell !== '')` */
  function DropEmpty(cells: seq<string>): seq<string> {
    if |cells| == 0 then []
    else if cells[0] == "" then DropEmpty(cells[1..])
    else [cells[0]] + DropEmpty(cells[1..])
  }

  /** `cells.map(cell => cell.trim())` */
  function TrimAll(cells: seq<string>): (r: seq<string>)
    ensures |r| == |cells| && forall k :: 0 <= k < |r| ==> r[k] == Trim(cells[k])
  {
    seq(|cells|, k requires 0 <= k < |cells| => Trim(cells[k]))
  }

  /** `row.split('|').filter(cell => cell !== '').map(cell => cell.trim())` */
  function ParseRow(row: string): seq<string> {
    TrimAll(DropEmpty(Split(row, "|")))
  }

  lemma {:induction false} DropEmptyKeeps(cells: seq<string>)
    ensures forall k :: 0 <= k < |DropEmpty(cells)| ==> DropEmpty(cells)[k] != "" && DropEmpty(cells)[k] in cells
    ensures forall c :: c in cells && c != "" ==> c in DropEmpty(cells)
  {
    if |cells| > 0 {
      DropEmptyKeeps(cells[1..]);
      assert forall c :: c in cells ==> c == cells[0] || c in cells[1..];
    }
  }

  /** A slice keeps the absence of a character. */
  lemma SliceLacks(s: string, c: char, i: nat, j: nat)
    requires i <= j <= |s| && c !in s
    ensures c !in s[i..j]
  {
    forall k | 0 <= k < j - i
      ensures s[i..j][k] != c
    {
      assert s[i..j][k] == s[i + k];
    }
  }

  /**
   * Every cell of a parsed row is free of `|` and trimmed at both ends; a
   * cell holding only spaces survives the filter and becomes empty.
   */
  lemma ParseRowCells(row: string)
    ensures forall k :: 0 <= k < |ParseRow(row)| ==> '|' !in ParseRow(row)[k]
    ensures forall k :: 0 <= k < |ParseRow(row)| ==>
              ParseRow(row)[k] == "" || (!IsSpace(ParseRow(row)[k][0]) && !IsSpace(ParseRow(row)[k][|ParseRow(row)[k]| - 1]))
  {
    var pieces := Split(row, "|");
    var cells := DropEmpty(pieces);
    SplitPiecesLackSeparator(row, "|");
    DropEmptyKeeps(pieces);
    forall k | 0 <= k < |ParseRow(row)|
      ensures '|' !in ParseRow(row)[k]
      ensures ParseRow(row)[k] == "" || (!IsSpace(ParseRow(row)[k][0]) && !IsSpace(ParseRow(row)[k][|ParseRow(row)[k]| - 1]))
    {
      var c := cells[k];
      assert c in pieces;
      var m :| 0 <= m < |pieces| && pieces[m] == c;
      ContainsChar(c, '|');
      TrimShape(c);
      var i, j :| 0 <= i <= j <= |c| && Trim(c) == c[i..j];
      SliceLacks(c, '|', i, j);
    }
  }

  lemma SplitLastCell(b: string)
    requires '|' !in b
    ensures Split(b + "|", "|") == [b, ""]
  {
    assert "|"[..1] == "|" && "|"[1..] == "";
    SplitAfterPrefix(b, "|", "|");
    SplitWithoutSeparator("", "|");
  }

  lemma SplitTwoCells(a: string, b: string)
    requires '|' !in a && '|' !in b
    ensures Split("|" + (a + ("|" + (b + "|"))), "|") == ["", a, b, ""]
  {
    SplitFenced("|", a, b + "|");
    SplitLastCell(b);
  }

  /**
   * `|a|b|` gives the cells `a` and `b`, trimmed; a cell of spaces only is
   * kept, as an empty cell, because the empty test comes before the trim.
   */
  lemma ParseRowTwoCells(a: string, b: string)
    requires a != "" && b != "" && '|' !in a && '|' !in b
    ensures ParseRow("|" + (a + ("|" + (b + "|")))) == [Trim(a), Trim(b)]
  {
    SplitTwoCells(a, b);
    DropEmptyCells(a, b);
  }

  lemma DropEmptyCells(a: string, b: string)
    requires a != "" && b != ""
    ensures DropEmpty(["", a, b, ""]) == [a, b]
  {
    assert DropEmpty([""]) == [];
    assert [b, ""][1..] == [""];
    assert DropEmpty([b, ""]) == [b];
    assert [a, b, ""][1..] == [b, ""];
    assert DropEmpty([a, b, ""]) == [a, b];
    assert ["", a, b, ""][1..] == [a, b, ""];
  }

  /** `row.trim() && row.includes('|')` */
  predicate IsTableLine(row: string) {
    !Blank(row) && '|' in row
  }

  /** A line with a `|` is never blank, so the test is just the `|`. */
  lemma IsTableLineIff(row: string)
    ensures IsTableLine(row) <==> '|' in row
  {
    if '|' in row {
      var k :| 0 <= k < |row| && row[k] == '|';
      assert !IsSpace(row[k]);
    }
  }

  function TableLines(lines: seq<string>): seq<string> {
    if |lines| == 0 then []
    else if IsTableLine(lines[0]) then [lines[0]] + TableLines(lines[1..])
    else TableLines(lines[1..])
  }

  /** The lines kept are exactly the lines holding a `|`, each once and in source order. */
  lemma {:induction false} TableLinesKeep(lines: seq<string>)
    ensures forall k :: 0 <= k < |TableLines(lines)| ==> '|' in TableLines(lines)[k] && TableLines(lines)[k] in lines
    ensures forall l :: l in lines && '|' in l ==> l in TableLines(lines)
    ensures exists idx :: Selects(TableLines(lines), lines, IsTableLine, idx)
  {
    if |lines| == 0 {
      assert TableLines(lines) == [];
      assert Selects([], lines, IsTableLine, []);
    } else {
      TableLinesKeep(lines[1..]);
      IsTableLineIff(lines[0]);
      assert forall l :: l in lines ==> l == lines[0] || l in lines[1..];
      var idx :| Selects(TableLines(lines[1..]), lines[1..], IsTableLine, idx);
      SelectsCons(lines, TableLines(lines[1..]), IsTableLine, idx);
      var idx' := ConsWitness(IsTableLine(lines[0]), idx);
      assert Selects(TableLines(lines), lines, IsTableLine, idx');
    }
  }

  /** `tableText.split('\n').filter(...).map(...)`: the parsed rows of a table block. */
  function TableRows(text: string): (rows: seq<seq<string>>)
    ensures |rows| == |TableLines(Split(text, "\n"))|
    ensures forall k :: 0 <= k < |rows| ==> rows[k] == ParseRow(TableLines(Split(text, "\n"))[k])
  {
    var lines := TableLines(Split(text, "\n"));
    seq(|lines|, k requires 0 <= k < |lines| => ParseRow(lines[k]))
  }

  /** A table as handed to the slide: a header row and the data rows. */
  datatype Table = Table(header: seq<string>, data: seq<seq<string>>)

  /**
   * `if (tableRows.length > 1)`: row 0 is the header, row 1 is dropped
   * (meant as the separator line, although a separator of three or more
   * dashes has already been cut apart by the slide split) and the rest are
   * data.
   */
  function ParseTable(text: string): (r: Option<Table>)
    ensures r.Some? <==> |TableRows(text)| > 1
    ensures r.Some? ==> [r.value.header, TableRows(text)[1]] + r.value.data == TableRows(text)
  {
    var rows := TableRows(text);
    if |rows| > 1 then
      assert [rows[0], rows[1]] + rows[2..] == rows;
      Some(Table(rows[0], rows[2..]))
    else None
  }

  // ---------------------------------------------------------------------------
  // Cover slide and page labels
  // ---------------------------------------------------------------------------

  /** A slide's title and the content left once its headings are removed. */
  datatype SlideText = SlideText(title: string, content: string)

  /** `i === 0 && title && !content.trim()` */
  predicate IsCover(i: nat, slide: SlideText) {
    i == 0 && slide.title != "" && Trim(slide.content) == ""
  }

  /** `${i + 1} / ${slides.length}` */
  function PageLabel(i: nat, n: nat): string {
    NatToString(i + 1) + " / " + NatToString(n)
  }

  /** The label added to slide i of n, none for the cover. */
  function SlideLabel(i: nat, n: nat, slide: SlideText): Option<string> {
    if IsCover(i, slide) then None else Some(PageLabel(i, n))
  }

  /** The loop over the slides, collecting the label each one receives. */
  method PageLabels(slides: seq<SlideText>) returns (labels: seq<Option<string>>)
    ensures |labels| == |slides|
    ensures forall i :: 0 <= i < |slides| ==> labels[i] == SlideLabel(i, |slides|, slides[i])
  {
    labels := [];
    var i := 0;
    while i < |slides|
      invariant 0 <= i <= |slides| && |labels| == i
      invariant forall k :: 0 <= k < i ==> labels[k] == SlideLabel(k, |slides|, slides[k])
    {
      var next: Option<string>;
      if IsCover(i, slides[i]) {
        next := None;
      } else {
        next := Some(PageLabel(i, |slides|));
      }
      labels := labels + [next];
      i := i + 1;
    }
  }

  /** Only the first slide can go without a label, and it does exactly when it has a title and no content. */
  lemma OnlyCoverUnlabelled(i: nat, n: nat, slide: SlideText)
    ensures i > 0 ==> SlideLabel(i, n, slide) == Some(PageLabel(i, n))
    ensures SlideLabel(0, n, slide).None? <==> slide.title != "" && Blank(slide.content)
  {
    TrimEmptyIffBlank(slide.content);
  }

  lemma DigitsLackSpace(s: string)
    requires forall k :: 0 <= k < |s| ==> IsDigit(s[k])
    ensures ' ' !in s && !Contains(s, " / ")
  {
    MissingCharNotContained(s, " / ", ' ');
  }

  /** A label reads back as the slide number and the slide count. */
  lemma PageLabelDecodes(i: nat, n: nat)
    ensures Split(PageLabel(i, n), " / ") == [NatToString(i + 1), NatToString(n)]
    ensures ParseNat(NatToString(i + 1)) == i + 1 && ParseNat(NatToString(n)) == n
  {
    var a, b := NatToString(i + 1), NatToString(n);
    DigitsLackSpace(a);
    DigitsLackSpace(b);
    assert a + " / " + b == a + (" / " + b);
    assert (" / " + b)[..3] == " / ";
    assert (" / " + b)[3..] == b;
    SplitAfterPrefix(a, " / " + b, " / ");
    SplitWithoutSeparator(b, " / ");
    ParseNatToString(i + 1);
    ParseNatToString(n);
  }

  /** Different slides, or different slide counts, never share a label. */
  lemma PageLabelInjective(i: nat, n: nat, j: nat, m: nat)
    requires PageLabel(i, n) == PageLabel(j, m)
    ensures i == j && n == m
  {
    PageLabelDecodes(i, n);
    PageLabelDecodes(j, m);
    NatToStringInjective(i + 1, j + 1);
    NatToStringInjective(n, m);
  }
}
