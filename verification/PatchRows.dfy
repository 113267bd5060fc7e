/** The rows of a patch text as the appliers see them: a row that opens a hunk, a
    row that looks like one but is no header, or a body row. */
module PatchRows {
  import opened Lines
  import opened Header
  import opened UnifiedDiff
  import opened Wrappers

  datatype PatchRow = Head(range: Range) | Stray(text: string) | Body(text: string)

  /** The regular expression for headers, anchored at the start of the row or not. */
  function MatchHeader(row: string, anchored: bool): Option<Range> {
    if anchored then MatchAtStart(row) else MatchAnywhere(row)
  }

  function Classify(row: string, anchored: bool): PatchRow {
    if !StartsWith(row, "@@") then Body(row)
    else
      match MatchHeader(row, anchored)
      case Some(range) => Head(range)
      case None => Stray(row)
  }

  function ClassifyAll(rows: seq<string>, anchored: bool): (classified: seq<PatchRow>)
    ensures |classified| == |rows|
  {
    if rows == [] then [] else [Classify(rows[0], anchored)] + ClassifyAll(rows[1..], anchored)
  }

  lemma {:induction false} ClassifiedAt(rows: seq<string>, anchored: bool, i: nat)
    requires i < |rows|
    ensures ClassifyAll(rows, anchored)[i] == Classify(rows[i], anchored)
  {
    if i > 0 { ClassifiedAt(rows[1..], anchored, i - 1); }
  }

  /** `line.startsWith("@@")`, told from the classification. */
  lemma OpensAt(rows: seq<string>, anchored: bool, i: nat)
    requires i < |rows|
    ensures var row := ClassifyAll(rows, anchored)[i];
      (StartsWith(rows[i], "@@") <==> !row.Body?) && (row.Body? ==> row.text == rows[i])
  {
    ClassifiedAt(rows, anchored, i);
  }

  /** The match of the header expression on row `i`. */
  method MatchRow(rows: seq<string>, anchored: bool, i: nat) returns (m: Option<Range>)
    requires i < |rows| && StartsWith(rows[i], "@@")
    ensures m == MatchHeader(rows[i], anchored)
    ensures var row := ClassifyAll(rows, anchored)[i];
      if m.Some? then row == Head(m.value) else row.Stray?
  {
    m := MatchHeader(rows[i], anchored);
    ClassifiedAt(rows, anchored, i);
  }

  function Bodies(rows: seq<string>): (bodies: seq<PatchRow>)
    ensures |bodies| == |rows| && forall i :: 0 <= i < |rows| ==> bodies[i] == Body(rows[i])
  {
    if rows == [] then [] else [Body(rows[0])] + Bodies(rows[1..])
  }

  /** The classification of printed hunks. */
  function HunkRows(hunks: seq<Hunk>): seq<PatchRow> {
    if hunks == [] then []
    else [Head(RangeOf(hunks[0]))] + Bodies(PrintRows(hunks[0].rows)) + HunkRows(hunks[1..])
  }

  lemma {:induction false} ClassifyConcat(a: seq<string>, b: seq<string>, anchored: bool)
    ensures ClassifyAll(a + b, anchored) == ClassifyAll(a, anchored) + ClassifyAll(b, anchored)
  {
    if a == [] {
      assert a + b == b;
    } else {
      ClassifyConcat(a[1..], b, anchored);
      assert (a + b)[1..] == a[1..] + b;
    }
  }

  lemma {:induction false} ClassifyBodies(rows: seq<string>, anchored: bool)
    requires StartsNoHunk(rows)
    ensures ClassifyAll(rows, anchored) == Bodies(rows)
  {
    if rows != [] {
      assert !StartsWith(rows[0], "@@");
      forall i | 0 <= i < |rows[1..]| ensures !StartsWith(rows[1..][i], "@@") {
        assert rows[1..][i] == rows[i + 1];
      }
      ClassifyBodies(rows[1..], anchored);
    }
  }

  lemma ClassifyHead(h: Hunk, anchored: bool)
    ensures ClassifyAll([PrintRange(RangeOf(h), h.brief) + h.section], anchored) == [Head(RangeOf(h))]
  {
    ReadsPrinted(RangeOf(h), h.brief, h.section);
    var rows := [PrintRange(RangeOf(h), h.brief) + h.section];
    assert ClassifyAll(rows[1..], anchored) == [];
  }

  /** Printed hunks are recognised whatever the section texts and brief counts. */
  lemma {:induction false} ClassifyPrinted(hunks: seq<Hunk>, anchored: bool)
    ensures ClassifyAll(PrintHunks(hunks), anchored) == HunkRows(hunks)
  {
    if hunks != [] {
      var h := hunks[0];
      var head, body := [PrintRange(RangeOf(h), h.brief) + h.section], PrintRows(h.rows);
      ClassifyPrinted(hunks[1..], anchored);
      ClassifyHead(h, anchored);
      PrintedRows(h.rows);
      ClassifyBodies(body, anchored);
      ClassifyConcat(head, body, anchored);
      ClassifyConcat(head + body, PrintHunks(hunks[1..]), anchored);
    }
  }

  /** The rows of a patch text whose hunks are followed by some more body rows. */
  lemma ClassifyText(preamble: seq<string>, hunks: seq<Hunk>, extra: seq<string>, anchored: bool)
    requires IsPreamble(preamble) && Printable(hunks) && IsPreamble(extra)
    requires preamble + PrintHunks(hunks) + extra != []
    ensures ClassifyAll(Split(Join(preamble + PrintHunks(hunks) + extra)), anchored)
         == Bodies(preamble) + (HunkRows(hunks) + Bodies(extra))
  {
    hide ClassifyAll, HunkRows, PrintHunks, Bodies, Join, Split, Printable;
    SplitPatchText(preamble, hunks, extra);
    assert preamble + PrintHunks(hunks) + extra == preamble + (PrintHunks(hunks) + extra);
    ClassifyConcat(preamble, PrintHunks(hunks) + extra, anchored);
    ClassifyConcat(PrintHunks(hunks), extra, anchored);
    ClassifyBodies(preamble, anchored);
    ClassifyBodies(extra, anchored);
    ClassifyPrinted(hunks, anchored);
  }

  // ----- Hunks as headers with the rows below them -----------------------------

  datatype RawHunk = RawHunk(range: Range, body: seq<string>)

  /** The body rows in front. */
  function LeadingBody(rows: seq<PatchRow>): seq<string> {
    if rows == [] || !rows[0].Body? then [] else [rows[0].text] + LeadingBody(rows[1..])
  }

  /** Every header with its body; rows that follow no header belong to no hunk. */
  function RawHunks(rows: seq<PatchRow>): seq<RawHunk> {
    if rows == [] then []
    else (if rows[0].Head? then [RawHunk(rows[0].range, LeadingBody(rows[1..]))] else []) + RawHunks(rows[1..])
  }

  function RawText(patch: string, anchored: bool): seq<RawHunk> {
    RawHunks(ClassifyAll(Split(patch), anchored))
  }

  lemma RawStep(rows: seq<PatchRow>, i: nat)
    requires i < |rows|
    ensures var row, rest := rows[i], rows[i + 1..];
      && LeadingBody(rows[i..]) == (if row.Body? then [row.text] + LeadingBody(rest) else [])
      && RawHunks(rows[i..])
         == if row.Head? then [RawHunk(row.range, LeadingBody(rest))] + RawHunks(rest) else RawHunks(rest)
  {
    assert rows[i..][1..] == rows[i + 1..];
  }

  /** The raw hunks of a printed patch that is followed by the rows `extra`. */
  function RawMeant(hunks: seq<Hunk>, extra: seq<string>): seq<RawHunk> {
    if hunks == [] then []
    else [RawHunk(RangeOf(hunks[0]), PrintRows(hunks[0].rows) + (if |hunks| == 1 then extra else []))]
         + RawMeant(hunks[1..], extra)
  }

  lemma RawBodyStep(rows: seq<PatchRow>, text: string, rest: seq<PatchRow>)
    requires rows != [] && rows[0] == Body(text) && rows[1..] == rest
    ensures LeadingBody(rows) == [text] + LeadingBody(rest) && RawHunks(rows) == RawHunks(rest)
  {
  }

  lemma {:induction false} RawBodies(texts: seq<string>, rest: seq<PatchRow>)
    ensures LeadingBody(Bodies(texts) + rest) == texts + LeadingBody(rest)
    ensures RawHunks(Bodies(texts) + rest) == RawHunks(rest)
  {
    hide LeadingBody, RawHunks;
    if texts == [] {
      assert Bodies(texts) + rest == rest;
      assert texts + LeadingBody(rest) == LeadingBody(rest);
    } else {
      var rows, more := Bodies(texts) + rest, Bodies(texts[1..]) + rest;
      RawBodies(texts[1..], rest);
      assert rows[1..] == more && rows[0] == Body(texts[0]);
      RawBodyStep(rows, texts[0], more);
      assert texts + LeadingBody(rest) == [texts[0]] + (texts[1..] + LeadingBody(rest));
    }
  }

  lemma {:induction false} RawOfHunkRows(hunks: seq<Hunk>, extra: seq<string>, rows: seq<PatchRow>)
    requires rows == HunkRows(hunks) + Bodies(extra)
    ensures RawHunks(rows) == RawMeant(hunks, extra)
    ensures LeadingBody(rows) == if hunks == [] then extra else []
    decreases |hunks|
  {
    if hunks == [] {
      RawBodies(extra, []);
      assert Bodies(extra) + [] == rows;
    } else {
      var body, rest := PrintRows(hunks[0].rows), HunkRows(hunks[1..]) + Bodies(extra);
      RawOfHunkRows(hunks[1..], extra, rest);
      SplitHead(rows, RangeOf(hunks[0]), body, HunkRows(hunks[1..]), Bodies(extra));
      RawHead(rows, RangeOf(hunks[0]), body, rest);
      LastBody(hunks, extra, LeadingBody(rest));
    }
  }

  lemma SplitHead(rows: seq<PatchRow>, range: Range, body: seq<string>, more: seq<PatchRow>, extra: seq<PatchRow>)
    requires rows == [Head(range)] + Bodies(body) + more + extra
    ensures rows[1..] == Bodies(body) + (more + extra)
  {
  }

  lemma RawHead(rows: seq<PatchRow>, range: Range, body: seq<string>, rest: seq<PatchRow>)
    requires rows != [] && rows[0] == Head(range) && rows[1..] == Bodies(body) + rest
    ensures LeadingBody(rows) == []
    ensures RawHunks(rows) == [RawHunk(range, body + LeadingBody(rest))] + RawHunks(rest)
  {
    RawBodies(body, rest);
  }

  lemma LastBody(hunks: seq<Hunk>, extra: seq<string>, after: seq<string>)
    requires hunks != [] && after == if hunks[1..] == [] then extra else []
    ensures RawMeant(hunks, extra)
         == [RawHunk(RangeOf(hunks[0]), PrintRows(hunks[0].rows) + after)] + RawMeant(hunks[1..], extra)
  {
  }

  /** Reading a printed patch gives each hunk its range and its rows, and the last
      one also the rows that follow the patch. */
  lemma RawOfPrinted(preamble: seq<string>, hunks: seq<Hunk>, extra: seq<string>, anchored: bool)
    requires IsPreamble(preamble) && Printable(hunks) && IsPreamble(extra)
    ensures RawText(Join(preamble + PrintHunks(hunks) + extra), anchored) == RawMeant(hunks, extra)
  {
    if preamble + PrintHunks(hunks) + extra == [] {
      assert PrintHunks(hunks) == [];
      assert Join(preamble + PrintHunks(hunks) + extra) == "";
      RawOfNothing(anchored);
    } else {
      ClassifyText(preamble, hunks, extra, anchored);
      RawBodies(preamble, HunkRows(hunks) + Bodies(extra));
      RawOfHunkRows(hunks, extra, HunkRows(hunks) + Bodies(extra));
    }
  }

  // ----- Headers and bodies that need not agree -------------------------------------

  /** Any headers with any body rows below them. */
  function PrintRaws(raws: seq<RawHunk>): seq<string> {
    if raws == [] then [] else [PrintRange(raws[0].range, false)] + raws[0].body + PrintRaws(raws[1..])
  }

  function RawRows(raws: seq<RawHunk>): seq<PatchRow> {
    if raws == [] then [] else [Head(raws[0].range)] + Bodies(raws[0].body) + RawRows(raws[1..])
  }

  ghost predicate RawPrintable(raws: seq<RawHunk>) {
    forall k :: 0 <= k < |raws| ==> IsPreamble(raws[k].body)
  }

  lemma {:induction false} ClassifyRaws(raws: seq<RawHunk>, anchored: bool)
    requires RawPrintable(raws)
    ensures ClassifyAll(PrintRaws(raws), anchored) == RawRows(raws)
    ensures AllNewlineFree(PrintRaws(raws))
  {
    hide MatchHeader;
    if raws != [] {
      var head := [PrintRange(raws[0].range, false)];
      ClassifyRaws(raws[1..], anchored);
      HeadAlone(raws[0].range, anchored);
      ClassifyBodies(raws[0].body, anchored);
      ClassifyConcat(head, raws[0].body, anchored);
      ClassifyConcat(head + raws[0].body, PrintRaws(raws[1..]), anchored);
      PrintedNewlineFree(raws[0].range, false);
    }
  }

  lemma HeadAlone(r: Range, anchored: bool)
    ensures ClassifyAll([PrintRange(r, false)], anchored) == [Head(r)]
  {
    ReadsPrinted(r, false, "");
    assert PrintRange(r, false) + "" == PrintRange(r, false);
    assert ClassifyAll([PrintRange(r, false)][1..], anchored) == [];
  }

  lemma {:induction false} RawOfRows(raws: seq<RawHunk>)
    ensures RawHunks(RawRows(raws)) == raws && LeadingBody(RawRows(raws)) == []
  {
    if raws != [] {
      hide RawHunks, LeadingBody, Bodies;
      var rows := RawRows(raws);
      assert rows[1..] == Bodies(raws[0].body) + RawRows(raws[1..]);
      RawOfRows(raws[1..]);
      RawHead(rows, raws[0].range, raws[0].body, RawRows(raws[1..]));
      assert raws[0].body + [] == raws[0].body && [raws[0]] + raws[1..] == raws;
    }
  }

  /** The rows of such a patch, and the headers and bodies read back from it. */
  lemma RawOfRaws(preamble: seq<string>, raws: seq<RawHunk>, anchored: bool)
    requires IsPreamble(preamble) && RawPrintable(raws) && raws != []
    ensures ClassifyAll(Split(Join(preamble + PrintRaws(raws))), anchored) == Bodies(preamble) + RawRows(raws)
    ensures RawText(Join(preamble + PrintRaws(raws)), anchored) == raws
  {
    hide Join, Split, Bodies;
    ClassifyRaws(raws, anchored);
    SplitJoinNewlineFree(preamble + PrintRaws(raws));
    ClassifyConcat(preamble, PrintRaws(raws), anchored);
    ClassifyBodies(preamble, anchored);
    RawBodies(preamble, RawRows(raws));
    RawOfRows(raws);
  }

  /** A row that starts with `@@` and is no header. */
  ghost predicate IsStray(row: string, anchored: bool) {
    NewlineFree(row) && StartsWith(row, "@@") && MatchHeader(row, anchored).None?
  }

  lemma ClassifyThenStray(preamble: seq<string>, hunks: seq<Hunk>, stray: string, tail: seq<string>, anchored: bool)
    requires IsPreamble(preamble) && Printable(hunks) && IsStray(stray, anchored) && IsPreamble(tail)
    ensures ClassifyAll(Split(Join(preamble + PrintHunks(hunks) + ([stray] + tail))), anchored)
         == Bodies(preamble) + (HunkRows(hunks) + ([Stray(stray)] + Bodies(tail)))
  {
    hide HunkRows, PrintHunks, Bodies, Join, Split, Printable, MatchHeader;
    SplitPatchText(preamble, hunks, [stray] + tail);
    assert preamble + PrintHunks(hunks) + ([stray] + tail) == preamble + (PrintHunks(hunks) + ([stray] + tail));
    ClassifyConcat(preamble, PrintHunks(hunks) + ([stray] + tail), anchored);
    ClassifyConcat(PrintHunks(hunks), [stray] + tail, anchored);
    ClassifyConcat([stray], tail, anchored);
    assert [stray][1..] == [];
    ClassifyBodies(preamble, anchored);
    ClassifyBodies(tail, anchored);
    ClassifyPrinted(hunks, anchored);
  }

  lemma {:induction false} RawThenStray(hunks: seq<Hunk>, stray: string, tail: seq<string>, rows: seq<PatchRow>)
    requires rows == HunkRows(hunks) + ([Stray(stray)] + Bodies(tail))
    ensures RawHunks(rows) == RawMeant(hunks, []) && LeadingBody(rows) == []
    decreases |hunks|
  {
    if hunks == [] {
      RawBodies(tail, []);
      assert Bodies(tail) + [] == Bodies(tail) == rows[1..];
    } else {
      var after := [Stray(stray)] + Bodies(tail);
      var body, rest := PrintRows(hunks[0].rows), HunkRows(hunks[1..]) + after;
      RawThenStray(hunks[1..], stray, tail, rest);
      SplitHead(rows, RangeOf(hunks[0]), body, HunkRows(hunks[1..]), after);
      RawHead(rows, RangeOf(hunks[0]), body, rest);
      LastBody(hunks, [], LeadingBody(rest));
    }
  }

  /** Such a row ends the last hunk, and the rows behind it belong to no hunk. */
  lemma RawOfPrintedThenStray(preamble: seq<string>, hunks: seq<Hunk>, stray: string, tail: seq<string>, anchored: bool)
    requires IsPreamble(preamble) && Printable(hunks) && IsStray(stray, anchored) && IsPreamble(tail)
    ensures RawText(Join(preamble + PrintHunks(hunks) + ([stray] + tail)), anchored) == RawMeant(hunks, [])
  {
    hide MatchHeader, Join, Split, PrintHunks;
    var rows := HunkRows(hunks) + ([Stray(stray)] + Bodies(tail));
    ClassifyThenStray(preamble, hunks, stray, tail, anchored);
    RawBodies(preamble, rows);
    RawThenStray(hunks, stray, tail, rows);
  }

  // ----- A header behind the start of its row ------------------------------------------

  /** The row of a header with `@@` and a blank in front. */
  function OddHead(h: Hunk): string {
    "@@ " + (PrintRange(RangeOf(h), h.brief) + h.section)
  }

  function OddPatch(preamble: seq<string>, h: Hunk): string {
    Join(preamble + ([OddHead(h)] + PrintRows(h.rows)))
  }

  lemma OddHeadMatches(h: Hunk)
    ensures StartsWith(OddHead(h), "@@")
    ensures MatchAtStart(OddHead(h)).None? && MatchAnywhere(OddHead(h)) == Some(RangeOf(h))
  {
    hide PrintRange, MatchAtStart, MatchAnywhere;
    var line := PrintRange(RangeOf(h), h.brief) + h.section;
    ReadsPrinted(RangeOf(h), h.brief, h.section);
    PrintedLength(RangeOf(h), h.brief);
    var s := OddHead(h);
    assert line[0] == '@' && line[1] == '@' by {
      assert "@@"[0] == '@' && "@@"[1] == '@' && line[..2] == "@@";
    }
    assert s[0] == '@' && s[1] == '@' && s[2] == ' ' && s[3] == '@' && s[3..] == line && s[4] == '@';
    NoHeaderAt(s);
    NoHeaderAt(s[1..]);
    NoHeaderAt(s[2..]);
    SkipsOne(s);
    SkipsOne(s[1..]);
    SkipsOne(s[2..]);
    assert s[1..][1..] == s[2..] && s[2..][1..] == s[3..];
  }

  lemma PrintedLength(r: Range, brief: bool)
    ensures |PrintRange(r, brief)| >= 4
  {
  }

  lemma SkipsOne(s: string)
    requires s != "" && MatchAtStart(s).None?
    ensures MatchAnywhere(s) == MatchAnywhere(s[1..])
  {
  }

  lemma NoHeaderAt(s: string)
    requires |s| >= 4 && (s[0] != '@' || s[1] != '@' || s[2] != ' ' || s[3] != '-')
    ensures MatchAtStart(s).None?
  {
    assert "@@ -"[0] == '@' && "@@ -"[1] == '@' && "@@ -"[2] == ' ' && "@@ -"[3] == '-';
  }

  /** Without the anchor the row is a header, with it the row is none. */
  lemma ClassifyOdd(preamble: seq<string>, h: Hunk, anchored: bool)
    requires IsPreamble(preamble) && Printable([h])
    ensures ClassifyAll(Split(OddPatch(preamble, h)), anchored)
         == Bodies(preamble) + ([if anchored then Stray(OddHead(h)) else Head(RangeOf(h))] + Bodies(PrintRows(h.rows)))
  {
    hide MatchAtStart, MatchAnywhere, OddHead, Join, Split;
    var rows := [OddHead(h)] + PrintRows(h.rows);
    OddHeadMatches(h);
    OddHeadNewlineFree(h);
    PrintedRows(h.rows);
    SplitJoinNewlineFree(preamble + rows);
    ClassifyConcat(preamble, rows, anchored);
    ClassifyConcat([OddHead(h)], PrintRows(h.rows), anchored);
    var head: seq<string> := [OddHead(h)];
    assert head[1..] == [] && ClassifyAll(head[1..], anchored) == [];
    ClassifyBodies(preamble, anchored);
    ClassifyBodies(PrintRows(h.rows), anchored);
  }

  lemma OddHeadNewlineFree(h: Hunk)
    requires Printable([h])
    ensures NewlineFree(OddHead(h)) && AllNewlineFree(PrintRows(h.rows))
  {
    hide PrintRange;
    assert [h][0] == h;
    PrintedNewlineFree(RangeOf(h), h.brief);
    PrintedHunksNewlineFree([h]);
    var none: seq<Hunk> := [];
    assert [h][1..] == none && PrintHunks(none) == [];
    var printed := PrintHunks([h]);
    assert printed == PrintHunk(h) + [];
    assert forall i :: 0 <= i < |PrintRows(h.rows)| ==> PrintRows(h.rows)[i] == printed[i + 1];
  }

  /** So the pages read it as the plain patch, and the worker reads nothing. */
  lemma RawOfOdd(preamble: seq<string>, h: Hunk)
    requires IsPreamble(preamble) && Printable([h])
    ensures ClassifyAll(Split(OddPatch(preamble, h)), false) == ClassifyAll(Split(PatchText(preamble, [h])), false)
    ensures RawText(OddPatch(preamble, h), true) == []
  {
    hide Join, Split, ClassifyAll, Bodies, PrintRows, OddHead;
    ClassifyOdd(preamble, h, false);
    ClassifyOdd(preamble, h, true);
    assert preamble + PrintHunks([h]) + [] == preamble + PrintHunks([h]);
    ClassifyText(preamble, [h], [], false);
    assert [h][1..] == [] && HunkRows([h]) == [Head(RangeOf(h))] + Bodies(PrintRows(h.rows)) + [];
    NoBodies();
    var rows := [Stray(OddHead(h))] + Bodies(PrintRows(h.rows));
    RawBodies(preamble, rows);
    RawBodies(PrintRows(h.rows), []);
    assert Bodies(PrintRows(h.rows)) + [] == Bodies(PrintRows(h.rows)) == rows[1..];
  }

  lemma NoBodies()
    ensures Bodies([]) == [] && HunkRows([]) == []
  {
  }

  lemma RawOfNothing(anchored: bool)
    ensures RawText("", anchored) == []
  {
    ClassifyBodies([""], anchored);
    RawBodies([""], []);
    assert Bodies([""]) + [] == Bodies([""]);
  }

  ghost predicate RawNewlineFree(hunks: seq<RawHunk>) {
    forall k :: 0 <= k < |hunks| ==> AllNewlineFree(hunks[k].body)
  }

  lemma {:induction false} RawRowsNewlineFree(rows: seq<PatchRow>)
    requires forall k :: 0 <= k < |rows| && rows[k].Body? ==> NewlineFree(rows[k].text)
    ensures AllNewlineFree(LeadingBody(rows)) && RawNewlineFree(RawHunks(rows))
  {
    if rows != [] {
      RawRowsNewlineFree(rows[1..]);
      if rows[0].Body? { assert NewlineFree(rows[0].text); }
    }
  }

  lemma RawTextNewlineFree(patch: string, anchored: bool)
    ensures RawNewlineFree(RawText(patch, anchored))
  {
    var rows := Split(patch);
    forall k | 0 <= k < |rows| && ClassifyAll(rows, anchored)[k].Body?
      ensures NewlineFree(ClassifyAll(rows, anchored)[k].text)
    {
      OpensAt(rows, anchored, k);
      assert NewlineFree(rows[k]);
    }
    RawRowsNewlineFree(ClassifyAll(rows, anchored));
  }
}
