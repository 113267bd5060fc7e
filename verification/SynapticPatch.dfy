/** The patch applier of the viewer page: it walks the rows of a patch and splices
    the document in place, keeping a running offset. */
module SynapticPatch {
  import opened Lines
  import opened Header
  import opened ArraySplice
  import opened UnifiedDiff
  import opened PatchRows
  import opened PatchEdits

  // ----- What the loops compute ----------------------------------------------

  /** A deletion adds nothing to the new segment; any other row adds all but its
      first character. */
  function Contributions(rows: seq<string>): seq<string> {
    if rows == [] then []
    else if StartsWith(rows[0], "-") then Contributions(rows[1..])
    else [Tail(rows[0])] + Contributions(rows[1..])
  }

  function EditOf(h: RawHunk): Edit {
    Edit(h.range.oldStart, h.range.oldCount, Contributions(h.body), h.range.newCount - h.range.oldCount)
  }

  function EditsOf(hunks: seq<RawHunk>): (edits: seq<Edit>)
    ensures |edits| == |hunks| && forall k :: 0 <= k < |hunks| ==> edits[k] == EditOf(hunks[k])
  {
    if hunks == [] then [] else [EditOf(hunks[0])] + EditsOf(hunks[1..])
  }

  /** Batched replacement as a value. */
  function Batched(): Replacer {
    (a: seq<string>, start: int, count: nat, seg: seq<string>) => Replace(a, start, count, seg, CHUNK_SIZE)
  }

  function ApplyText(lines: seq<string>, patch: string): seq<string> {
    ApplyEdits(Batched(), lines, 0, EditsOf(RawText(patch, false)))
  }

  method ApplySynapticPatch(lines: seq<string>, patch: string) returns (out: seq<string>)
    ensures out == ApplyText(lines, patch)
  {
    hide Batched, ApplyEdits, RawHunks, LeadingBody, ClassifyAll, EditsOf, Split, StartsWith;
    out := lines;
    var patchLines := Split(patch);
    ghost var rows := ClassifyAll(patchLines, false);
    var offset := 0;
    var i := 0;
    assert rows[0..] == rows;
    while i < |patchLines|
      invariant i <= |patchLines|
      invariant ApplyFrom(out, offset, rows[i..]) == ApplyText(lines, patch)
    {
      var line := patchLines[i];
      OpensAt(patchLines, false, i);
      RawStep(rows, i);
      if StartsWith(line, "@@") {
        var m := MatchRow(patchLines, false, i);
        if m.Some? {
          out, offset, i := ApplyHunk(patchLines, m.value, i + 1, out, offset);
          i := i - 1;
        }
      }
      i := i + 1;
    }
    WalkOver(out, offset, rows[i..]);
  }

  lemma WalkOver(out: seq<string>, offset: int, rows: seq<PatchRow>)
    requires rows == []
    ensures ApplyFrom(out, offset, rows) == out
  {
  }

  /** What the rest of the walk makes of the array. */
  function ApplyFrom(out: seq<string>, offset: int, rows: seq<PatchRow>): seq<string> {
    ApplyEdits(Batched(), out, offset, EditsOf(RawHunks(rows)))
  }

  method ApplyHunk(patchLines: seq<string>, m: Range, first: nat, out0: seq<string>, offset0: int)
    returns (out: seq<string>, offset: int, i: nat)
    requires first <= |patchLines|
    ensures first <= i <= |patchLines|
    ensures var rows := ClassifyAll(patchLines, false);
      ApplyFrom(out, offset, rows[i..])
      == ApplyEdits(Batched(), out0, offset0,
                    EditsOf([RawHunk(m, LeadingBody(rows[first..]))] + RawHunks(rows[first..])))
  {
    hide Batched;
    var os, oc := m.oldStart, m.oldCount;
    var startPos := os - 1 + offset0;
    var newSeg;
    newSeg, i := CollectSegment(patchLines, first);
    out := BatchedReplace(out0, startPos, oc, newSeg);
    offset := offset0 + (m.newCount - oc);
    ghost var rows := ClassifyAll(patchLines, false);
    AppliesHead(Batched(), out0, offset0, RawHunk(m, LeadingBody(rows[first..])), RawHunks(rows[i..]));
  }

  lemma AppliesHead(replace: Replacer, out: seq<string>, offset: int, h: RawHunk, rest: seq<RawHunk>)
    ensures var e := EditOf(h);
      ApplyEdits(replace, out, offset, EditsOf([h] + rest))
      == ApplyEdits(replace, replace(out, e.start - 1 + offset, e.count, e.seg), offset + e.growth, EditsOf(rest))
  {
    EditsOfCons(h, rest);
    ApplyFirst(replace, out, offset, EditOf(h), EditsOf(rest));
  }

  method BatchedReplace(a: seq<string>, startPos: int, oc: nat, newSeg: seq<string>) returns (out: seq<string>)
    ensures out == Batched()(a, startPos, oc, newSeg)
  {
    out := ReplaceSegment(a, startPos, oc, newSeg, CHUNK_SIZE);
  }

  lemma EditsOfCons(first: RawHunk, rest: seq<RawHunk>)
    ensures EditsOf([first] + rest) == [EditOf(first)] + EditsOf(rest)
  {
    assert ([first] + rest)[1..] == rest;
  }

  /** The inner loop stops at the next row that starts with `@@`. */
  method CollectSegment(patchLines: seq<string>, first: nat) returns (newSeg: seq<string>, i: nat)
    requires first <= |patchLines|
    ensures first <= i <= |patchLines|
    ensures var rows := ClassifyAll(patchLines, false);
      newSeg == Contributions(LeadingBody(rows[first..])) && RawHunks(rows[first..]) == RawHunks(rows[i..])
  {
    hide Contributions, RawHunks, LeadingBody, ClassifyAll;
    ghost var rows := ClassifyAll(patchLines, false);
    ghost var whole := Contributions(LeadingBody(rows[first..]));
    i := first;
    newSeg := [];
    while i < |patchLines| && !StartsWith(patchLines[i], "@@")
      invariant first <= i <= |patchLines|
      invariant newSeg + Contributions(LeadingBody(rows[i..])) == whole
      invariant RawHunks(rows[i..]) == RawHunks(rows[first..])
    {
      var row := patchLines[i];
      OpensAt(patchLines, false, i);
      RawStep(rows, i);
      newSeg := AddRow(newSeg, row, LeadingBody(rows[i + 1..]));
      i := i + 1;
    }
    if i < |patchLines| { OpensAt(patchLines, false, i); }
    SegmentOver(newSeg, rows, i);
  }

  lemma SegmentOver(newSeg: seq<string>, rows: seq<PatchRow>, i: nat)
    requires i <= |rows| && (i < |rows| ==> !rows[i].Body?)
    ensures newSeg + Contributions(LeadingBody(rows[i..])) == newSeg
  {
    if i < |rows| { RawStep(rows, i); }
  }

  method AddRow(segment: seq<string>, row: string, ghost rest: seq<string>) returns (newSeg: seq<string>)
    ensures newSeg + Contributions(rest) == segment + Contributions([row] + rest)
  {
    newSeg := segment;
    assert ([row] + rest)[1..] == rest;
    assert StartsWith(row, "+") ==> row[0] == '+';
    if StartsWith(row, "+") {
      newSeg := newSeg + [Tail(row)];
    } else if !StartsWith(row, "-") {
      newSeg := newSeg + [Tail(row)];
    }
  }

  // ----- Printed patches -----------------------------------------------------

  lemma {:induction false} ContributionsConcat(a: seq<string>, b: seq<string>)
    ensures Contributions(a + b) == Contributions(a) + Contributions(b)
  {
    if a == [] {
      assert a + b == b;
    } else {
      ContributionsConcat(a[1..], b);
      assert (a + b)[1..] == a[1..] + b;
    }
  }

  lemma {:induction false} PrintedContributions(rows: seq<Row>)
    ensures Contributions(PrintRows(rows)) == NewSide(rows)
  {
    if rows != [] {
      PrintedContributions(rows[1..]);
      assert PrintRows(rows)[1..] == PrintRows(rows[1..]);
      var printed := PrintRow(rows[0]);
      assert Tail(printed) == rows[0].text;
      assert StartsWith(printed, "-") <==> printed[0] == '-';
    }
  }

  lemma {:induction false} EditsMeant(hunks: seq<Hunk>, extra: seq<string>)
    ensures EditsOf(RawMeant(hunks, extra)) == Meant(hunks, Contributions(extra))
  {
    if hunks != [] {
      var h, more := hunks[0], if |hunks| == 1 then extra else [];
      EditsMeant(hunks[1..], extra);
      ContributionsConcat(PrintRows(h.rows), more);
      PrintedContributions(h.rows);
      EditsOfCons(RawHunk(RangeOf(h), PrintRows(h.rows) + more), RawMeant(hunks[1..], extra));
    }
  }

  lemma BatchedReplaces()
    ensures Replaces(Batched())
  {
    forall a, at, count, seg | 0 <= at <= at + count <= |a|
      ensures Batched()(a, at, count, seg) == a[..at] + seg + a[at + count..]
    {
      ReplaceIsSplice(a, at, count, seg, CHUNK_SIZE);
    }
  }

  lemma AppliesRowsAfterHunks(lines: seq<string>, preamble: seq<string>, hunks: seq<Hunk>, extra: seq<string>)
    requires IsPreamble(preamble) && Printable(hunks) && Fits(lines, 0, hunks) && IsPreamble(extra)
    ensures ApplyText(lines, Join(preamble + PrintHunks(hunks) + extra))
         == PatchedAnd(lines, 0, hunks, Contributions(extra))
  {
    RawOfPrinted(preamble, hunks, extra, false);
    EditsMeant(hunks, extra);
    BatchedReplaces();
    EditsRefinePatched(Batched(), lines, hunks, Contributions(extra));
  }

  /** Applying the printed form of a hunk list is replacing all hunks at once. */
  lemma AppliesPatch(lines: seq<string>, preamble: seq<string>, hunks: seq<Hunk>)
    requires IsPreamble(preamble) && Printable(hunks) && Fits(lines, 0, hunks)
    ensures ApplyText(lines, PatchText(preamble, hunks)) == Patched(lines, hunks)
  {
    AppliesRowsAfterHunks(lines, preamble, hunks, []);
    assert preamble + PrintHunks(hunks) + [] == preamble + PrintHunks(hunks);
  }

  /** A row that starts with `@@` and is no header ends the last hunk; it and the rows
      behind it are passed over. */
  lemma StrayEndsPatch(lines: seq<string>, preamble: seq<string>, hunks: seq<Hunk>, stray: string, tail: seq<string>)
    requires IsPreamble(preamble) && Printable(hunks) && Fits(lines, 0, hunks)
    requires IsStray(stray, false) && IsPreamble(tail)
    ensures ApplyText(lines, Join(preamble + PrintHunks(hunks) + ([stray] + tail))) == Patched(lines, hunks)
  {
    RawOfPrintedThenStray(preamble, hunks, stray, tail, false);
    EditsMeant(hunks, []);
    BatchedReplaces();
    EditsRefinePatched(Batched(), lines, hunks, []);
  }

  /** A patch and its reverse undo each other through the applier. */
  lemma ReversePatchUndoes(lines: seq<string>, preamble: seq<string>, hunks: seq<Hunk>)
    requires IsPreamble(preamble) && Printable(hunks) && Fits(lines, 0, hunks) && NewSideConsistent(hunks, 0)
    ensures ApplyText(ApplyText(lines, PatchText(preamble, hunks)), PatchText(preamble, Reverse(hunks))) == lines
  {
    AppliesPatch(lines, preamble, hunks);
    ReverseUndoes(lines, hunks);
    ReversePrintable(hunks);
    AppliesPatch(Patched(lines, hunks), preamble, Reverse(hunks));
  }

  /** And the other way round: on every document that the reverse fits, undoing first
      and patching then is no change either. */
  lemma PatchRedoes(doc: seq<string>, preamble: seq<string>, hunks: seq<Hunk>)
    requires IsPreamble(preamble) && Printable(hunks)
    requires NewSideConsistent(hunks, 0) && forall k :: 0 <= k < |hunks| ==> OldSide(hunks[k].rows) != []
    requires Fits(doc, 0, Reverse(hunks))
    ensures ApplyText(ApplyText(doc, PatchText(preamble, Reverse(hunks))), PatchText(preamble, hunks)) == doc
  {
    ReversePrintable(hunks);
    ReverseConsistent(hunks, 0);
    ReversePatchUndoes(doc, preamble, Reverse(hunks));
    ReverseTwice(hunks);
  }

  /** Headers decide, whatever the bodies below them hold: a header's old range is
      replaced, and the next start is moved by the difference of its two counts. */
  lemma HeadersDecide(lines: seq<string>, preamble: seq<string>, first: RawHunk, second: RawHunk)
    requires IsPreamble(preamble) && RawPrintable([first, second])
    ensures var r, r' := first.range, second.range;
      var out := Replace(lines, r.oldStart - 1, r.oldCount, Contributions(first.body), 10000);
      ApplyText(lines, Join(preamble + PrintRaws([first, second])))
      == Replace(out, r'.oldStart - 1 + (r.newCount - r.oldCount), r'.oldCount, Contributions(second.body), 10000)
  {
    hide Replace, Contributions, Join, PrintRaws;
    RawOfRaws(preamble, [first, second], false);
    assert [first] + [second] == [first, second] && [second] + [] == [second];
    AppliesHead(Batched(), lines, 0, first, [second]);
    var e := EditOf(first);
    AppliesHead(Batched(), Batched()(lines, e.start - 1, e.count, e.seg), e.growth, second, []);
  }

  /** The expression for headers has no anchor: a header behind `@@` and a blank counts. */
  lemma OddHeaderCounts(lines: seq<string>, preamble: seq<string>, h: Hunk)
    requires IsPreamble(preamble) && Printable([h]) && Fits(lines, 0, [h])
    ensures ApplyText(lines, OddPatch(preamble, h)) == Patched(lines, [h])
  {
    hide ClassifyAll, Split, OddPatch;
    RawOfOdd(preamble, h);
    AppliesPatch(lines, preamble, [h]);
  }

  /** The header rows of a second file: all that do not start with `-` enter the
      document, without their first character. */
  lemma NextFileEnters(lines: seq<string>, preamble: seq<string>, hunks: seq<Hunk>,
                       names: string, index: string, oldName: string, newName: string)
    requires IsPreamble(preamble) && Printable(hunks) && Fits(lines, 0, hunks)
    requires NewlineFree(names) && NewlineFree(index) && NewlineFree(oldName) && NewlineFree(newName)
    ensures ApplyText(lines, Join(preamble + PrintHunks(hunks)
              + ["diff --git" + names, "index " + index, "--- " + oldName, "+++ " + newName]))
         == PatchedAnd(lines, 0, hunks, ["iff --git" + names, "ndex " + index, "++ " + newName])
  {
    hide Join, PrintHunks, Printable, Fits, ApplyText, PatchedAnd;
    var extra := ["diff --git" + names, "index " + index, "--- " + oldName, "+++ " + newName];
    NextFileRows(names, index, oldName, newName);
    AppliesRowsAfterHunks(lines, preamble, hunks, extra);
  }

  lemma NextFileRows(names: string, index: string, oldName: string, newName: string)
    requires NewlineFree(names) && NewlineFree(index) && NewlineFree(oldName) && NewlineFree(newName)
    ensures var extra := ["diff --git" + names, "index " + index, "--- " + oldName, "+++ " + newName];
      IsPreamble(extra) && Contributions(extra) == ["iff --git" + names, "ndex " + index, "++ " + newName]
  {
    var d, i, o, n := "diff --git" + names, "index " + index, "--- " + oldName, "+++ " + newName;
    assert d[0] == 'd' && i[0] == 'i' && o[0] == '-' && n[0] == '+' && "@@"[0] == '@' && "-"[0] == '-';
    assert "diff --git"[1..] == "iff --git" && "index "[1..] == "ndex " && "+++ "[1..] == "++ ";
    assert d[1..] == "iff --git" + names && i[1..] == "ndex " + index && n[1..] == "++ " + newName;
    assert NewlineFree(d) && NewlineFree(i) && NewlineFree(o) && NewlineFree(n);
    var last: seq<string> := [n];
    assert last[1..] == [];
    assert Contributions(last) == [n[1..]];
    assert [o, n][1..] == [n] && [i, o, n][1..] == [o, n] && [d, i, o, n][1..] == [i, o, n];
    assert Contributions([o, n]) == [n[1..]];
    assert Contributions([i, o, n]) == [i[1..], n[1..]];
  }

  // ----- Texts the format allows and the applier gets wrong --------------------

  lemma {:induction false} JoinWithBlank(rows: seq<string>)
    requires rows != []
    ensures Join(rows + [""]) == Join(rows) + "\n"
  {
    if |rows| > 1 {
      JoinWithBlank(rows[1..]);
      assert (rows + [""])[1..] == rows[1..] + [""];
    }
  }

  /** Rows behind the hunks are harmless exactly when they contribute no line, or when
      there is no hunk for them to join. */
  lemma RowsAfterHunksHarmless(lines: seq<string>, preamble: seq<string>, hunks: seq<Hunk>, extra: seq<string>)
    requires IsPreamble(preamble) && Printable(hunks) && Fits(lines, 0, hunks) && IsPreamble(extra)
    ensures ApplyText(lines, Join(preamble + PrintHunks(hunks) + extra)) == Patched(lines, hunks)
       <==> hunks == [] || Contributions(extra) == []
  {
    AppliesRowsAfterHunks(lines, preamble, hunks, extra);
    PatchedLength(lines, 0, hunks, Contributions(extra));
    PatchedLength(lines, 0, hunks, []);
  }

  /** The newline that ends every line of a diff, the last one included, turns
      into one more document line after the last new side; it is harmless exactly
      when there is no hunk. */
  lemma FinalNewline(lines: seq<string>, preamble: seq<string>, hunks: seq<Hunk>)
    requires IsPreamble(preamble) && Printable(hunks) && Fits(lines, 0, hunks)
    ensures ApplyText(lines, PatchText(preamble, hunks) + "\n") == PatchedAnd(lines, 0, hunks, [""])
    ensures ApplyText(lines, PatchText(preamble, hunks) + "\n") == Patched(lines, hunks) <==> hunks == []
  {
    var rows := preamble + PrintHunks(hunks);
    assert Contributions([""]) == [""];
    if rows == [] {
      JoinWithBlank([""]);
      assert [""] + [""] == [""] + PrintHunks(hunks) + [""];
      AppliesRowsAfterHunks(lines, [""], hunks, [""]);
      RowsAfterHunksHarmless(lines, [""], hunks, [""]);
    } else {
      JoinWithBlank(rows);
      AppliesRowsAfterHunks(lines, preamble, hunks, [""]);
      RowsAfterHunksHarmless(lines, preamble, hunks, [""]);
    }
  }

  lemma MarkerContributes(marker: string)
    requires marker != "" && marker[0] == '\\'
    ensures !StartsWith(marker, "@@") && Contributions([marker]) == [marker[1..]]
  {
    assert "-"[0] != marker[0] && "@@"[0] != marker[0];
    assert [marker][1..] == [];
  }

  /** A marker row (`\ No newline at end of file`) is taken for a context row and
      its text enters the document; it is harmless exactly when there is no hunk. */
  lemma NoNewlineMarker(lines: seq<string>, preamble: seq<string>, hunks: seq<Hunk>, marker: string)
    requires IsPreamble(preamble) && Printable(hunks) && Fits(lines, 0, hunks)
    requires marker != "" && marker[0] == '\\' && NewlineFree(marker)
    ensures ApplyText(lines, Join(preamble + PrintHunks(hunks) + [marker]))
         == PatchedAnd(lines, 0, hunks, [marker[1..]])
    ensures ApplyText(lines, Join(preamble + PrintHunks(hunks) + [marker])) == Patched(lines, hunks) <==> hunks == []
  {
    MarkerContributes(marker);
    AppliesRowsAfterHunks(lines, preamble, hunks, [marker]);
    RowsAfterHunksHarmless(lines, preamble, hunks, [marker]);
  }

  function AddedRows(texts: seq<string>): seq<Row> {
    if texts == [] then [] else [Added(texts[0])] + AddedRows(texts[1..])
  }

  lemma {:induction false} AddedSides(texts: seq<string>)
    ensures OldSide(AddedRows(texts)) == [] && NewSide(AddedRows(texts)) == texts
  {
    if texts != [] {
      AddedSides(texts[1..]);
      assert AddedRows(texts)[1..] == AddedRows(texts[1..]);
    }
  }

  /** A patch of a single hunk that only inserts. */
  function InsertionPatch(preamble: seq<string>, after: nat, newStart: nat, texts: seq<string>): string {
    PatchText(preamble, [Hunk(after, newStart, AddedRows(texts), false, "")])
  }

  lemma AppliesInsertion(lines: seq<string>, preamble: seq<string>, after: nat, newStart: nat, texts: seq<string>)
    requires IsPreamble(preamble) && AllNewlineFree(texts)
    ensures ApplyText(lines, InsertionPatch(preamble, after, newStart, texts))
         == Replace(lines, after - 1, 0, texts, CHUNK_SIZE)
  {
    var hunks := [Hunk(after, newStart, AddedRows(texts), false, "")];
    AddedSides(texts);
    AddedNewlineFree(texts);
    RawOfPrinted(preamble, hunks, [], false);
    assert preamble + PrintHunks(hunks) + [] == preamble + PrintHunks(hunks);
    EditsMeant(hunks, []);
    ApplyMeant(Batched(), lines, 0, hunks, []);
    assert Meant(hunks[1..], []) == [];
    assert MeantHunk(hunks[0], []).seg == texts;
  }

  lemma {:induction false} AddedNewlineFree(texts: seq<string>)
    requires AllNewlineFree(texts)
    ensures forall i :: 0 <= i < |AddedRows(texts)| ==> NewlineFree(AddedRows(texts)[i].text)
  {
    if texts != [] {
      assert NewlineFree(texts[0]);
      AddedNewlineFree(texts[1..]);
    }
  }

  /** An empty old range names the line before it. The applier inserts in front of
      that line, which gives the right document exactly when every inserted line
      equals it. */
  lemma InsertionOffByOne(lines: seq<string>, preamble: seq<string>, after: nat, newStart: nat, texts: seq<string>)
    requires IsPreamble(preamble) && AllNewlineFree(texts) && 1 <= after <= |lines|
    ensures ApplyText(lines, InsertionPatch(preamble, after, newStart, texts))
         == lines[..after - 1] + texts + lines[after - 1..]
    ensures ApplyText(lines, InsertionPatch(preamble, after, newStart, texts))
         == lines[..after] + texts + lines[after..]
       <==> forall i :: 0 <= i < |texts| ==> texts[i] == lines[after - 1]
  {
    hide ApplyText, InsertionPatch, Replace;
    AppliesInsertion(lines, preamble, after, newStart, texts);
    ReplaceIsSplice(lines, after - 1, 0, texts, CHUNK_SIZE);
    InsertedBefore(lines, after, texts);
  }

  /** Inserting in front of a line instead of behind it. */
  lemma InsertedBefore(lines: seq<string>, after: nat, texts: seq<string>)
    requires 1 <= after <= |lines|
    ensures lines[..after - 1] + texts + lines[after - 1..] == lines[..after] + texts + lines[after..]
       <==> forall i :: 0 <= i < |texts| ==> texts[i] == lines[after - 1]
  {
    var x := lines[after - 1];
    var got, want := lines[..after - 1] + texts + lines[after - 1..], lines[..after] + texts + lines[after..];
    if forall i :: 0 <= i < |texts| ==> texts[i] == x {
      assert got == want;
    } else if got == want {
      assert texts + [x] == got[after - 1..after + |texts|] == want[after - 1..after + |texts|] == [x] + texts;
      Rotation(texts, x);
    }
  }

  lemma {:induction false} Rotation(texts: seq<string>, x: string)
    requires texts + [x] == [x] + texts
    ensures forall i :: 0 <= i < |texts| ==> texts[i] == x
  {
    if texts != [] {
      assert texts[0] == (texts + [x])[0] == x;
      assert texts[1..] + [x] == (texts + [x])[1..] == texts == [x] + texts[1..];
      Rotation(texts[1..], x);
    }
  }

  /** An empty old range at line 0 stands for the top of the document. The applier
      inserts in front of the last line instead, for every document and insertion; the
      result is right exactly when the other lines and the inserted ones can change
      places. */
  lemma InsertionAtTop(lines: seq<string>, preamble: seq<string>, newStart: nat, texts: seq<string>)
    requires IsPreamble(preamble) && AllNewlineFree(texts)
    ensures var got := ApplyText(lines, InsertionPatch(preamble, 0, newStart, texts));
      var rows := InsertedAtMinusOne(Front(lines), texts, 10000);
      && got == rows + Back(lines)
      && (got == texts + lines <==> rows == texts + Front(lines))
    ensures |texts| <= 10000 ==>
      InsertedAtMinusOne(Front(lines), texts, 10000) == Front(lines) + texts
  {
    hide ApplyText, InsertionPatch, Replace, InsertedAtMinusOne;
    AppliesInsertion(lines, preamble, 0, newStart, texts);
    ReplaceAtMinusOne(lines, texts, CHUNK_SIZE);
    SameBack(InsertedAtMinusOne(Front(lines), texts, CHUNK_SIZE), texts + Front(lines), Back(lines));
    assert texts + lines == texts + Front(lines) + Back(lines);
    ShortInsertion(Front(lines), texts);
  }

  lemma SameBack(a: seq<string>, b: seq<string>, back: seq<string>)
    ensures a + back == b + back <==> a == b
  {
    assert (a + back)[..|a|] == a && (b + back)[..|b|] == b;
  }

  lemma ShortInsertion(front: seq<string>, texts: seq<string>)
    ensures |texts| <= CHUNK_SIZE ==> InsertedAtMinusOne(front, texts, CHUNK_SIZE) == front + texts
  {
  }

  /** The patch that creates the document from nothing starts at line 0. Its lines
      come out in order exactly when they fit one chunk or the lines from number
      CHUNK_SIZE on are all the same. */
  lemma CreationPatch(preamble: seq<string>, newStart: nat, texts: seq<string>)
    requires IsPreamble(preamble) && AllNewlineFree(texts)
    ensures ApplyText([""], InsertionPatch(preamble, 0, newStart, texts)) == texts + [""]
       <==> |texts| <= 10000 || forall i :: 10000 <= i < |texts| ==> texts[i] == texts[9999]
  {
    AppliesInsertion([""], preamble, 0, newStart, texts);
    CreatingRowsInOrder("", texts, CHUNK_SIZE);
  }

  // ----- Lines stay lines ------------------------------------------------------

  lemma {:induction false} ContributionsNewlineFree(rows: seq<string>)
    requires AllNewlineFree(rows)
    ensures AllNewlineFree(Contributions(rows))
  {
    if rows != [] {
      assert NewlineFree(rows[0]);
      ContributionsNewlineFree(rows[1..]);
    }
  }

  lemma SpliceNewlineFree(a: seq<string>, start: int, count: int, seg: seq<string>)
    requires AllNewlineFree(a) && AllNewlineFree(seg)
    ensures AllNewlineFree(Splice(a, start, count, seg))
  {
  }

  lemma {:induction false} ChunksNewlineFree(a: seq<string>, start: int, seg: seq<string>, j: nat, size: nat)
    requires size >= 1 && AllNewlineFree(a) && AllNewlineFree(seg)
    ensures AllNewlineFree(InsertChunks(a, start, seg, j, size))
    decreases |seg| - j
  {
    if j < |seg| {
      var chunk := seg[j..Min(j + size, |seg|)];
      SpliceNewlineFree(a, start + j, 0, chunk);
      ChunksNewlineFree(Splice(a, start + j, 0, chunk), start, seg, j + size, size);
    }
  }

  lemma BatchedKeepsLines()
    ensures KeepsLines(Batched())
  {
    forall a, at, count: nat, seg | AllNewlineFree(a) && AllNewlineFree(seg)
      ensures AllNewlineFree(Batched()(a, at, count, seg))
    {
      SpliceNewlineFree(a, at, count, seg);
      SpliceNewlineFree(a, at, count, []);
      ChunksNewlineFree(Splice(a, at, count, []), at, seg, 0, CHUNK_SIZE);
    }
  }

  /** Applying any patch text, well-formed or not, to lines gives lines. */
  lemma ApplyTextNewlineFree(lines: seq<string>, patch: string)
    requires AllNewlineFree(lines)
    ensures AllNewlineFree(ApplyText(lines, patch))
  {
    var hunks := RawText(patch, false);
    RawTextNewlineFree(patch, false);
    forall k | 0 <= k < |hunks| ensures AllNewlineFree(EditsOf(hunks)[k].seg) {
      ContributionsNewlineFree(hunks[k].body);
    }
    BatchedKeepsLines();
    ApplyEditsNewlineFree(Batched(), lines, 0, EditsOf(hunks));
  }
}
