/** The page's older patch applier: it parses all hunks first and splices them in
    afterwards. */
module RestorePatch {
  import opened Lines
  import opened Header
  import opened ArraySplice
  import opened UnifiedDiff
  import opened PatchRows
  import opened PatchEdits
  import SynapticPatch

  // ----- Parsing -----------------------------------------------------------

  /** Rows that the parser takes for file headers, wherever they stand. */
  predicate Skipped(row: string) {
    StartsWith(row, "---") || StartsWith(row, "+++") || StartsWith(row, "index")
  }

  /** The hunk objects made so far, the current one last, and the list of hunks as
      references into them. A row that starts with `@@` but is no header pushes the
      current hunk and leaves it current, so that one object may be listed twice. */
  datatype ParserState = ParserState(objects: seq<RawHunk>, listed: seq<nat>) {
    ghost predicate Valid() {
      forall k :: 0 <= k < |listed| ==> listed[k] < |objects|
    }

    function Push(): ParserState {
      if objects == [] then this else this.(listed := listed + [|objects| - 1])
    }

    function Open(range: Range): ParserState {
      this.(objects := objects + [RawHunk(range, [])])
    }

    function AddRow(row: string): ParserState {
      if objects == [] || Skipped(row) then this
      else
        var last := objects[|objects| - 1];
        this.(objects := objects[|objects| - 1 := last.(body := last.body + [row])])
    }

    function Hunks(): (hunks: seq<RawHunk>)
      requires Valid()
    {
      seq(|listed|, k requires 0 <= k < |listed| => objects[listed[k]])
    }
  }

  function Feed(s: ParserState, row: PatchRow): ParserState {
    match row
    case Head(range) => s.Push().Open(range)
    case Stray(_) => s.Push()
    case Body(text) => s.AddRow(text)
  }

  function FeedAll(s: ParserState, rows: seq<PatchRow>): ParserState
    decreases |rows|
  {
    if rows == [] then s else FeedAll(Feed(s, rows[0]), rows[1..])
  }

  lemma {:induction false} FeedAllValid(s: ParserState, rows: seq<PatchRow>)
    requires s.Valid()
    ensures FeedAll(s, rows).Valid()
    decreases |rows|
  {
    if rows != [] { FeedAllValid(Feed(s, rows[0]), rows[1..]); }
  }

  ghost function ParsedRows(rows: seq<PatchRow>): seq<RawHunk> {
    FeedAllValid(ParserState([], []), rows);
    FeedAll(ParserState([], []), rows).Push().Hunks()
  }

  ghost function ParsedText(patch: string): seq<RawHunk> {
    ParsedRows(ClassifyAll(Split(patch), false))
  }

  lemma FeedStep(s: ParserState, rows: seq<PatchRow>, i: nat)
    requires i < |rows|
    ensures FeedAll(s, rows[i..]) == FeedAll(Feed(s, rows[i]), rows[i + 1..])
  {
    assert rows[i..][1..] == rows[i + 1..];
  }

  lemma FeedOver(s: ParserState, rows: seq<PatchRow>)
    requires rows == []
    ensures FeedAll(s, rows) == s
  {
  }

  method ParseHunks(patch: string) returns (hunks: seq<RawHunk>)
    ensures hunks == ParsedText(patch)
  {
    hide FeedAll;
    var lines := Split(patch);
    var state := ParserState([], []);
    ghost var rows := ClassifyAll(lines, false);
    assert rows[0..] == rows;
    for i := 0 to |lines|
      invariant state.Valid()
      invariant FeedAll(state, rows[i..]) == FeedAll(ParserState([], []), rows)
    {
      var line := lines[i];
      OpensAt(lines, false, i);
      FeedStep(state, rows, i);
      if StartsWith(line, "@@") {
        state := state.Push();
        var m := MatchRow(lines, false, i);
        if m.Some? {
          state := state.Open(m.value);
        }
      } else {
        state := state.AddRow(line);
      }
    }
    FeedOver(state, rows[|lines|..]);
    hunks := state.Push().Hunks();
  }

  // ----- Applying ------------------------------------------------------------

  function Direct(): Replacer {
    (a: seq<string>, start: int, count: nat, seg: seq<string>) => Splice(a, start, count, seg)
  }

  ghost function ApplyText(lines: seq<string>, patch: string): seq<string> {
    ApplyEdits(Direct(), lines, 0, SynapticPatch.EditsOf(ParsedText(patch)))
  }

  method ApplyPatch(lines: seq<string>, patch: string) returns (newLines: seq<string>)
    ensures newLines == ApplyText(lines, patch)
  {
    hide ApplyEdits, ParsedText, SynapticPatch.EditsOf;
    var hunks := ParseHunks(patch);
    newLines := lines;
    var offset := 0;
    assert hunks[0..] == hunks;
    for k := 0 to |hunks|
      invariant ApplyFrom(newLines, offset, hunks[k..]) == ApplyText(lines, patch)
    {
      var hunk := hunks[k];
      var start := hunk.range.oldStart - 1 + offset;
      var newSegment := NewSegment(hunk.body);
      assert hunks[k..] == [hunk] + hunks[k + 1..];
      SynapticPatch.AppliesHead(Direct(), newLines, offset, hunk, hunks[k + 1..]);
      newLines := Splice(newLines, start, hunk.range.oldCount, newSegment);
      offset := offset + (hunk.range.newCount - hunk.range.oldCount);
    }
    NoHunkLeft(newLines, offset, hunks[|hunks|..]);
  }

  function ApplyFrom(out: seq<string>, offset: int, hunks: seq<RawHunk>): seq<string> {
    ApplyEdits(Direct(), out, offset, SynapticPatch.EditsOf(hunks))
  }

  lemma NoHunkLeft(out: seq<string>, offset: int, hunks: seq<RawHunk>)
    requires hunks == []
    ensures ApplyFrom(out, offset, hunks) == out
  {
  }

  /** `lines.filter(l => !l.startsWith("-")).map(l => l.slice(1))` */
  function NewSegment(rows: seq<string>): (segment: seq<string>)
    ensures segment == SynapticPatch.Contributions(rows)
  {
    MapFilterIsContributions(rows);
    MapTail(Filter(rows))
  }

  function Filter(rows: seq<string>): seq<string> {
    if rows == [] then []
    else if StartsWith(rows[0], "-") then Filter(rows[1..])
    else [rows[0]] + Filter(rows[1..])
  }

  function MapTail(rows: seq<string>): seq<string> {
    if rows == [] then [] else [Tail(rows[0])] + MapTail(rows[1..])
  }

  lemma {:induction false} MapFilterIsContributions(rows: seq<string>)
    ensures MapTail(Filter(rows)) == SynapticPatch.Contributions(rows)
  {
    if rows != [] {
      MapFilterIsContributions(rows[1..]);
      if !StartsWith(rows[0], "-") {
        assert Filter(rows)[1..] == Filter(rows[1..]);
      }
    }
  }

  // ----- Printed patches -------------------------------------------------------

  /** Every object listed once, in order, but for the current one. */
  ghost predicate InOrder(s: ParserState) {
    && |s.listed| == (if s.objects == [] then 0 else |s.objects| - 1)
    && forall k :: 0 <= k < |s.listed| ==> s.listed[k] == k
  }

  function Kept(rows: seq<string>): seq<string> {
    if rows == [] then []
    else if Skipped(rows[0]) then Kept(rows[1..])
    else [rows[0]] + Kept(rows[1..])
  }

  lemma {:induction false} FeedBodies(s: ParserState, texts: seq<string>, rest: seq<PatchRow>)
    ensures FeedAll(s, Bodies(texts) + rest) == FeedAll(FeedTexts(s, texts), rest)
    decreases |texts|
  {
    if texts == [] {
      assert Bodies(texts) + rest == rest;
    } else {
      assert (Bodies(texts) + rest)[1..] == Bodies(texts[1..]) + rest;
      FeedBodies(s.AddRow(texts[0]), texts[1..], rest);
    }
  }

  function FeedTexts(s: ParserState, texts: seq<string>): ParserState
    decreases |texts|
  {
    if texts == [] then s else FeedTexts(s.AddRow(texts[0]), texts[1..])
  }

  lemma {:induction false} FeedTextsKept(s: ParserState, texts: seq<string>, earlier: seq<RawHunk>, last: RawHunk)
    requires s.objects == earlier + [last]
    ensures FeedTexts(s, texts) == s.(objects := earlier + [last.(body := last.body + Kept(texts))])
    decreases |texts|
  {
    if texts == [] {
      assert last.body + [] == last.body;
    } else if Skipped(texts[0]) {
      FeedTextsKept(s, texts[1..], earlier, last);
    } else {
      var last' := last.(body := last.body + [texts[0]]);
      assert s.AddRow(texts[0]).objects == earlier + [last'];
      FeedTextsKept(s.AddRow(texts[0]), texts[1..], earlier, last');
      assert last'.body + Kept(texts[1..]) == last.body + Kept(texts);
    }
  }

  lemma {:induction false} FeedTextsNoHunk(s: ParserState, texts: seq<string>)
    requires s.objects == []
    ensures FeedTexts(s, texts) == s
    decreases |texts|
  {
    if texts != [] { FeedTextsNoHunk(s, texts[1..]); }
  }

  function KeptHunks(hunks: seq<Hunk>): seq<RawHunk> {
    if hunks == [] then []
    else [RawHunk(RangeOf(hunks[0]), Kept(PrintRows(hunks[0].rows)))] + KeptHunks(hunks[1..])
  }

  lemma FeedHunk(s: ParserState, range: Range, texts: seq<string>, rest: seq<PatchRow>) returns (s': ParserState)
    requires InOrder(s)
    ensures FeedAll(s, [Head(range)] + Bodies(texts) + rest) == FeedAll(s', rest)
    ensures InOrder(s') && s'.objects == s.objects + [RawHunk(range, Kept(texts))]
  {
    var rows, s1 := [Head(range)] + Bodies(texts) + rest, s.Push().Open(range);
    assert rows[1..] == Bodies(texts) + rest;
    s' := FeedTexts(s1, texts);
    FeedBodies(s1, texts, rest);
    FeedTextsKept(s1, texts, s.objects, RawHunk(range, []));
    assert [] + Kept(texts) == Kept(texts);
  }

  lemma {:induction false} FeedHunks(s: ParserState, hunks: seq<Hunk>)
    requires InOrder(s)
    ensures InOrder(FeedAll(s, HunkRows(hunks)))
    ensures FeedAll(s, HunkRows(hunks)).objects == s.objects + KeptHunks(hunks)
    decreases |hunks|
  {
    if hunks != [] {
      var s' := FeedHunk(s, RangeOf(hunks[0]), PrintRows(hunks[0].rows), HunkRows(hunks[1..]));
      FeedHunks(s', hunks[1..]);
    }
  }

  /** The same with rows behind the hunks, which the last hunk takes in. */
  function KeptWith(hunks: seq<Hunk>, more: seq<string>): seq<RawHunk> {
    if hunks == [] then []
    else
      var rows := Kept(PrintRows(hunks[0].rows));
      if |hunks| == 1 then [RawHunk(RangeOf(hunks[0]), rows + more)]
      else [RawHunk(RangeOf(hunks[0]), rows)] + KeptWith(hunks[1..], more)
  }

  lemma {:induction false} KeptWithLast(hunks: seq<Hunk>, more: seq<string>)
    returns (earlier: seq<RawHunk>, last: RawHunk)
    requires hunks != []
    ensures KeptHunks(hunks) == earlier + [last]
    ensures KeptWith(hunks, more) == earlier + [last.(body := last.body + more)]
  {
    hide Kept, PrintRows, RangeOf;
    var first := RawHunk(RangeOf(hunks[0]), Kept(PrintRows(hunks[0].rows)));
    if |hunks| == 1 {
      assert KeptHunks(hunks[1..]) == [];
      earlier, last := [], first;
    } else {
      earlier, last := KeptWithLast(hunks[1..], more);
      earlier := [first] + earlier;
    }
  }

  lemma {:induction false} KeptWithNothing(hunks: seq<Hunk>)
    ensures KeptWith(hunks, []) == KeptHunks(hunks)
  {
    if hunks != [] {
      KeptWithNothing(hunks[1..]);
      assert Kept(PrintRows(hunks[0].rows)) + [] == Kept(PrintRows(hunks[0].rows));
    }
  }

  lemma {:induction false} FeedConcat(s: ParserState, rows: seq<PatchRow>, rest: seq<PatchRow>)
    ensures FeedAll(s, rows + rest) == FeedAll(FeedAll(s, rows), rest)
    decreases |rows|
  {
    if rows == [] {
      assert rows + rest == rest;
    } else {
      assert (rows + rest)[1..] == rows[1..] + rest;
      FeedConcat(Feed(s, rows[0]), rows[1..], rest);
    }
  }

  lemma PushListsAll(s: ParserState)
    requires InOrder(s)
    ensures s.Push().Valid() && s.Push().Hunks() == s.objects
  {
  }

  lemma FeedPrinted(s: ParserState, hunks: seq<Hunk>, extra: seq<string>)
    requires s == ParserState([], [])
    ensures var s' := FeedAll(s, HunkRows(hunks) + Bodies(extra));
      InOrder(s') && s'.objects == KeptWith(hunks, Kept(extra))
  {
    hide Kept, HunkRows, Bodies, PrintRows;
    FeedHunks(s, hunks);
    var s1 := FeedAll(s, HunkRows(hunks));
    assert s.objects + KeptHunks(hunks) == KeptHunks(hunks);
    FeedConcat(s, HunkRows(hunks), Bodies(extra));
    FeedBodies(s1, extra, []);
    assert Bodies(extra) + [] == Bodies(extra);
    if hunks == [] {
      FeedTextsNoHunk(s1, extra);
    } else {
      var earlier, last := KeptWithLast(hunks, Kept(extra));
      FeedTextsKept(s1, extra, earlier, last);
    }
  }

  /** What the parser makes of a printed patch and the rows around it. */
  lemma ParsesPrintedWith(preamble: seq<string>, hunks: seq<Hunk>, extra: seq<string>)
    requires IsPreamble(preamble) && Printable(hunks) && IsPreamble(extra)
    ensures ParsedText(Join(preamble + PrintHunks(hunks) + extra)) == KeptWith(hunks, Kept(extra))
  {
    hide Kept, PrintRows, PrintHunks, HunkRows;
    var start := ParserState([], []);
    var text := Join(preamble + PrintHunks(hunks) + extra);
    var rows := ClassifyAll(Split(text), false);
    if preamble + PrintHunks(hunks) + extra == [] {
      assert preamble == [] && extra == [] && PrintHunks(hunks) == [];
      NothingPrinted(hunks);
      ClassifyBodies([""], false);
      FeedBodies(start, [""], []);
      assert Bodies([""]) + [] == rows;
      FeedTextsNoHunk(start, [""]);
    } else {
      ClassifyText(preamble, hunks, extra, false);
      FeedBodies(start, preamble, HunkRows(hunks) + Bodies(extra));
      FeedTextsNoHunk(start, preamble);
      FeedPrinted(start, hunks, extra);
    }
    PushListsAll(FeedAll(start, rows));
  }

  lemma NothingPrinted(hunks: seq<Hunk>)
    ensures PrintHunks(hunks) == [] ==> hunks == []
  {
  }

  lemma ParsesPrinted(preamble: seq<string>, hunks: seq<Hunk>)
    requires IsPreamble(preamble) && Printable(hunks)
    ensures ParsedText(PatchText(preamble, hunks)) == KeptHunks(hunks)
  {
    assert preamble + PrintHunks(hunks) + [] == preamble + PrintHunks(hunks);
    ParsesPrintedWith(preamble, hunks, []);
    KeptWithNothing(hunks);
  }

  /** Added lines that, printed, look like the `+++` of a file header. */
  ghost predicate AddsPlusPlus(rows: seq<Row>) {
    exists i :: 0 <= i < |rows| && rows[i].Added? && StartsWith(rows[i].text, "++")
  }

  lemma SkippedPrinted(r: Row)
    ensures Skipped(PrintRow(r)) <==> (r.Added? && StartsWith(r.text, "++")) || (r.Deleted? && StartsWith(r.text, "--"))
  {
    var p := PrintRow(r);
    assert p[1..] == r.text;
    assert StartsWith(p, "---") <==> p[0] == '-' && StartsWith(r.text, "--") by {
      assert "---"[1..] == "--";
    }
    assert StartsWith(p, "+++") <==> p[0] == '+' && StartsWith(r.text, "++") by {
      assert "+++"[1..] == "++";
    }
    assert !StartsWith(p, "index");
  }

  lemma AddsPlusPlusStep(rows: seq<Row>)
    requires rows != []
    ensures AddsPlusPlus(rows) <==> (rows[0].Added? && StartsWith(rows[0].text, "++")) || AddsPlusPlus(rows[1..])
  {
    if AddsPlusPlus(rows[1..]) {
      var i :| 0 <= i < |rows[1..]| && rows[1..][i].Added? && StartsWith(rows[1..][i].text, "++");
      assert rows[i + 1] == rows[1..][i];
    }
    if AddsPlusPlus(rows) {
      var i :| 0 <= i < |rows| && rows[i].Added? && StartsWith(rows[i].text, "++");
      assert i > 0 ==> rows[i] == rows[1..][i - 1];
    }
  }

  lemma KeptStep(rows: seq<Row>)
    requires rows != []
    ensures var r := rows[0];
      var rest := SynapticPatch.Contributions(Kept(PrintRows(rows[1..])));
      var all := SynapticPatch.Contributions(Kept(PrintRows(rows)));
      all == if r.Deleted? || (r.Added? && StartsWith(r.text, "++")) then rest else [r.text] + rest
  {
    var r, p, rest := rows[0], PrintRow(rows[0]), Kept(PrintRows(rows[1..]));
    SkippedPrinted(r);
    assert PrintRows(rows)[1..] == PrintRows(rows[1..]);
    assert ([p] + rest)[1..] == rest;
    assert StartsWith(p, "-") <==> p[0] == '-';
    assert Tail(p) == r.text;
  }

  /** A skipped deletion leaves the new segment alone, a skipped addition does not. */
  lemma {:induction false} KeptContributions(rows: seq<Row>)
    ensures |SynapticPatch.Contributions(Kept(PrintRows(rows)))| <= |NewSide(rows)|
    ensures AddsPlusPlus(rows) ==> |SynapticPatch.Contributions(Kept(PrintRows(rows)))| < |NewSide(rows)|
    ensures !AddsPlusPlus(rows) ==> SynapticPatch.Contributions(Kept(PrintRows(rows))) == NewSide(rows)
  {
    if rows != [] {
      KeptContributions(rows[1..]);
      AddsPlusPlusStep(rows);
      KeptStep(rows);
    }
  }

  lemma DirectReplaces()
    ensures Replaces(Direct())
  {
  }

  lemma KeptEdit(h: Hunk, more: seq<string>)
    requires !AddsPlusPlus(h.rows)
    ensures SynapticPatch.EditOf(RawHunk(RangeOf(h), Kept(PrintRows(h.rows)) + more))
         == MeantHunk(h, SynapticPatch.Contributions(more))
    ensures SynapticPatch.EditOf(RawHunk(RangeOf(h), Kept(PrintRows(h.rows)))) == MeantHunk(h, [])
  {
    hide AddsPlusPlus, NewSide, OldSide, Kept, PrintRows, SynapticPatch.Contributions;
    KeptContributions(h.rows);
    SynapticPatch.ContributionsConcat(Kept(PrintRows(h.rows)), more);
    assert NewSide(h.rows) + [] == NewSide(h.rows);
  }

  lemma {:induction false} KeptEdits(hunks: seq<Hunk>, more: seq<string>)
    requires forall k :: 0 <= k < |hunks| ==> !AddsPlusPlus(hunks[k].rows)
    ensures SynapticPatch.EditsOf(KeptWith(hunks, more)) == Meant(hunks, SynapticPatch.Contributions(more))
  {
    hide AddsPlusPlus, MeantHunk, SynapticPatch.EditOf, Kept, PrintRows, RangeOf, SynapticPatch.Contributions;
    if hunks != [] {
      KeptEdits(hunks[1..], more);
      KeptEdit(hunks[0], more);
      var first := KeptWith(hunks, more)[0];
      assert KeptWith(hunks, more) == [first] + KeptWith(hunks[1..], more);
      SynapticPatch.EditsOfCons(first, KeptWith(hunks[1..], more));
    }
  }

  /** Rows behind the hunks join the last new side, but for those that look like file
      headers; this patch adds no line starting with `++`. */
  lemma AppliesRowsAfterHunks(lines: seq<string>, preamble: seq<string>, hunks: seq<Hunk>, extra: seq<string>)
    requires IsPreamble(preamble) && Printable(hunks) && Fits(lines, 0, hunks) && IsPreamble(extra)
    requires forall k :: 0 <= k < |hunks| ==> !AddsPlusPlus(hunks[k].rows)
    ensures ApplyText(lines, Join(preamble + PrintHunks(hunks) + extra))
         == PatchedAnd(lines, 0, hunks, SynapticPatch.Contributions(Kept(extra)))
  {
    ParsesPrintedWith(preamble, hunks, extra);
    KeptEdits(hunks, Kept(extra));
    DirectReplaces();
    EditsRefinePatched(Direct(), lines, hunks, SynapticPatch.Contributions(Kept(extra)));
  }

  /** They are harmless exactly when they contribute no line, or when there is no hunk. */
  lemma RowsAfterHunksHarmless(lines: seq<string>, preamble: seq<string>, hunks: seq<Hunk>, extra: seq<string>)
    requires IsPreamble(preamble) && Printable(hunks) && Fits(lines, 0, hunks) && IsPreamble(extra)
    requires forall k :: 0 <= k < |hunks| ==> !AddsPlusPlus(hunks[k].rows)
    ensures ApplyText(lines, Join(preamble + PrintHunks(hunks) + extra)) == Patched(lines, hunks)
       <==> hunks == [] || SynapticPatch.Contributions(Kept(extra)) == []
  {
    AppliesRowsAfterHunks(lines, preamble, hunks, extra);
    PatchedLength(lines, 0, hunks, SynapticPatch.Contributions(Kept(extra)));
    PatchedLength(lines, 0, hunks, []);
  }

  /** A final newline and a marker row contribute here what they contribute to the
      newer applier: both appliers make the same of them. */
  lemma {:induction false} TrailerKept(trailer: seq<string>)
    requires Trailer(trailer)
    ensures Kept(trailer) == trailer
  {
    if trailer != [] {
      TrailerKept(trailer[1..]);
      var row := trailer[0];
      assert !Skipped(row) by {
        if row != "" {
          assert "---"[0] != row[0] && "+++"[0] != row[0] && "index"[0] != row[0];
        }
      }
    }
  }

  lemma AgreesOnTrailers(lines: seq<string>, preamble: seq<string>, hunks: seq<Hunk>, trailer: seq<string>)
    requires IsPreamble(preamble) && Printable(hunks) && Fits(lines, 0, hunks)
    requires Trailer(trailer) && AllNewlineFree(trailer)
    requires forall k :: 0 <= k < |hunks| ==> !AddsPlusPlus(hunks[k].rows)
    ensures var text := Join(preamble + PrintHunks(hunks) + trailer);
      && ApplyText(lines, text) == SynapticPatch.ApplyText(lines, text)
      && (ApplyText(lines, text) == Patched(lines, hunks) <==> hunks == [] || trailer == [])
  {
    TrailerKept(trailer);
    TrailerStartsNoHunk(trailer);
    AppliesRowsAfterHunks(lines, preamble, hunks, trailer);
    RowsAfterHunksHarmless(lines, preamble, hunks, trailer);
    SynapticPatch.AppliesRowsAfterHunks(lines, preamble, hunks, trailer);
    TrailerContributes(trailer);
  }

  lemma {:induction false} TrailerContributes(trailer: seq<string>)
    requires Trailer(trailer)
    ensures |SynapticPatch.Contributions(trailer)| == |trailer|
  {
    if trailer != [] {
      TrailerContributes(trailer[1..]);
      if trailer[0] != "" { assert "-"[0] != trailer[0][0]; }
    }
  }

  /** The parser agrees with the meaning of a patch that adds no line starting with
      `++`; deleted lines may be anything. */
  lemma AppliesPatch(lines: seq<string>, preamble: seq<string>, hunks: seq<Hunk>)
    requires IsPreamble(preamble) && Printable(hunks) && Fits(lines, 0, hunks)
    requires forall k :: 0 <= k < |hunks| ==> !AddsPlusPlus(hunks[k].rows)
    ensures ApplyText(lines, PatchText(preamble, hunks)) == Patched(lines, hunks)
  {
    AppliesRowsAfterHunks(lines, preamble, hunks, []);
    assert preamble + PrintHunks(hunks) + [] == preamble + PrintHunks(hunks);
  }

  /** A start inside the array that was meant: when the real array is shorter, the
      splice deletes less and makes good at most all missing lines but one. */
  lemma SpliceFallsShort(out: seq<string>, start: nat, count: nat, seg: seq<string>, meant: nat)
    requires |out| <= meant && start + count < meant
    ensures |out| == meant ==> |Splice(out, start, count, seg)| == meant - count + |seg|
    ensures |out| < meant ==> |Splice(out, start, count, seg)| < meant - count + |seg|
  {
  }

  /** The length of the real array against the `meant` one: never longer, and shorter
      once a line is missing. */
  lemma {:induction false} FallsShort(lines: seq<string>, from: nat, hunks: seq<Hunk>, out: seq<string>, offset: int)
    requires Fits(lines, from, hunks) && KeepsLast(lines, hunks) && from + offset >= 0
    requires |out| <= |lines| + offset
    ensures var short := |ApplyFrom(out, offset, KeptHunks(hunks))| < |lines| + offset + SizeChange(hunks);
      && (|out| < |lines| + offset ==> short)
      && ((exists k :: 0 <= k < |hunks| && AddsPlusPlus(hunks[k].rows)) ==> short)
    ensures |ApplyFrom(out, offset, KeptHunks(hunks))| <= |lines| + offset + SizeChange(hunks)
    decreases |hunks|
  {
    hide AddsPlusPlus, OldSide, NewSide, Kept, PrintRows, Splice;
    if hunks != [] {
      var h, rest := hunks[0], hunks[1..];
      var was := |OldSide(h.rows)|;
      var growth := |NewSide(h.rows)| - was;
      var out' := FirstKept(out, offset, h, rest);
      KeptContributions(h.rows);
      SpliceFallsShort(out, h.oldStart - 1 + offset, was, SynapticPatch.Contributions(Kept(PrintRows(h.rows))),
                       |lines| + offset);
      assert forall k :: 0 < k < |hunks| ==> hunks[k] == rest[k - 1];
      FallsShort(lines, h.oldStart - 1 + was, rest, out', offset + growth);
    }
  }

  lemma FirstKept(out: seq<string>, offset: int, h: Hunk, rest: seq<Hunk>) returns (out': seq<string>)
    requires h.oldStart - 1 + offset >= 0
    ensures out' == Splice(out, h.oldStart - 1 + offset, |OldSide(h.rows)|,
                           SynapticPatch.Contributions(Kept(PrintRows(h.rows))))
    ensures ApplyFrom(out, offset, KeptHunks([h] + rest))
         == ApplyFrom(out', offset + |NewSide(h.rows)| - |OldSide(h.rows)|, KeptHunks(rest))
  {
    hide Splice, Kept, PrintRows, OldSide, NewSide, SynapticPatch.Contributions, ApplyEdits, SynapticPatch.EditsOf;
    var raw := RawHunk(RangeOf(h), Kept(PrintRows(h.rows)));
    var e := SynapticPatch.EditOf(raw);
    assert ([h] + rest)[1..] == rest;
    assert KeptHunks([h] + rest) == [raw] + KeptHunks(rest);
    SynapticPatch.EditsOfCons(raw, KeptHunks(rest));
    ApplyFirst(Direct(), out, offset, e, SynapticPatch.EditsOf(KeptHunks(rest)));
    out' := Direct()(out, e.start - 1 + offset, e.count, e.seg);
  }

  /** Headers decide here as well, and rows that look like file headers are dropped from
      the bodies. */
  lemma HeadersDecide(lines: seq<string>, preamble: seq<string>, first: RawHunk, second: RawHunk)
    requires IsPreamble(preamble) && RawPrintable([first, second])
    ensures var r, r' := first.range, second.range;
      var out := Splice(lines, r.oldStart - 1, r.oldCount, SynapticPatch.Contributions(Kept(first.body)));
      ApplyText(lines, Join(preamble + PrintRaws([first, second])))
      == Splice(out, r'.oldStart - 1 + (r.newCount - r.oldCount), r'.oldCount,
                SynapticPatch.Contributions(Kept(second.body)))
  {
    hide Splice, Kept, SynapticPatch.Contributions, Join, PrintRaws, ParsedText;
    ParsesTwo(preamble, first, second);
    var h, h' := RawHunk(first.range, Kept(first.body)), RawHunk(second.range, Kept(second.body));
    assert [h] + [h'] == [h, h'] && [h'] + [] == [h'];
    SynapticPatch.AppliesHead(Direct(), lines, 0, h, [h']);
    var e := SynapticPatch.EditOf(h);
    SynapticPatch.AppliesHead(Direct(), Direct()(lines, e.start - 1, e.count, e.seg), e.growth, h', []);
  }

  lemma ParsesTwo(preamble: seq<string>, first: RawHunk, second: RawHunk)
    requires IsPreamble(preamble) && RawPrintable([first, second])
    ensures ParsedText(Join(preamble + PrintRaws([first, second])))
         == [RawHunk(first.range, Kept(first.body)), RawHunk(second.range, Kept(second.body))]
  {
    hide Kept, Join, PrintRaws, Split, ClassifyAll, Bodies, FeedTexts;
    var start := ParserState([], []);
    RawOfRaws(preamble, [first, second], false);
    assert [first, second][1..] == [second] && [second][1..] == [];
    var rest := RawRows([second]);
    var none: seq<RawHunk> := [];
    assert RawRows(none) == [] && [second][1..] == none;
    assert rest == [Head(second.range)] + Bodies(second.body) + [];
    FeedBodies(start, preamble, RawRows([first, second]));
    FeedTextsNoHunk(start, preamble);
    var s1 := FeedHunk(start, first.range, first.body, rest);
    var s2 := FeedHunk(s1, second.range, second.body, []);
    FeedOver(s2, []);
    PushListsAll(s2);
  }

  /** The expression for headers has no anchor here either. */
  lemma OddHeaderCounts(lines: seq<string>, preamble: seq<string>, h: Hunk)
    requires IsPreamble(preamble) && Printable([h]) && Fits(lines, 0, [h]) && !AddsPlusPlus(h.rows)
    ensures ApplyText(lines, OddPatch(preamble, h)) == Patched(lines, [h])
  {
    hide ClassifyAll, Split, OddPatch;
    RawOfOdd(preamble, h);
    AppliesPatch(lines, preamble, [h]);
  }

  /** Of the header rows of a second file, only the one that starts with `diff --git`
      enters the document, without its first character. */
  lemma NextFileEnters(lines: seq<string>, preamble: seq<string>, hunks: seq<Hunk>,
                       names: string, index: string, oldName: string, newName: string)
    requires IsPreamble(preamble) && Printable(hunks) && Fits(lines, 0, hunks)
    requires NewlineFree(names) && NewlineFree(index) && NewlineFree(oldName) && NewlineFree(newName)
    requires forall k :: 0 <= k < |hunks| ==> !AddsPlusPlus(hunks[k].rows)
    ensures ApplyText(lines, Join(preamble + PrintHunks(hunks)
              + ["diff --git" + names, "index " + index, "--- " + oldName, "+++ " + newName]))
         == PatchedAnd(lines, 0, hunks, ["iff --git" + names])
  {
    hide Join, PrintHunks, Printable, Fits, ApplyText, PatchedAnd, AddsPlusPlus;
    SynapticPatch.NextFileRows(names, index, oldName, newName);
    NextFileKept(names, index, oldName, newName);
    AppliesRowsAfterHunks(lines, preamble, hunks,
                          ["diff --git" + names, "index " + index, "--- " + oldName, "+++ " + newName]);
  }

  lemma NextFileKept(names: string, index: string, oldName: string, newName: string)
    ensures var d := "diff --git" + names;
      var kept := Kept([d, "index " + index, "--- " + oldName, "+++ " + newName]);
      kept == [d] && SynapticPatch.Contributions(kept) == ["iff --git" + names]
  {
    var d, i, o, n := "diff --git" + names, "index " + index, "--- " + oldName, "+++ " + newName;
    assert StartsWith(i, "index") && StartsWith(o, "---") && StartsWith(n, "+++");
    assert d[0] == 'd' && "---"[0] == '-' && "+++"[0] == '+' && "index"[0] == 'i' && "-"[0] == '-';
    var last: seq<string> := [n];
    assert last[1..] == [];
    assert Kept(last) == [];
    assert [o, n][1..] == [n] && [i, o, n][1..] == [o, n] && [d, i, o, n][1..] == [i, o, n];
    assert Kept([o, n]) == [] && Kept([i, o, n]) == [];
    assert "diff --git"[1..] == "iff --git" && d[1..] == "iff --git" + names;
    var first: seq<string> := [d];
    assert first[1..] == [];
  }

  /** A row that starts with `@@` and is no header lists the current hunk once more and
      leaves it current: the last hunk, with any rows that follow, is applied twice. */
  lemma StrayRepeatsHunk(preamble: seq<string>, hunks: seq<Hunk>, stray: string, tail: seq<string>)
    requires IsPreamble(preamble) && Printable(hunks) && IsStray(stray, false) && IsPreamble(tail)
    ensures var parsed := ParsedText(Join(preamble + PrintHunks(hunks) + ([stray] + tail)));
      var once := KeptWith(hunks, Kept(tail));
      parsed == if hunks == [] then [] else once + [once[|once| - 1]]
  {
    hide Kept, PrintRows, PrintHunks, HunkRows, ClassifyAll, Join, Split;
    var start := ParserState([], []);
    var rest := [Stray(stray)] + Bodies(tail);
    ClassifyThenStray(preamble, hunks, stray, tail, false);
    FeedBodies(start, preamble, HunkRows(hunks) + rest);
    FeedTextsNoHunk(start, preamble);
    FeedConcat(start, HunkRows(hunks), rest);
    FeedHunks(start, hunks);
    assert start.objects + KeptHunks(hunks) == KeptHunks(hunks);
    FeedStray(FeedAll(start, HunkRows(hunks)), hunks, stray, tail);
  }

  lemma FeedStray(s: ParserState, hunks: seq<Hunk>, stray: string, tail: seq<string>)
    requires InOrder(s) && s.objects == KeptHunks(hunks)
    ensures var s' := FeedAll(s, [Stray(stray)] + Bodies(tail)).Push();
      var once := KeptWith(hunks, Kept(tail));
      s'.Valid() && s'.Hunks() == if hunks == [] then [] else once + [once[|once| - 1]]
  {
    hide Kept, PrintRows, KeptHunks, KeptWith;
    var s1 := s.Push();
    var rows := [Stray(stray)] + Bodies(tail);
    assert rows[1..] == Bodies(tail) + [];
    FeedBodies(s1, tail, []);
    KeptNothing(hunks, Kept(tail));
    if hunks == [] {
      FeedTextsNoHunk(s1, tail);
    } else {
      var earlier, last := KeptWithLast(hunks, Kept(tail));
      FeedTextsKept(s1, tail, earlier, last);
      var s2 := FeedTexts(s1, tail);
      assert |s2.listed| == |s2.objects| && forall k :: 0 <= k < |s2.listed| ==> s2.listed[k] == k;
    }
  }

  lemma KeptNothing(hunks: seq<Hunk>, more: seq<string>)
    ensures |KeptHunks(hunks)| == |KeptWith(hunks, more)| && (hunks == [] <==> KeptHunks(hunks) == [])
  {
    if hunks != [] { var earlier, last := KeptWithLast(hunks, more); }
  }

  lemma {:induction false} HarmlessMore(hunks: seq<Hunk>, more: seq<string>)
    requires SynapticPatch.Contributions(more) == []
    ensures SynapticPatch.EditsOf(KeptWith(hunks, more)) == SynapticPatch.EditsOf(KeptHunks(hunks))
  {
    hide Kept, PrintRows, RangeOf, SynapticPatch.Contributions;
    if hunks != [] {
      HarmlessMore(hunks[1..], more);
      var rows := Kept(PrintRows(hunks[0].rows));
      var first, plain := KeptWith(hunks, more)[0], RawHunk(RangeOf(hunks[0]), rows);
      SynapticPatch.ContributionsConcat(rows, more);
      assert SynapticPatch.EditOf(first) == SynapticPatch.EditOf(plain);
      assert KeptWith(hunks, more) == [first] + KeptWith(hunks[1..], more);
      SynapticPatch.EditsOfCons(first, KeptWith(hunks[1..], more));
      SynapticPatch.EditsOfCons(plain, KeptHunks(hunks[1..]));
    }
  }

  /** That is also the exact condition, for every patch that leaves the last line
      alone, whatever harmless rows follow it: a lost addition makes the document
      shorter, and no later hunk, gone astray or not, makes good for it. */
  lemma AppliesExactly(lines: seq<string>, preamble: seq<string>, hunks: seq<Hunk>, extra: seq<string>)
    requires IsPreamble(preamble) && Printable(hunks) && Fits(lines, 0, hunks) && KeepsLast(lines, hunks)
    requires IsPreamble(extra) && SynapticPatch.Contributions(Kept(extra)) == []
    ensures ApplyText(lines, Join(preamble + PrintHunks(hunks) + extra)) == Patched(lines, hunks)
       <==> forall k :: 0 <= k < |hunks| ==> !AddsPlusPlus(hunks[k].rows)
  {
    hide AddsPlusPlus;
    if forall k :: 0 <= k < |hunks| ==> !AddsPlusPlus(hunks[k].rows) {
      RowsAfterHunksHarmless(lines, preamble, hunks, extra);
    } else {
      ParsesPrintedWith(preamble, hunks, extra);
      HarmlessMore(hunks, Kept(extra));
      PatchedLength(lines, 0, hunks, []);
      FallsShort(lines, 0, hunks, lines, 0);
    }
  }

  /** A final newline can make good for a lost addition as well, even where the patch
      leaves the last line alone: the blank line stands in for the last one, which the
      hunk gone astray has replaced. */
  lemma NewlineMakesGood() returns (lines: seq<string>, hunks: seq<Hunk>)
    ensures Printable(hunks) && Fits(lines, 0, hunks) && KeepsLast(lines, hunks)
    ensures |hunks| == 2 && AddsPlusPlus(hunks[0].rows)
    ensures ApplyText(lines, Join([] + PrintHunks(hunks) + [""])) == Patched(lines, hunks)
  {
    hide PrintHunks, ParsedText, ApplyEdits, Patched, Fits, KeptWith, Kept, SynapticPatch.EditsOf;
    lines := ["a", "++c", ""];
    var first := Hunk(1, 1, [Context("a"), Added("++c")], false, "");
    var second := Hunk(2, 3, [Deleted("++c"), Added("x")], false, "");
    hunks := [first, second];
    assert first.rows[1].Added? && StartsWith(first.rows[1].text, "++");
    Sides();
    SidesOfChange();
    MeantWithNewline(lines, first, second);
    LosesAddition();
    KeepsChange();
    assert IsPreamble([]) && IsPreamble([""]);
    ParsesPrintedWith([], hunks, [""]);
    KeptBlank();
    AstrayWithNewline("a", "++c", "x", first, second);
  }

  lemma SidesOfChange()
    ensures OldSide([Deleted("++c"), Added("x")]) == ["++c"] && NewSide([Deleted("++c"), Added("x")]) == ["x"]
  {
    assert [Deleted("++c"), Added("x")][1..] == [Added("x")] && [Added("x")][1..] == [];
  }

  lemma KeepsChange()
    ensures SynapticPatch.Contributions(Kept(PrintRows([Deleted("++c"), Added("x")]))) == ["x"]
  {
    KeptStep([Deleted("++c"), Added("x")]);
    assert [Deleted("++c"), Added("x")][1..] == [Added("x")];
    KeptStep([Added("x")]);
    assert [Added("x")][1..] == [];
  }

  lemma KeptBlank()
    ensures Kept([""]) == [""] && SynapticPatch.Contributions([""]) == [""]
  {
  }

  lemma MeantWithNewline(lines: seq<string>, first: Hunk, second: Hunk)
    requires lines == ["a", "++c", ""] && first.oldStart == 1 && second.oldStart == 2
    requires OldSide(first.rows) == ["a"] && NewSide(first.rows) == ["a", "++c"]
    requires OldSide(second.rows) == ["++c"] && NewSide(second.rows) == ["x"]
    ensures Fits(lines, 0, [first, second]) && Patched(lines, [first, second]) == ["a", "++c", "x", ""]
  {
    hide OldSide, NewSide;
    assert [first, second][1..] == [second] && [second][1..] == [];
    assert lines[0..1] == ["a"] && lines[1..2] == ["++c"] && lines[2..] == [""];
    assert Fits(lines, 2, []) && Fits(lines, 1, [second]);
    assert NewSide(second.rows) + [] == ["x"];
    assert PatchedAnd(lines, 1, [second], []) == ["x", ""];
  }

  lemma AstrayWithNewline(a: string, x: string, y: string, first: Hunk, second: Hunk)
    requires first.oldStart == 1 && second.oldStart == 2
    requires |OldSide(first.rows)| == 1 && |NewSide(first.rows)| == 2
    requires |OldSide(second.rows)| == 1 && |NewSide(second.rows)| == 1
    requires SynapticPatch.Contributions(Kept(PrintRows(first.rows))) == [a]
    requires SynapticPatch.Contributions(Kept(PrintRows(second.rows))) == [y]
    requires SynapticPatch.Contributions([""]) == [""]
    ensures ApplyFrom([a, x, ""], 0, KeptWith([first, second], [""])) == [a, x, y, ""]
  {
    hide OldSide, NewSide, Splice, SynapticPatch.Contributions, Kept, PrintRows, ApplyEdits;
    var raw := RawHunk(RangeOf(first), Kept(PrintRows(first.rows)));
    var raw' := RawHunk(RangeOf(second), Kept(PrintRows(second.rows)) + [""]);
    assert [first, second][1..] == [second] && KeptWith([first, second], [""]) == [raw] + [raw'];
    SynapticPatch.ContributionsConcat(Kept(PrintRows(second.rows)), [""]);
    SynapticPatch.AppliesHead(Direct(), [a, x, ""], 0, raw, [raw']);
    assert [raw'] == [raw'] + [];
    TwoSplicesWithNewline(a, x, y);
    SynapticPatch.AppliesHead(Direct(), [a, x, ""], 1, raw', []);
    NoHunkLeft([a, x, y, ""], 1, []);
  }

  lemma TwoSplicesWithNewline(a: string, x: string, y: string)
    ensures Splice([a, x, ""], 0, 1, [a]) == [a, x, ""] && Splice([a, x, ""], 2, 1, [y] + [""]) == [a, x, y, ""]
  {
  }

  /** A hunk that reaches the last line can make good for a lost addition by accident:
      the deletion that goes astray then finds nothing to delete. */
  lemma LastLineMakesGood() returns (lines: seq<string>, hunks: seq<Hunk>)
    ensures Printable(hunks) && Fits(lines, 0, hunks) && !KeepsLast(lines, hunks)
    ensures |hunks| == 2 && AddsPlusPlus(hunks[0].rows)
    ensures ApplyText(lines, PatchText([], hunks)) == Patched(lines, hunks)
  {
    hide PrintHunks, ParsedText, ApplyText, Patched, Fits;
    lines := ["a", "++c"];
    var first := Hunk(1, 1, [Context("a"), Added("++c")], false, "");
    var second := Hunk(2, 3, [Context("++c")], false, "");
    hunks := [first, second];
    assert first.rows[1].Added? && StartsWith(first.rows[1].text, "++");
    Sides();
    MeantByBoth(lines, first, second);
    AppliesBoth(lines, first, second);
    assert hunks[1].oldStart - 1 + |OldSide(hunks[1].rows)| == |lines|;
  }

  lemma Sides()
    ensures OldSide([Context("a"), Added("++c")]) == ["a"] && NewSide([Context("a"), Added("++c")]) == ["a", "++c"]
    ensures OldSide([Context("++c")]) == ["++c"] == NewSide([Context("++c")])
  {
    assert [Context("a"), Added("++c")][1..] == [Added("++c")];
    assert [Added("++c")][1..] == [] && [Context("++c")][1..] == [];
  }

  lemma MeantByBoth(lines: seq<string>, first: Hunk, second: Hunk)
    requires lines == ["a", "++c"] && first.oldStart == 1 && second.oldStart == 2
    requires OldSide(first.rows) == ["a"] && NewSide(first.rows) == ["a", "++c"]
    requires OldSide(second.rows) == ["++c"] == NewSide(second.rows)
    ensures Fits(lines, 0, [first, second]) && Patched(lines, [first, second]) == ["a", "++c", "++c"]
  {
    hide OldSide, NewSide;
    assert [first, second][1..] == [second] && [second][1..] == [];
    assert lines[0..1] == ["a"] && lines[1..2] == ["++c"] && lines[2..] == [];
    assert Fits(lines, 2, []) && Fits(lines, 1, [second]);
    assert NewSide(second.rows) + [] == ["++c"];
    assert PatchedAnd(lines, 1, [second], []) == ["++c"];
  }

  lemma AppliesBoth(lines: seq<string>, first: Hunk, second: Hunk)
    requires lines == ["a", "++c"] && first.oldStart == 1 && second.oldStart == 2
    requires first.rows == [Context("a"), Added("++c")] && second.rows == [Context("++c")]
    requires Printable([first, second])
    ensures ApplyText(lines, PatchText([], [first, second])) == ["a", "++c", "++c"]
  {
    hide PrintHunks, ParsedText, OldSide, NewSide, Printable, Splice, SynapticPatch.Contributions, Kept, PrintRows;
    assert IsPreamble([]);
    Sides();
    LosesAddition();
    KeepsContext();
    ParsesPrinted([], [first, second]);
    GoesAstray("a", "++c", first, second);
  }

  /** The first hunk loses the line `x` it adds; the second then starts behind the end. */
  lemma GoesAstray(a: string, x: string, first: Hunk, second: Hunk)
    requires first.oldStart == 1 && second.oldStart == 2
    requires |OldSide(first.rows)| == 1 && |NewSide(first.rows)| == 2 && |OldSide(second.rows)| == 1
    requires SynapticPatch.Contributions(Kept(PrintRows(first.rows))) == [a]
    requires SynapticPatch.Contributions(Kept(PrintRows(second.rows))) == [x]
    ensures ApplyFrom([a, x], 0, KeptHunks([first, second])) == [a, x, x]
  {
    hide ApplyFrom, KeptHunks, OldSide, NewSide, Splice, SynapticPatch.Contributions, Kept, PrintRows;
    assert [first] + [second] == [first, second] && [second] + [] == [second];
    TwoSplices(a, x);
    var out := FirstKept([a, x], 0, first, [second]);
    var out' := FirstKept(out, 1, second, []);
    NoneKept();
    NoHunkLeft(out', 1 + |NewSide(second.rows)| - 1, KeptHunks([]));
  }

  lemma TwoSplices(a: string, x: string)
    ensures Splice([a, x], 0, 1, [a]) == [a, x] && Splice([a, x], 2, 1, [x]) == [a, x, x]
  {
  }

  lemma NoneKept()
    ensures KeptHunks([]) == []
  {
  }

  lemma LosesAddition()
    ensures SynapticPatch.Contributions(Kept(PrintRows([Context("a"), Added("++c")]))) == ["a"]
  {
    var rows := [Context("a"), Added("++c")];
    KeptStep(rows);
    assert rows[1..] == [Added("++c")];
    KeptStep(rows[1..]);
    assert rows[1..][1..] == [];
  }

  lemma KeepsContext()
    ensures SynapticPatch.Contributions(Kept(PrintRows([Context("++c")]))) == ["++c"]
  {
    KeptStep([Context("++c")]);
    assert [Context("++c")][1..] == [];
  }

  /** For one hunk the condition is exact at the last line as well. */
  lemma AppliesOneHunk(lines: seq<string>, preamble: seq<string>, h: Hunk)
    requires IsPreamble(preamble) && Printable([h]) && Fits(lines, 0, [h])
    ensures ApplyText(lines, PatchText(preamble, [h])) == Patched(lines, [h]) <==> !AddsPlusPlus(h.rows)
  {
    if !AddsPlusPlus(h.rows) {
      AppliesPatch(lines, preamble, [h]);
    } else {
      var raw := RawHunk(RangeOf(h), Kept(PrintRows(h.rows)));
      ParsesPrinted(preamble, [h]);
      KeptContributions(h.rows);
      PatchedLength(lines, 0, [h], []);
      assert KeptHunks([h][1..]) == [] && KeptHunks([h]) == [raw];
      ApplyFirst(Direct(), lines, 0, SynapticPatch.EditOf(raw), []);
      SynapticPatch.EditsOfCons(raw, []);
      assert [raw] + [] == [raw];
      assert SizeChange([h]) == |NewSide(h.rows)| - |OldSide(h.rows)|;
    }
  }
}
