/** The worker's patch applier: anchored headers, and a cursor that walks the rows
    of a hunk to find out how many lines it replaces. */
module WorkerPatch {
  import opened Lines
  import opened Header
  import opened ArraySplice
  import opened UnifiedDiff
  import opened PatchRows
  import opened PatchEdits
  import RestorePatch
  import SynapticPatch

  // ----- Parsing -----------------------------------------------------------

  predicate SkippedRow(row: string) {
    StartsWith(row, "index ") || StartsWith(row, "---") || StartsWith(row, "+++")
  }

  /** The rows of a hunk: those of its body up to the header of the next file,
      without rows that look like file headers. */
  function HunkLines(body: seq<string>): seq<string> {
    if body == [] || StartsWith(body[0], "diff --git") then []
    else if SkippedRow(body[0]) then HunkLines(body[1..])
    else [body[0]] + HunkLines(body[1..])
  }

  function WorkerHunk(h: RawHunk): RawHunk {
    h.(body := HunkLines(h.body))
  }

  function WorkerHunks(hunks: seq<RawHunk>): seq<RawHunk> {
    if hunks == [] then [] else [WorkerHunk(hunks[0])] + WorkerHunks(hunks[1..])
  }

  function ParsedText(patch: string): seq<RawHunk> {
    WorkerHunks(RawText(patch, true))
  }

  /** The rows from `i` on; the outer index may step over the end by one. */
  function From(rows: seq<PatchRow>, i: nat): seq<PatchRow> {
    if i <= |rows| then rows[i..] else []
  }

  lemma WorkerHunksCons(first: RawHunk, rest: seq<RawHunk>)
    ensures WorkerHunks([first] + rest) == [WorkerHunk(first)] + WorkerHunks(rest)
  {
    assert ([first] + rest)[1..] == rest;
  }

  /** The hunks found so far, followed by those of the rows left, are all hunks. */
  ghost predicate Collected(hunks: seq<RawHunk>, rowsLeft: seq<PatchRow>, rows: seq<PatchRow>) {
    hunks + WorkerHunks(RawHunks(rowsLeft)) == WorkerHunks(RawHunks(rows))
  }

  method ParseUnifiedHunks(patch: string) returns (hunks: seq<RawHunk>)
    ensures hunks == ParsedText(patch)
  {
    hide RawHunks, WorkerHunks, LeadingBody, HunkLines, ClassifyAll, Split, Collected, From;
    var lines := Split(patch);
    ghost var rows := ClassifyAll(lines, true);
    hunks := [];
    var i := 0;
    NothingCollected(rows);
    while i < |lines|
      invariant i <= |lines| + 1
      invariant Collected(hunks, From(rows, i), rows)
      decreases |lines| - i
    {
      var line := lines[i];
      OpensAt(lines, true, i);
      ghost var head := i;
      if StartsWith(line, "@@") {
        var m := MatchRow(lines, true, i);
        if m.Some? {
          var hunkLines;
          hunkLines, i := CollectHunk(lines, i + 1);
          CollectedOneMore(hunks, rows, head, From(rows, i + 1));
          hunks := hunks + [RawHunk(m.value, hunkLines)];
        } else {
          CollectedSkip(hunks, rows, head);
        }
      } else {
        CollectedSkip(hunks, rows, head);
      }
      i := i + 1;
    }
    AllCollected(hunks, rows, i);
  }

  lemma NothingCollected(rows: seq<PatchRow>)
    ensures Collected([], From(rows, 0), rows)
  {
    assert From(rows, 0) == rows;
  }

  lemma AllCollected(hunks: seq<RawHunk>, rows: seq<PatchRow>, i: nat)
    requires i >= |rows| && Collected(hunks, From(rows, i), rows)
    ensures hunks == WorkerHunks(RawHunks(rows))
  {
    assert From(rows, i) == [];
  }

  lemma CollectedSkip(hunks: seq<RawHunk>, rows: seq<PatchRow>, i: nat)
    requires i < |rows| && !rows[i].Head? && Collected(hunks, From(rows, i), rows)
    ensures Collected(hunks, From(rows, i + 1), rows)
  {
    RawStep(rows, i);
  }

  lemma CollectedOneMore(hunks: seq<RawHunk>, rows: seq<PatchRow>, i: nat, rowsLeft: seq<PatchRow>)
    requires i < |rows| && rows[i].Head? && Collected(hunks, From(rows, i), rows)
    requires RawHunks(rowsLeft) == RawHunks(rows[i + 1..])
    ensures Collected(hunks + [RawHunk(rows[i].range, HunkLines(LeadingBody(rows[i + 1..])))], rowsLeft, rows)
  {
    RawStep(rows, i);
    WorkerHunksCons(RawHunk(rows[i].range, LeadingBody(rows[i + 1..])), RawHunks(rowsLeft));
  }

  /** The inner loop. It ends in front of the next `@@` row, on the header row of
      the next file, or behind the last row. */
  method CollectHunk(lines: seq<string>, first: nat) returns (hunkLines: seq<string>, i: nat)
    requires 1 <= first <= |lines|
    ensures first - 1 <= i <= |lines|
    ensures var rows := ClassifyAll(lines, true);
      && hunkLines == HunkLines(LeadingBody(rows[first..]))
      && RawHunks(From(rows, i + 1)) == RawHunks(rows[first..])
  {
    hide RawHunks, LeadingBody, HunkLines, ClassifyAll;
    ghost var rows := ClassifyAll(lines, true);
    ghost var whole := HunkLines(LeadingBody(rows[first..]));
    hunkLines := [];
    i := first;
    while i < |lines|
      invariant first <= i <= |lines|
      invariant hunkLines + HunkLines(LeadingBody(rows[i..])) == whole
      invariant RawHunks(rows[i..]) == RawHunks(rows[first..])
    {
      var l := lines[i];
      OpensAt(lines, true, i);
      RawStep(rows, i);
      HunkLinesStep(l, rows[i..], rows[i + 1..]);
      if StartsWith(l, "@@") {
        return hunkLines, i - 1;
      }
      if StartsWith(l, "diff --git") {
        return hunkLines, i;
      }
      if StartsWith(l, "index ") || StartsWith(l, "---") || StartsWith(l, "+++") {
        i := i + 1;
      } else {
        hunkLines := hunkLines + [l];
        i := i + 1;
      }
    }
    HunkLinesEnd(rows[i..]);
  }

  lemma HunkLinesStep(l: string, rows: seq<PatchRow>, rest: seq<PatchRow>)
    requires LeadingBody(rows) == [] || LeadingBody(rows) == [l] + LeadingBody(rest)
    ensures var body := HunkLines(LeadingBody(rows));
      && (LeadingBody(rows) == [] ==> body == [])
      && (LeadingBody(rows) != [] && StartsWith(l, "diff --git") ==> body == [])
      && (LeadingBody(rows) != [] && !StartsWith(l, "diff --git") ==>
            body == if SkippedRow(l) then HunkLines(LeadingBody(rest)) else [l] + HunkLines(LeadingBody(rest)))
  {
    assert ([l] + LeadingBody(rest))[1..] == LeadingBody(rest);
  }

  lemma HunkLinesEnd(rows: seq<PatchRow>)
    requires rows == []
    ensures HunkLines(LeadingBody(rows)) == [] && RawHunks(rows) == []
  {
  }

  // ----- Applying ------------------------------------------------------------

  /** The lines that a hunk puts in, and how many lines its cursor passes. */
  function Next(rows: seq<string>): seq<string> {
    if rows == [] then []
    else if rows[0] != "" && (rows[0][0] == ' ' || rows[0][0] == '+') then [rows[0][1..]] + Next(rows[1..])
    else Next(rows[1..])
  }

  function Passed(rows: seq<string>): nat {
    if rows == [] then 0
    else (if rows[0] != "" && (rows[0][0] == ' ' || rows[0][0] == '-') then 1 else 0) + Passed(rows[1..])
  }

  function EditOf(h: RawHunk): Edit {
    Edit(h.range.oldStart, Passed(h.body), Next(h.body), |Next(h.body)| - Passed(h.body))
  }

  function EditsOf(hunks: seq<RawHunk>): seq<Edit> {
    if hunks == [] then [] else [EditOf(hunks[0])] + EditsOf(hunks[1..])
  }

  function Clamp(length: nat, start: int): nat {
    Max(0, Min(length, start))
  }

  /** The start is clamped into the array before the splice. */
  function Clamping(): Replacer {
    (a: seq<string>, start: int, count: nat, seg: seq<string>) => Splice(a, Clamp(|a|, start), count, seg)
  }

  function ApplyText(lines: seq<string>, patch: string): seq<string> {
    ApplyFrom(lines, 0, ParsedText(patch))
  }

  function ApplyFrom(out: seq<string>, offset: int, hunks: seq<RawHunk>): seq<string> {
    ApplyEdits(Clamping(), out, offset, EditsOf(hunks))
  }

  lemma ApplyFromFirst(out: seq<string>, offset: int, h: RawHunk, rest: seq<RawHunk>)
    ensures var e := EditOf(h);
      ApplyFrom(out, offset, [h] + rest)
      == ApplyFrom(Clamping()(out, e.start - 1 + offset, e.count, e.seg), offset + e.growth, rest)
  {
    assert ([h] + rest)[1..] == rest;
    ApplyFirst(Clamping(), out, offset, EditOf(h), EditsOf(rest));
  }

  lemma NoHunkLeft(out: seq<string>, offset: int, hunks: seq<RawHunk>)
    requires hunks == []
    ensures ApplyFrom(out, offset, hunks) == out
  {
  }

  method ApplyPatchLines(prevLines: seq<string>, patch: string) returns (out: seq<string>)
    ensures out == ApplyText(prevLines, patch)
  {
    hide ApplyEdits, EditsOf, ParsedText;
    var hunks := ParseUnifiedHunks(patch);
    out := prevLines;
    var offset := 0;
    assert hunks[0..] == hunks;
    for k := 0 to |hunks|
      invariant ApplyFrom(out, offset, hunks[k..]) == ApplyText(prevLines, patch)
    {
      var h := hunks[k];
      var at := Clamp(|out|, (h.range.oldStart - 1) + offset);
      assert hunks[k..] == [h] + hunks[k + 1..];
      ApplyFromFirst(out, offset, h, hunks[k + 1..]);
      var next, cursor := WalkRows(h.body, at);
      out := Splice(out, at, cursor - at, next);
      offset := offset + (|next| - (cursor - at));
    }
    NoHunkLeft(out, offset, hunks[|hunks|..]);
  }

  method WalkRows(rows: seq<string>, at: nat) returns (next: seq<string>, cursor: nat)
    ensures next == Next(rows) && cursor == at + Passed(rows)
  {
    hide Next, Passed;
    next, cursor := [], at;
    assert rows[0..] == rows;
    for k := 0 to |rows|
      invariant next + Next(rows[k..]) == Next(rows)
      invariant cursor + Passed(rows[k..]) == at + Passed(rows)
    {
      var hl := rows[k];
      WalkStep(rows[k..], hl, rows[k + 1..]);
      if hl != "" {
        var p, content := hl[0], hl[1..];
        if p == ' ' {
          next := next + [content];
          cursor := cursor + 1;
        } else if p == '-' {
          cursor := cursor + 1;
        } else if p == '+' {
          next := next + [content];
        }
      }
    }
    WalkOver(rows[|rows|..]);
  }

  lemma WalkStep(rows: seq<string>, row: string, rest: seq<string>)
    requires rows == [row] + rest
    ensures Next(rows) == if row != "" && (row[0] == ' ' || row[0] == '+') then [row[1..]] + Next(rest) else Next(rest)
    ensures Passed(rows) == (if row != "" && (row[0] == ' ' || row[0] == '-') then 1 else 0) + Passed(rest)
  {
    assert rows[1..] == rest;
  }

  lemma WalkOver(rows: seq<string>)
    requires rows == []
    ensures Next(rows) == [] && Passed(rows) == 0
  {
  }

  // ----- Printed patches -------------------------------------------------------

  ghost predicate DeletesDashes(rows: seq<Row>) {
    exists i :: 0 <= i < |rows| && rows[i].Deleted? && StartsWith(rows[i].text, "--")
  }

  /** No body row, printed, looks like a file header. */
  ghost predicate NoFileHeaders(hunks: seq<Hunk>) {
    forall k :: 0 <= k < |hunks| ==> !DeletesDashes(hunks[k].rows) && !RestorePatch.AddsPlusPlus(hunks[k].rows)
  }

  /** Printed, the row looks like a file header, and the worker passes over it. */
  predicate LooksLikeHeader(r: Row) {
    (r.Added? && StartsWith(r.text, "++")) || (r.Deleted? && StartsWith(r.text, "--"))
  }

  /** The rows that the worker does not pass over. */
  function Walked(rows: seq<Row>): (walked: seq<Row>)
    ensures |OldSide(walked)| <= |OldSide(rows)|
  {
    if rows == [] then []
    else if LooksLikeHeader(rows[0]) then Walked(rows[1..])
    else [rows[0]] + Walked(rows[1..])
  }

  /** What the worker makes of the old range of a hunk: the new side of the rows it
      walks, then the old lines that its cursor has not passed. */
  function Segment(rows: seq<Row>): seq<string> {
    NewSide(Walked(rows)) + OldSide(rows)[|OldSide(Walked(rows))|..]
  }

  /** All old ranges replaced at once by these segments. */
  ghost function WorkerPatched(lines: seq<string>, from: nat, hunks: seq<Hunk>): seq<string>
    requires from <= |lines| && Fits(lines, from, hunks)
    decreases |hunks|
  {
    if hunks == [] then lines[from..]
    else
      var h := hunks[0];
      var end := h.oldStart - 1 + |OldSide(h.rows)|;
      lines[from..h.oldStart - 1] + Segment(h.rows) + WorkerPatched(lines, end, hunks[1..])
  }

  lemma SkippedPrinted(r: Row)
    ensures SkippedRow(PrintRow(r)) <==> LooksLikeHeader(r)
    ensures !StartsWith(PrintRow(r), "diff --git") && PrintRow(r) != "" && PrintRow(r)[1..] == r.text
  {
    RestorePatch.SkippedPrinted(r);
    var p := PrintRow(r);
    assert "diff --git"[0] != p[0] && "index "[0] != p[0] && "index"[0] != p[0];
  }

  lemma {:induction false} TrailerIgnored(rows: seq<string>)
    requires Trailer(rows)
    ensures Next(HunkLines(rows)) == [] && Passed(HunkLines(rows)) == 0 && StartsNoHunk(rows)
  {
    if rows != [] {
      TrailerIgnored(rows[1..]);
      var row := rows[0];
      assert !StartsWith(row, "@@") && !StartsWith(row, "diff --git") && !SkippedRow(row) by {
        if row != "" {
          assert "@@"[0] != row[0] && "diff --git"[0] != row[0];
          assert "index "[0] != row[0] && "---"[0] != row[0] && "+++"[0] != row[0];
        }
      }
      assert ([row] + HunkLines(rows[1..]))[1..] == HunkLines(rows[1..]);
      forall i | 0 <= i < |rows| ensures !StartsWith(rows[i], "@@") {
        assert i > 0 ==> rows[i] == rows[1..][i - 1];
      }
    }
  }

  /** Rows that the walk of a hunk takes no notice of. */
  ghost predicate Unnoticed(rows: seq<string>) {
    Next(HunkLines(rows)) == [] && Passed(HunkLines(rows)) == 0
  }

  /** What the worker makes of the printed rows of a hunk. */
  lemma {:induction false} WalksPrinted(rows: seq<Row>, trailer: seq<string>)
    requires Unnoticed(trailer)
    ensures var lines := HunkLines(PrintRows(rows) + trailer);
      Next(lines) == NewSide(Walked(rows)) && Passed(lines) == |OldSide(Walked(rows))|
  {
    hide LooksLikeHeader, SkippedRow;
    var all := PrintRows(rows) + trailer;
    if rows == [] {
      assert all == trailer;
    } else {
      var r, rest := rows[0], PrintRows(rows[1..]) + trailer;
      WalksPrinted(rows[1..], trailer);
      SkippedPrinted(r);
      assert all[0] == PrintRow(r) && all[1..] == rest;
      assert ([PrintRow(r)] + HunkLines(rest))[1..] == HunkLines(rest);
      assert ([r] + Walked(rows[1..]))[1..] == Walked(rows[1..]);
    }
  }

  lemma {:induction false} NothingSkipped(rows: seq<Row>)
    requires !DeletesDashes(rows) && !RestorePatch.AddsPlusPlus(rows)
    ensures Walked(rows) == rows && Segment(rows) == NewSide(rows)
  {
    if rows != [] {
      RestorePatch.AddsPlusPlusStep(rows);
      DeletesDashesStep(rows);
      NothingSkipped(rows[1..]);
    }
  }

  lemma DeletesDashesStep(rows: seq<Row>)
    requires rows != []
    ensures DeletesDashes(rows) <==> (rows[0].Deleted? && StartsWith(rows[0].text, "--")) || DeletesDashes(rows[1..])
  {
    if DeletesDashes(rows[1..]) {
      var i :| 0 <= i < |rows[1..]| && rows[1..][i].Deleted? && StartsWith(rows[1..][i].text, "--");
      assert rows[i + 1] == rows[1..][i];
    }
    if DeletesDashes(rows) {
      var i :| 0 <= i < |rows| && rows[i].Deleted? && StartsWith(rows[i].text, "--");
      assert i > 0 ==> rows[i] == rows[1..][i - 1];
    }
  }

  lemma EditsOfCons(first: RawHunk, rest: seq<RawHunk>)
    ensures EditsOf(WorkerHunks([first] + rest)) == [EditOf(WorkerHunk(first))] + EditsOf(WorkerHunks(rest))
  {
    WorkerHunksCons(first, rest);
    assert ([WorkerHunk(first)] + WorkerHunks(rest))[1..] == WorkerHunks(rest);
  }

  /** The edit that a printed hunk amounts to. */
  function WalkedEdit(h: Hunk): Edit {
    var walked := Walked(h.rows);
    Edit(h.oldStart, |OldSide(walked)|, NewSide(walked), |NewSide(walked)| - |OldSide(walked)|)
  }

  function WalkedEdits(hunks: seq<Hunk>): seq<Edit> {
    if hunks == [] then [] else [WalkedEdit(hunks[0])] + WalkedEdits(hunks[1..])
  }

  lemma HunkWalked(h: Hunk, trailer: seq<string>)
    requires Unnoticed(trailer)
    ensures EditOf(WorkerHunk(RawHunk(RangeOf(h), PrintRows(h.rows) + trailer))) == WalkedEdit(h)
  {
    hide HunkLines, PrintRows, Passed, Next, OldSide, NewSide, Unnoticed;
    WalksPrinted(h.rows, trailer);
  }

  lemma WorkerHunksNothing()
    ensures WorkerHunks([]) == []
  {
  }

  lemma NothingUnnoticed()
    ensures Unnoticed([])
  {
  }

  lemma {:induction false} PrintedEdits(hunks: seq<Hunk>, trailer: seq<string>)
    requires Unnoticed(trailer)
    ensures EditsOf(WorkerHunks(RawMeant(hunks, trailer))) == WalkedEdits(hunks)
  {
    hide Unnoticed, PrintRows, EditOf, WorkerHunk, WorkerHunks, WalkedEdit, RangeOf;
    if hunks == [] {
      WorkerHunksNothing();
    } else {
      var h, more := hunks[0], if |hunks| == 1 then trailer else [];
      NothingUnnoticed();
      PrintedEdits(hunks[1..], trailer);
      HunkWalked(h, more);
      EditsOfCons(RawHunk(RangeOf(h), PrintRows(h.rows) + more), RawMeant(hunks[1..], trailer));
    }
  }

  lemma ClampingReplaces()
    ensures Replaces(Clamping())
  {
  }

  /** One hunk of the walk, on an array that is a replaced prefix and the rest of the
      document. */
  lemma OneSegment(lines: seq<string>, from: nat, prefix: seq<string>, out: seq<string>, h: Hunk, rest: seq<Hunk>)
    returns (end: nat, prefix': seq<string>, out': seq<string>)
    requires Progress(lines, from, prefix, out) && Fits(lines, from, [h] + rest)
    ensures end == h.oldStart - 1 + |OldSide(h.rows)| <= |lines| && Fits(lines, end, rest)
    ensures var e := WalkedEdit(h);
      && out' == Clamping()(out, e.start - 1 + |prefix| - from, e.count, e.seg)
      && |prefix'| - end == |prefix| - from + e.growth
    ensures prefix' == prefix + (lines[from..h.oldStart - 1] + Segment(h.rows)) && Progress(lines, end, prefix', out')
  {
    hide Clamping, Walked, OldSide, NewSide;
    var at, was, walked := h.oldStart - 1, OldSide(h.rows), Walked(h.rows);
    var passed := |OldSide(walked)|;
    assert ([h] + rest)[1..] == rest;
    end := at + |was|;
    ClampingReplaces();
    out' := ReplaceMovesOn(Clamping(), lines, from, prefix, out, at, at + passed, NewSide(walked));
    NotPassed(lines, at, end, was, passed);
    prefix' := prefix + (lines[from..at] + Segment(h.rows));
    Regroup(prefix, lines[from..at], NewSide(walked), was[passed..], lines[end..]);
  }

  lemma NotPassed(lines: seq<string>, at: nat, end: nat, was: seq<string>, passed: nat)
    requires at <= end <= |lines| && lines[at..end] == was && passed <= |was|
    ensures lines[at + passed..] == was[passed..] + lines[end..]
  {
  }

  lemma Regroup<T>(a: seq<T>, b: seq<T>, c: seq<T>, d: seq<T>, e: seq<T>)
    ensures a + b + c + (d + e) == a + (b + (c + d)) + e
  {
  }

  lemma {:induction false} WalkRefines(lines: seq<string>, from: nat, prefix: seq<string>, out: seq<string>,
                                       offset: int, hunks: seq<Hunk>)
    requires Progress(lines, from, prefix, out) && Fits(lines, from, hunks) && offset == |prefix| - from
    ensures ApplyEdits(Clamping(), out, offset, WalkedEdits(hunks)) == prefix + WorkerPatched(lines, from, hunks)
    decreases |hunks|
  {
    hide Clamping, Segment, WalkedEdit;
    if hunks != [] {
      var h, rest := hunks[0], hunks[1..];
      assert [h] + rest == hunks;
      var end, prefix', out' := OneSegment(lines, from, prefix, out, h, rest);
      ApplyFirst(Clamping(), out, offset, WalkedEdit(h), WalkedEdits(rest));
      WalkRefines(lines, end, prefix', out', offset + WalkedEdit(h).growth, rest);
    }
  }

  /** What the worker's applier makes of every patch that fits, rows that look like
      file headers or not, a final newline and a marker row included. */
  lemma AppliesSegments(lines: seq<string>, preamble: seq<string>, hunks: seq<Hunk>, trailer: seq<string>)
    requires IsPreamble(preamble) && Printable(hunks) && Fits(lines, 0, hunks)
    requires Trailer(trailer) && AllNewlineFree(trailer)
    ensures ApplyText(lines, Join(preamble + PrintHunks(hunks) + trailer)) == WorkerPatched(lines, 0, hunks)
  {
    TrailerIgnored(trailer);
    AppliesUnnoticed(lines, preamble, hunks, trailer);
  }

  /** Rows that begin with anything but a blank, `+`, `-` or `@` are passed over behind the
      hunks as well. */
  lemma {:induction false} OthersUnnoticed(rows: seq<string>)
    requires forall i :: 0 <= i < |rows| ==> rows[i] == "" || rows[i][0] !in " +-@"
    ensures Unnoticed(rows) && StartsNoHunk(rows)
  {
    if rows != [] {
      var row := rows[0];
      OthersUnnoticed(rows[1..]);
      assert ([row] + HunkLines(rows[1..]))[1..] == HunkLines(rows[1..]);
      if row != "" {
        assert ' ' in " +-@" && '+' in " +-@" && '-' in " +-@" && '@' in " +-@" && "@@"[0] == '@';
      }
      forall i | 0 <= i < |rows| ensures !StartsWith(rows[i], "@@") {
        assert i > 0 ==> rows[i] == rows[1..][i - 1];
      }
    }
  }

  /** So any such rows leave the result as it is. */
  lemma OtherRowsIgnored(lines: seq<string>, preamble: seq<string>, hunks: seq<Hunk>, rows: seq<string>)
    requires IsPreamble(preamble) && Printable(hunks) && Fits(lines, 0, hunks) && AllNewlineFree(rows)
    requires forall i :: 0 <= i < |rows| ==> rows[i] == "" || rows[i][0] !in " +-@"
    ensures ApplyText(lines, Join(preamble + PrintHunks(hunks) + rows)) == WorkerPatched(lines, 0, hunks)
  {
    OthersUnnoticed(rows);
    AppliesUnnoticed(lines, preamble, hunks, rows);
  }

  lemma AppliesUnnoticed(lines: seq<string>, preamble: seq<string>, hunks: seq<Hunk>, rows: seq<string>)
    requires IsPreamble(preamble) && Printable(hunks) && Fits(lines, 0, hunks)
    requires Unnoticed(rows) && IsPreamble(rows)
    ensures ApplyText(lines, Join(preamble + PrintHunks(hunks) + rows)) == WorkerPatched(lines, 0, hunks)
  {
    RawOfPrinted(preamble, hunks, rows, true);
    PrintedEdits(hunks, rows);
    assert [] + lines[0..] == lines;
    WalkRefines(lines, 0, [], lines, 0, hunks);
  }

  /** The header rows of a second file end the hunk: whatever follows `diff --git` up to
      the next hunk is passed over, and so are rows that start with `index `. */
  lemma NextFileIgnored(lines: seq<string>, preamble: seq<string>, hunks: seq<Hunk>, index: string, rows: seq<string>)
    requires IsPreamble(preamble) && Printable(hunks) && Fits(lines, 0, hunks) && IsPreamble(rows)
    requires rows != [] && StartsWith(rows[0], "diff --git") && StartsWith(index, "index ") && NewlineFree(index)
    ensures ApplyText(lines, Join(preamble + PrintHunks(hunks) + rows)) == WorkerPatched(lines, 0, hunks)
    ensures ApplyText(lines, Join(preamble + PrintHunks(hunks) + ([index] + rows))) == WorkerPatched(lines, 0, hunks)
  {
    AppliesUnnoticed(lines, preamble, hunks, rows);
    assert ([index] + rows)[1..] == rows && "diff --git"[0] == 'd' && index[0] == 'i' && "@@"[0] == '@';
    AppliesUnnoticed(lines, preamble, hunks, [index] + rows);
  }

  /** A row that starts with `@@` and is no header ends the last hunk; it and the rows
      behind it are passed over. */
  lemma StrayEndsPatch(lines: seq<string>, preamble: seq<string>, hunks: seq<Hunk>, stray: string, tail: seq<string>)
    requires IsPreamble(preamble) && Printable(hunks) && Fits(lines, 0, hunks)
    requires IsStray(stray, true) && IsPreamble(tail)
    ensures ApplyText(lines, Join(preamble + PrintHunks(hunks) + ([stray] + tail))) == WorkerPatched(lines, 0, hunks)
  {
    RawOfPrintedThenStray(preamble, hunks, stray, tail, true);
    NothingUnnoticed();
    PrintedEdits(hunks, []);
    assert [] + lines[0..] == lines;
    WalkRefines(lines, 0, [], lines, 0, hunks);
  }

  /** Bodies decide, whatever the headers above them count: the rows that a hunk walks
      say how many lines it replaces and how far the next start is moved. */
  lemma BodiesDecide(lines: seq<string>, preamble: seq<string>, first: RawHunk, second: RawHunk)
    requires IsPreamble(preamble) && RawPrintable([first, second])
    ensures var rows, rows' := HunkLines(first.body), HunkLines(second.body);
      var at := Clamp(|lines|, first.range.oldStart - 1);
      var out := Splice(lines, at, Passed(rows), Next(rows));
      var at' := Clamp(|out|, second.range.oldStart - 1 + |Next(rows)| - Passed(rows));
      ApplyText(lines, Join(preamble + PrintRaws([first, second]))) == Splice(out, at', Passed(rows'), Next(rows'))
  {
    hide Splice, Clamp, Passed, Next, HunkLines, Join, PrintRaws, RawText;
    RawOfRaws(preamble, [first, second], true);
    WorkerHunksNothing();
    WorkerHunksCons(first, [second]);
    WorkerHunksCons(second, []);
    assert [first] + [second] == [first, second] && [second] + [] == [second];
    var h, h' := WorkerHunk(first), WorkerHunk(second);
    assert WorkerHunks([second]) == [h'] + [] == [h'];
    AppliesTwo(lines, h, h');
  }

  lemma AppliesTwo(lines: seq<string>, h: RawHunk, h': RawHunk)
    ensures var out := Splice(lines, Clamp(|lines|, h.range.oldStart - 1), Passed(h.body), Next(h.body));
      ApplyFrom(lines, 0, [h] + [h'])
      == Splice(out, Clamp(|out|, h'.range.oldStart - 1 + |Next(h.body)| - Passed(h.body)),
                Passed(h'.body), Next(h'.body))
  {
    hide Splice, Clamp, Passed, Next, ApplyFrom;
    var e, e' := EditOf(h), EditOf(h');
    ApplyFromFirst(lines, 0, h, [h']);
    var out := Clamping()(lines, e.start - 1 + 0, e.count, e.seg);
    assert [h'] + [] == [h'];
    ApplyFromFirst(out, e.growth, h', []);
    NoHunkLeft(Clamping()(out, e'.start - 1 + e.growth, e'.count, e'.seg), e.growth + e'.growth, []);
  }

  /** The expression for headers is anchored: a header behind `@@` and a blank is none. */
  lemma OddHeaderIgnored(lines: seq<string>, preamble: seq<string>, h: Hunk)
    requires IsPreamble(preamble) && Printable([h])
    ensures ApplyText(lines, OddPatch(preamble, h)) == lines
  {
    hide OddPatch;
    RawOfOdd(preamble, h);
    WorkerHunksNothing();
  }

  /** Every hunk's segment is its new side. */
  ghost predicate SegmentsRight(hunks: seq<Hunk>) {
    forall k :: 0 <= k < |hunks| ==> Segment(hunks[k].rows) == NewSide(hunks[k].rows)
  }

  lemma {:induction false} RightSegments(lines: seq<string>, from: nat, hunks: seq<Hunk>)
    requires from <= |lines| && Fits(lines, from, hunks) && SegmentsRight(hunks)
    ensures WorkerPatched(lines, from, hunks) == PatchedAnd(lines, from, hunks, [])
    decreases |hunks|
  {
    if hunks != [] {
      var at, end, seg := PatchedStep(lines, from, hunks, []);
      hide Segment, OldSide, NewSide;
      assert NewSide(hunks[0].rows) + [] == NewSide(hunks[0].rows);
      RightSegments(lines, end, hunks[1..]);
      assert WorkerPatched(lines, from, hunks)
          == lines[from..at] + Segment(hunks[0].rows) + WorkerPatched(lines, end, hunks[1..]);
    }
  }

  /** The worker's applier gives the meaning of every patch without rows that look
      like file headers, a final newline and a marker row included. */
  lemma AppliesPatch(lines: seq<string>, preamble: seq<string>, hunks: seq<Hunk>, trailer: seq<string>)
    requires IsPreamble(preamble) && Printable(hunks) && Fits(lines, 0, hunks)
    requires Trailer(trailer) && AllNewlineFree(trailer) && NoFileHeaders(hunks)
    ensures ApplyText(lines, Join(preamble + PrintHunks(hunks) + trailer)) == Patched(lines, hunks)
  {
    AppliesSegments(lines, preamble, hunks, trailer);
    forall k | 0 <= k < |hunks| ensures Segment(hunks[k].rows) == NewSide(hunks[k].rows) {
      NothingSkipped(hunks[k].rows);
    }
    RightSegments(lines, 0, hunks);
  }

  /** When no hunk changes the number of lines by mistake, which a caller can see in
      the patch, the document is right exactly when every segment is. */
  lemma AppliesBalanced(lines: seq<string>, preamble: seq<string>, hunks: seq<Hunk>, trailer: seq<string>)
    requires IsPreamble(preamble) && Printable(hunks) && Fits(lines, 0, hunks)
    requires Trailer(trailer) && AllNewlineFree(trailer)
    requires forall k :: 0 <= k < |hunks| ==> |Segment(hunks[k].rows)| == |NewSide(hunks[k].rows)|
    ensures ApplyText(lines, Join(preamble + PrintHunks(hunks) + trailer)) == Patched(lines, hunks)
       <==> SegmentsRight(hunks)
  {
    AppliesSegments(lines, preamble, hunks, trailer);
    if SegmentsRight(hunks) {
      RightSegments(lines, 0, hunks);
    } else if WorkerPatched(lines, 0, hunks) == Patched(lines, hunks) {
      BalancedSegments(lines, 0, hunks);
    }
  }

  lemma {:induction false} BalancedSegments(lines: seq<string>, from: nat, hunks: seq<Hunk>)
    requires from <= |lines| && Fits(lines, from, hunks)
    requires forall k :: 0 <= k < |hunks| ==> |Segment(hunks[k].rows)| == |NewSide(hunks[k].rows)|
    requires WorkerPatched(lines, from, hunks) == PatchedAnd(lines, from, hunks, [])
    ensures SegmentsRight(hunks)
    decreases |hunks|
  {
    hide Segment, OldSide, NewSide;
    if hunks != [] {
      var h := hunks[0];
      var end := h.oldStart - 1 + |OldSide(h.rows)|;
      assert NewSide(h.rows) + [] == NewSide(h.rows);
      SameParts(lines[from..h.oldStart - 1], Segment(h.rows), WorkerPatched(lines, end, hunks[1..]),
                NewSide(h.rows), PatchedAnd(lines, end, hunks[1..], []));
      BalancedSegments(lines, end, hunks[1..]);
      forall k | 0 <= k < |hunks| ensures Segment(hunks[k].rows) == NewSide(hunks[k].rows) {
        if k > 0 { assert hunks[k] == hunks[1..][k - 1]; }
      }
    }
  }

  lemma SameParts<T>(a: seq<T>, b: seq<T>, c: seq<T>, b': seq<T>, c': seq<T>)
    requires a + b + c == a + b' + c' && |b| == |b'|
    ensures b == b' && c == c'
  {
    assert (a + b + c)[|a|..|a| + |b|] == b && (a + b' + c')[|a|..|a| + |b|] == b';
    assert (a + b + c)[|a| + |b|..] == c && (a + b' + c')[|a| + |b|..] == c';
  }

  /** For a single hunk that condition is exact without any more. */
  lemma AppliesOneHunk(lines: seq<string>, preamble: seq<string>, h: Hunk, trailer: seq<string>)
    requires IsPreamble(preamble) && Printable([h]) && Fits(lines, 0, [h])
    requires Trailer(trailer) && AllNewlineFree(trailer)
    ensures ApplyText(lines, Join(preamble + PrintHunks([h]) + trailer)) == Patched(lines, [h])
       <==> Segment(h.rows) == NewSide(h.rows)
  {
    hide Segment, OldSide, NewSide, Patched, WorkerPatched, Fits, Printable, Trailer, ApplyText, Join, PrintHunks;
    AppliesSegments(lines, preamble, [h], trailer);
    var front, back := OneHunkParts(lines, h);
    if front + Segment(h.rows) + back == front + NewSide(h.rows) + back {
      assert |front| + |Segment(h.rows)| + |back| == |front| + |NewSide(h.rows)| + |back|;
      SameParts(front, Segment(h.rows), back, NewSide(h.rows), back);
    }
  }

  /** Both documents of a single hunk, in parts. */
  lemma OneHunkParts(lines: seq<string>, h: Hunk) returns (front: seq<string>, back: seq<string>)
    requires Fits(lines, 0, [h])
    ensures WorkerPatched(lines, 0, [h]) == front + Segment(h.rows) + back
    ensures Patched(lines, [h]) == front + NewSide(h.rows) + back
  {
    hide Segment, OldSide, NewSide;
    var end := h.oldStart - 1 + |OldSide(h.rows)|;
    front, back := lines[0..h.oldStart - 1], lines[end..];
    assert NewSide(h.rows) + [] == NewSide(h.rows) && [h][1..] == [];
    assert WorkerPatched(lines, end, []) == back && PatchedAnd(lines, end, [], []) == back;
  }

  /** With several hunks two mistakes can cancel out: a patch whose two segments are
      both wrong, and that the worker applies rightly all the same. */
  lemma MistakesCancelOut() returns (lines: seq<string>, hunks: seq<Hunk>)
    ensures Printable(hunks) && Fits(lines, 0, hunks) && KeepsLast(lines, hunks)
    ensures forall k :: 0 <= k < |hunks| ==> Segment(hunks[k].rows) != NewSide(hunks[k].rows)
    ensures |hunks| == 2 && ApplyText(lines, PatchText([], hunks)) == Patched(lines, hunks)
  {
    hide Segment, OldSide, NewSide, PrintHunks, ApplyText, Trailer;
    lines := ["++c", "--z", "++c", ""];
    var first := Hunk(1, 1, [Context("++c"), Added("++c")], false, "");
    var second := Hunk(2, 3, [Deleted("--z"), Context("++c")], false, "");
    hunks := [first, second];
    LosesAddition();
    KeepsDeletion();
    assert hunks[1..] == [second] && [second][1..] == [];
    assert lines[0..1] == ["++c"] && lines[1..3] == ["--z", "++c"];
    assert Fits(lines, 3, []) && Fits(lines, 1, [second]) && Fits(lines, 0, hunks);
    CancelledParts(lines, first, second);
    assert [] + PrintHunks(hunks) + [] == [] + PrintHunks(hunks);
    TrailerOfNothing();
    AppliesSegments(lines, [], hunks, []);
  }

  lemma CancelledParts(lines: seq<string>, first: Hunk, second: Hunk)
    requires first.oldStart == 1 && second.oldStart == 2 && |lines| == 4
    requires |OldSide(first.rows)| == 1 && |OldSide(second.rows)| == 2 && Fits(lines, 0, [first, second])
    requires NewSide(first.rows) == ["++c", "++c"] && Segment(first.rows) == ["++c"]
    requires NewSide(second.rows) == ["++c"] && Segment(second.rows) == ["++c", "++c"]
    ensures WorkerPatched(lines, 0, [first, second]) == Patched(lines, [first, second])
  {
    hide Segment, OldSide, NewSide;
    assert [first, second][1..] == [second];
    var front, back := lines[1..1], lines[3..];
    assert [second][1..] == [] && NewSide(second.rows) + [] == NewSide(second.rows);
    assert WorkerPatched(lines, 1, [second]) == front + ["++c", "++c"] + back;
    assert PatchedAnd(lines, 1, [second], []) == front + ["++c"] + back;
    assert WorkerPatched(lines, 0, [first, second]) == ["++c", "++c", "++c"] + back;
    assert Patched(lines, [first, second]) == ["++c", "++c", "++c"] + back;
  }

  lemma LosesAddition()
    ensures var rows := [Context("++c"), Added("++c")];
      OldSide(rows) == ["++c"] && NewSide(rows) == ["++c", "++c"] && Segment(rows) == ["++c"]
  {
    assert [Context("++c"), Added("++c")][1..] == [Added("++c")] && [Added("++c")][1..] == [];
    assert [Context("++c")][1..] == [];
  }

  lemma KeepsDeletion()
    ensures var rows := [Deleted("--z"), Context("++c")];
      OldSide(rows) == ["--z", "++c"] && NewSide(rows) == ["++c"] && Segment(rows) == ["++c", "++c"]
  {
    assert [Deleted("--z"), Context("++c")][1..] == [Context("++c")] && [Context("++c")][1..] == [];
  }

  /** A hunk that only inserts. Its start is clamped into the array, so an insertion at
      the top goes to the top; any other goes in front of the line that it names. */
  lemma AppliesInsertion(lines: seq<string>, preamble: seq<string>, after: nat, newStart: nat, texts: seq<string>)
    requires IsPreamble(preamble) && AllNewlineFree(texts)
    requires forall i :: 0 <= i < |texts| ==> !StartsWith(texts[i], "++")
    ensures var at := Clamp(|lines|, after - 1);
      ApplyText(lines, SynapticPatch.InsertionPatch(preamble, after, newStart, texts))
      == lines[..at] + texts + lines[at..]
    ensures after == 0 ==>
      ApplyText(lines, SynapticPatch.InsertionPatch(preamble, after, newStart, texts)) == texts + lines
  {
    hide Clamp, Walked, PrintRows, HunkLines, SynapticPatch.AddedRows;
    var h := Hunk(after, newStart, SynapticPatch.AddedRows(texts), false, "");
    var raw := RawHunk(RangeOf(h), PrintRows(h.rows) + []);
    SynapticPatch.AddedSides(texts);
    SynapticPatch.AddedNewlineFree(texts);
    AddedWalked(texts);
    NothingUnnoticed();
    assert preamble + PrintHunks([h]) + [] == preamble + PrintHunks([h]);
    RawOfPrinted(preamble, [h], [], true);
    HunkWalked(h, []);
    assert RawMeant([h], []) == [raw] + [] && [h][1..] == [];
    WorkerHunksCons(raw, []);
    ApplyFromFirst(lines, 0, WorkerHunk(raw), []);
    var at := ClampInside(|lines|, after - 1);
    var out := lines[..at] + texts + lines[at..];
    assert Clamping()(lines, after - 1, 0, texts) == out;
    NoHunkLeft(out, |texts|, []);
    if after == 0 { assert out == texts + lines; }
  }

  lemma ClampInside(length: nat, start: int) returns (at: nat)
    ensures at == Clamp(length, start) <= length && (start < 0 ==> at == 0)
  {
    at := Clamp(length, start);
  }

  lemma {:induction false} AddedWalked(texts: seq<string>)
    requires forall i :: 0 <= i < |texts| ==> !StartsWith(texts[i], "++")
    ensures Walked(SynapticPatch.AddedRows(texts)) == SynapticPatch.AddedRows(texts)
  {
    if texts != [] {
      assert !StartsWith(texts[0], "++");
      AddedWalked(texts[1..]);
      assert SynapticPatch.AddedRows(texts)[1..] == SynapticPatch.AddedRows(texts[1..]);
    }
  }

  // ----- How many lines the mistakes cost -----------------------------------------

  /** How many deletions and additions the worker passes over. */
  function SkippedRows(rows: seq<Row>): (nat, nat) {
    if rows == [] then (0, 0)
    else
      var (dels, adds) := SkippedRows(rows[1..]);
      if !LooksLikeHeader(rows[0]) then (dels, adds)
      else if rows[0].Deleted? then (dels + 1, adds)
      else (dels, adds + 1)
  }

  lemma {:induction false} SegmentLength(rows: seq<Row>)
    ensures var (dels, adds) := SkippedRows(rows);
      && |OldSide(Walked(rows))| == |OldSide(rows)| - dels
      && |NewSide(Walked(rows))| == |NewSide(rows)| - adds
      && |Segment(rows)| == |NewSide(rows)| + dels - adds
  {
    hide LooksLikeHeader;
    if rows != [] {
      SegmentLength(rows[1..]);
      assert ([rows[0]] + Walked(rows[1..]))[1..] == Walked(rows[1..]);
      OnlyChanges(rows[0]);
    }
  }

  lemma OnlyChanges(r: Row)
    ensures LooksLikeHeader(r) ==> !r.Context?
  {
  }

  function Surplus(hunks: seq<Hunk>): int {
    if hunks == [] then 0
    else
      var (dels, adds) := SkippedRows(hunks[0].rows);
      dels - adds + Surplus(hunks[1..])
  }

  lemma {:induction false} SegmentsLength(lines: seq<string>, from: nat, hunks: seq<Hunk>)
    requires from <= |lines| && Fits(lines, from, hunks)
    ensures |WorkerPatched(lines, from, hunks)| == |PatchedAnd(lines, from, hunks, [])| + Surplus(hunks)
    decreases |hunks|
  {
    hide Segment, OldSide, NewSide, SkippedRows;
    if hunks != [] {
      SegmentLength(hunks[0].rows);
      assert NewSide(hunks[0].rows) + [] == NewSide(hunks[0].rows);
      SegmentsLength(lines, hunks[0].oldStart - 1 + |OldSide(hunks[0].rows)|, hunks[1..]);
    }
  }

  /** Over the whole patch, the document keeps every skipped deletion and misses every
      skipped addition. */
  lemma LengthOff(lines: seq<string>, preamble: seq<string>, hunks: seq<Hunk>, trailer: seq<string>)
    requires IsPreamble(preamble) && Printable(hunks) && Fits(lines, 0, hunks)
    requires Trailer(trailer) && AllNewlineFree(trailer)
    ensures |ApplyText(lines, Join(preamble + PrintHunks(hunks) + trailer))| == |Patched(lines, hunks)| + Surplus(hunks)
  {
    AppliesSegments(lines, preamble, hunks, trailer);
    SegmentsLength(lines, 0, hunks);
  }

  lemma {:induction false} SegmentsKeepLast(lines: seq<string>, from: nat, hunks: seq<Hunk>)
    requires from < |lines| && Fits(lines, from, hunks) && KeepsLast(lines, hunks)
    ensures var patched := WorkerPatched(lines, from, hunks);
      patched != [] && patched[|patched| - 1] == lines[|lines| - 1]
    decreases |hunks|
  {
    hide Segment, OldSide;
    if hunks != [] {
      SegmentsKeepLast(lines, hunks[0].oldStart - 1 + |OldSide(hunks[0].rows)|, hunks[1..]);
    }
  }

  /** The three appliers agree with the meaning of a patch, so with each other. */
  lemma AppliersAgree(lines: seq<string>, preamble: seq<string>, hunks: seq<Hunk>)
    requires IsPreamble(preamble) && Printable(hunks) && Fits(lines, 0, hunks) && NoFileHeaders(hunks)
    ensures var text := PatchText(preamble, hunks);
      && ApplyText(lines, text) == Patched(lines, hunks)
      && SynapticPatch.ApplyText(lines, text) == Patched(lines, hunks)
      && RestorePatch.ApplyText(lines, text) == Patched(lines, hunks)
  {
    assert preamble + PrintHunks(hunks) + [] == preamble + PrintHunks(hunks);
    AppliesPatch(lines, preamble, hunks, []);
    SynapticPatch.AppliesPatch(lines, preamble, hunks);
    RestorePatch.AppliesPatch(lines, preamble, hunks);
  }

  // ----- Lines stay lines --------------------------------------------------------

  lemma {:induction false} NextNewlineFree(rows: seq<string>)
    requires AllNewlineFree(rows)
    ensures AllNewlineFree(Next(HunkLines(rows)))
  {
    if rows != [] {
      assert NewlineFree(rows[0]);
      NextNewlineFree(rows[1..]);
      assert ([rows[0]] + HunkLines(rows[1..]))[1..] == HunkLines(rows[1..]);
    }
  }

  lemma {:induction false} EditsKeepLines(hunks: seq<RawHunk>)
    requires RawNewlineFree(hunks)
    ensures EditsNewlineFree(EditsOf(WorkerHunks(hunks)))
  {
    if hunks != [] {
      EditsKeepLines(hunks[1..]);
      NextNewlineFree(hunks[0].body);
      EditsOfCons(hunks[0], hunks[1..]);
      assert hunks == [hunks[0]] + hunks[1..];
    }
  }

  lemma ApplyTextNewlineFree(lines: seq<string>, patch: string)
    requires AllNewlineFree(lines)
    ensures AllNewlineFree(ApplyText(lines, patch))
  {
    RawTextNewlineFree(patch, true);
    EditsKeepLines(RawText(patch, true));
    ApplyEditsNewlineFree(Clamping(), lines, 0, EditsOf(ParsedText(patch)));
  }
}
