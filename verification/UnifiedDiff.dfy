/** Hunks of a unified diff, what they mean for a document, and their printed
    form. Independent of the code that applies printed patches. */
module UnifiedDiff {
  import opened Lines
  import opened Header

  datatype Row = Context(text: string) | Deleted(text: string) | Added(text: string)

  /** `brief` leaves out counts of one, `section` is the text after the second
      `@@`; both are free in the format. The counts are those of the body. */
  datatype Hunk = Hunk(oldStart: nat, newStart: nat, rows: seq<Row>, brief: bool, section: string)

  function OldSide(rows: seq<Row>): seq<string> {
    if rows == [] then []
    else if rows[0].Added? then OldSide(rows[1..])
    else [rows[0].text] + OldSide(rows[1..])
  }

  function NewSide(rows: seq<Row>): seq<string> {
    if rows == [] then []
    else if rows[0].Deleted? then NewSide(rows[1..])
    else [rows[0].text] + NewSide(rows[1..])
  }

  function RangeOf(h: Hunk): Range {
    Range(h.oldStart, |OldSide(h.rows)|, h.newStart, |NewSide(h.rows)|)
  }

  // ----- Meaning -----------------------------------------------------------

  /** The hunks are in order, do not overlap, start after the first `from` lines,
      replace at least one line each, and quote the document as it is. */
  ghost predicate Fits(lines: seq<string>, from: nat, hunks: seq<Hunk>)
    decreases |hunks|
  {
    hunks == [] ||
    (var h := hunks[0];
     var was := OldSide(h.rows);
     && was != []
     && from + 1 <= h.oldStart
     && h.oldStart - 1 + |was| <= |lines|
     && lines[h.oldStart - 1..h.oldStart - 1 + |was|] == was
     && Fits(lines, h.oldStart - 1 + |was|, hunks[1..]))
  }

  /** All hunks replaced at once, by the line numbers of the old document; `extra`
      goes after the last new side. */
  ghost function PatchedAnd(lines: seq<string>, from: nat, hunks: seq<Hunk>, extra: seq<string>): seq<string>
    requires from <= |lines| && Fits(lines, from, hunks)
    decreases |hunks|
  {
    if hunks == [] then lines[from..]
    else
      var h := hunks[0];
      var end := h.oldStart - 1 + |OldSide(h.rows)|;
      var now := if |hunks| == 1 then NewSide(h.rows) + extra else NewSide(h.rows);
      lines[from..h.oldStart - 1] + now + PatchedAnd(lines, end, hunks[1..], extra)
  }

  ghost function Patched(lines: seq<string>, hunks: seq<Hunk>): seq<string>
    requires Fits(lines, 0, hunks)
  {
    PatchedAnd(lines, 0, hunks, [])
  }

  ghost function SizeChange(hunks: seq<Hunk>): int {
    if hunks == [] then 0
    else |NewSide(hunks[0].rows)| - |OldSide(hunks[0].rows)| + SizeChange(hunks[1..])
  }

  lemma {:induction false} PatchedLength(lines: seq<string>, from: nat, hunks: seq<Hunk>, extra: seq<string>)
    requires from <= |lines| && Fits(lines, from, hunks)
    ensures |PatchedAnd(lines, from, hunks, extra)|
         == |lines| - from + SizeChange(hunks) + (if hunks == [] then 0 else |extra|)
    decreases |hunks|
  {
    if hunks != [] {
      PatchedLength(lines, hunks[0].oldStart - 1 + |OldSide(hunks[0].rows)|, hunks[1..], extra);
    }
  }

  /** Every hunk leaves the last line (the empty one behind the final newline) alone. */
  ghost predicate KeepsLast(lines: seq<string>, hunks: seq<Hunk>) {
    forall k :: 0 <= k < |hunks| ==> hunks[k].oldStart - 1 + |OldSide(hunks[k].rows)| < |lines|
  }

  lemma {:induction false} LastLineStays(lines: seq<string>, from: nat, hunks: seq<Hunk>, extra: seq<string>)
    requires from < |lines| && Fits(lines, from, hunks) && KeepsLast(lines, hunks)
    ensures var patched := PatchedAnd(lines, from, hunks, extra);
      patched != [] && patched[|patched| - 1] == lines[|lines| - 1]
    decreases |hunks|
  {
    hide OldSide, NewSide;
    if hunks != [] {
      LastLineStays(lines, hunks[0].oldStart - 1 + |OldSide(hunks[0].rows)|, hunks[1..], extra);
    }
  }

  // ----- Reversal ----------------------------------------------------------

  function ReverseRow(r: Row): Row {
    match r
    case Context(t) => Context(t)
    case Deleted(t) => Added(t)
    case Added(t) => Deleted(t)
  }

  function ReverseRows(rows: seq<Row>): (rev: seq<Row>)
    ensures |rev| == |rows|
    ensures OldSide(rev) == NewSide(rows) && NewSide(rev) == OldSide(rows)
  {
    if rows == [] then [] else [ReverseRow(rows[0])] + ReverseRows(rows[1..])
  }

  function ReverseHunk(h: Hunk): Hunk {
    h.(oldStart := h.newStart, newStart := h.oldStart, rows := ReverseRows(h.rows))
  }

  function Reverse(hunks: seq<Hunk>): (rev: seq<Hunk>)
    ensures |rev| == |hunks|
  {
    if hunks == [] then [] else [ReverseHunk(hunks[0])] + Reverse(hunks[1..])
  }

  lemma {:induction false} ReverseRowsTwice(rows: seq<Row>)
    ensures ReverseRows(ReverseRows(rows)) == rows
  {
    if rows != [] {
      ReverseRowsTwice(rows[1..]);
      assert ReverseRows(rows)[1..] == ReverseRows(rows[1..]);
    }
  }

  lemma {:induction false} ReverseTwice(hunks: seq<Hunk>)
    ensures Reverse(Reverse(hunks)) == hunks
  {
    if hunks != [] {
      ReverseTwice(hunks[1..]);
      ReverseRowsTwice(hunks[0].rows);
      assert Reverse(hunks)[1..] == Reverse(hunks[1..]);
    }
  }

  /** The new side of the headers is right as well: every new range is non-empty
      and starts where the earlier hunks have moved the old one. */
  ghost predicate NewSideConsistent(hunks: seq<Hunk>, shift: int)
    decreases |hunks|
  {
    hunks == [] ||
    (var h := hunks[0];
     && NewSide(h.rows) != []
     && h.newStart == h.oldStart + shift
     && NewSideConsistent(hunks[1..], shift + |NewSide(h.rows)| - |OldSide(h.rows)|))
  }

  lemma {:induction false} ReverseFits(lines: seq<string>, from: nat, hunks: seq<Hunk>, prefix: seq<string>)
    requires from <= |lines| && Fits(lines, from, hunks)
    requires NewSideConsistent(hunks, |prefix| - from)
    ensures var doc := prefix + PatchedAnd(lines, from, hunks, []);
      && Fits(doc, |prefix|, Reverse(hunks))
      && PatchedAnd(doc, |prefix|, Reverse(hunks), []) == lines[from..]
    decreases |hunks|
  {
    hide OldSide, NewSide, ReverseRows;
    if hunks != [] {
      var h := hunks[0];
      var at, was, now := h.oldStart - 1, OldSide(h.rows), NewSide(h.rows);
      var end := at + |was|;
      var start := |prefix| + at - from;
      var prefix' := prefix + lines[from..at] + now;
      var rest := PatchedAnd(lines, end, hunks[1..], []);
      ReverseFits(lines, end, hunks[1..], prefix');
      Window(lines, from, at, was, now, prefix, rest);
      FirstHunk(lines, from, hunks, at, end, was, now);
      var reversed := Reverse(hunks);
      assert reversed[0] == ReverseHunk(h) && reversed[1..] == Reverse(hunks[1..]);
      ReverseStep(lines, from, at, end, was, now, prefix' + rest, |prefix|, start, |prefix'|, reversed);
    }
  }

  lemma Window(lines: seq<string>, from: nat, at: nat, was: seq<string>, now: seq<string>,
               prefix: seq<string>, rest: seq<string>)
    requires from <= at && at + |was| <= |lines| && lines[at..at + |was|] == was
    ensures var doc, start := prefix + lines[from..at] + now + rest, |prefix| + at - from;
      && doc == prefix + (lines[from..at] + now + rest)
      && doc[|prefix|..start] == lines[from..at] && doc[start..start + |now|] == now
    ensures lines[from..at] + was + lines[at + |was|..] == lines[from..]
  {
  }

  lemma ReverseStep(lines: seq<string>, from: nat, at: nat, end: nat, was: seq<string>, now: seq<string>,
                    doc: seq<string>, doneTo: nat, start: nat, newEnd: nat, reversed: seq<Hunk>)
    requires from <= at <= end <= |lines| && doneTo <= start <= newEnd <= |doc| && newEnd == start + |now| && now != []
    requires reversed != [] && reversed[0].oldStart == start + 1
    requires OldSide(reversed[0].rows) == now && NewSide(reversed[0].rows) == was
    requires doc[doneTo..start] == lines[from..at] && doc[start..newEnd] == now
    requires lines[from..at] + was + lines[end..] == lines[from..]
    requires Fits(doc, newEnd, reversed[1..]) && PatchedAnd(doc, newEnd, reversed[1..], []) == lines[end..]
    ensures Fits(doc, doneTo, reversed) && PatchedAnd(doc, doneTo, reversed, []) == lines[from..]
  {
    FirstHunk(doc, doneTo, reversed, start, newEnd, now, was);
  }

  /** Unfolding the definitions by one hunk. */
  lemma FirstHunk(lines: seq<string>, from: nat, hunks: seq<Hunk>, at: nat, end: nat,
                  was: seq<string>, now: seq<string>)
    requires hunks != [] && hunks[0].oldStart == at + 1
    requires OldSide(hunks[0].rows) == was && NewSide(hunks[0].rows) == now
    requires was != [] && from <= at && end == at + |was| <= |lines| && lines[at..end] == was
    requires Fits(lines, end, hunks[1..])
    ensures Fits(lines, from, hunks)
    ensures PatchedAnd(lines, from, hunks, []) == lines[from..at] + now + PatchedAnd(lines, end, hunks[1..], [])
  {
    hide OldSide, NewSide;
    assert now + [] == now;
  }

  /** Undoing a patch: its reverse fits the patched document and brings the old
      one back. */
  lemma ReverseUndoes(lines: seq<string>, hunks: seq<Hunk>)
    requires Fits(lines, 0, hunks) && NewSideConsistent(hunks, 0)
    ensures Fits(Patched(lines, hunks), 0, Reverse(hunks))
    ensures Patched(Patched(lines, hunks), Reverse(hunks)) == lines
  {
    ReverseFits(lines, 0, hunks, []);
    assert [] + PatchedAnd(lines, 0, hunks, []) == Patched(lines, hunks);
  }

  /** The headers of the reverse are right whenever those of the patch are, and no old
      range is empty. */
  lemma {:induction false} ReverseConsistent(hunks: seq<Hunk>, shift: int)
    requires NewSideConsistent(hunks, shift) && forall k :: 0 <= k < |hunks| ==> OldSide(hunks[k].rows) != []
    ensures NewSideConsistent(Reverse(hunks), -shift)
    decreases |hunks|
  {
    hide OldSide, NewSide;
    if hunks != [] {
      var h := hunks[0];
      assert Reverse(hunks)[1..] == Reverse(hunks[1..]);
      ReverseConsistent(hunks[1..], shift + |NewSide(h.rows)| - |OldSide(h.rows)|);
    }
  }

  // ----- Printed form --------------------------------------------------------

  function PrintRow(r: Row): string {
    match r
    case Context(t) => " " + t
    case Deleted(t) => "-" + t
    case Added(t) => "+" + t
  }

  function PrintRows(rows: seq<Row>): (printed: seq<string>)
    ensures |printed| == |rows|
  {
    if rows == [] then [] else [PrintRow(rows[0])] + PrintRows(rows[1..])
  }

  function PrintHunk(h: Hunk): seq<string> {
    [PrintRange(RangeOf(h), h.brief) + h.section] + PrintRows(h.rows)
  }

  function PrintHunks(hunks: seq<Hunk>): seq<string> {
    if hunks == [] then [] else PrintHunk(hunks[0]) + PrintHunks(hunks[1..])
  }

  ghost predicate StartsNoHunk(rows: seq<string>) {
    forall i :: 0 <= i < |rows| ==> !StartsWith(rows[i], "@@")
  }

  /** The rows in front of the first hunk (`diff --git`, `index`, `---`, `+++`). */
  ghost predicate IsPreamble(rows: seq<string>) {
    AllNewlineFree(rows) && StartsNoHunk(rows)
  }

  /** Rows that may stand behind the hunks of a patch: the empty one behind a final
      newline, and markers (`\ No newline at end of file`). */
  ghost predicate Trailer(rows: seq<string>) {
    forall i :: 0 <= i < |rows| ==> rows[i] == "" || rows[i][0] == '\\'
  }

  lemma TrailerOfNothing()
    ensures Trailer([])
  {
  }

  lemma TrailerStartsNoHunk(rows: seq<string>)
    requires Trailer(rows)
    ensures StartsNoHunk(rows)
  {
    forall i | 0 <= i < |rows| ensures !StartsWith(rows[i], "@@") {
      if rows[i] != "" { assert "@@"[0] != rows[i][0]; }
    }
  }

  ghost predicate Printable(hunks: seq<Hunk>) {
    forall k :: 0 <= k < |hunks| ==>
      NewlineFree(hunks[k].section) && forall i :: 0 <= i < |hunks[k].rows| ==> NewlineFree(hunks[k].rows[i].text)
  }

  /** The text of a patch, without a newline at its end. */
  function PatchText(preamble: seq<string>, hunks: seq<Hunk>): string {
    Join(preamble + PrintHunks(hunks))
  }

  /** A text that prints the hunks, between any rows that name the files and a trailer. */
  ghost predicate IsPrinted(text: string, hunks: seq<Hunk>, trailer: seq<string>) {
    && Trailer(trailer) && AllNewlineFree(trailer)
    && exists preamble :: IsPreamble(preamble) && text == Join(preamble + PrintHunks(hunks) + trailer)
  }

  lemma {:induction false} ReversePrintable(hunks: seq<Hunk>)
    requires Printable(hunks)
    ensures Printable(Reverse(hunks))
  {
    if hunks != [] {
      ReversePrintable(hunks[1..]);
      ReverseRowsNewlineFree(hunks[0].rows);
    }
  }

  lemma {:induction false} ReverseRowsNewlineFree(rows: seq<Row>)
    requires forall i :: 0 <= i < |rows| ==> NewlineFree(rows[i].text)
    ensures forall i :: 0 <= i < |rows| ==> NewlineFree(ReverseRows(rows)[i].text)
  {
    if rows != [] { ReverseRowsNewlineFree(rows[1..]); }
  }

  lemma {:induction false} PrintedRows(rows: seq<Row>)
    ensures forall i :: 0 <= i < |rows| ==> PrintRows(rows)[i] == PrintRow(rows[i])
    ensures forall i :: 0 <= i < |rows| ==> !StartsWith(PrintRows(rows)[i], "@@")
  {
    if rows != [] {
      PrintedRows(rows[1..]);
      assert PrintRow(rows[0])[0] != "@@"[0];
      forall i | 0 < i < |rows| ensures PrintRows(rows)[i] == PrintRow(rows[i]) {
        assert PrintRows(rows)[i] == PrintRows(rows[1..])[i - 1];
      }
    }
  }

  lemma {:induction false} PrintedHunksNewlineFree(hunks: seq<Hunk>)
    requires Printable(hunks)
    ensures AllNewlineFree(PrintHunks(hunks))
  {
    if hunks != [] {
      PrintedHunksNewlineFree(hunks[1..]);
      var h := hunks[0];
      PrintedNewlineFree(RangeOf(h), h.brief);
      PrintedRows(h.rows);
      forall i | 0 <= i < |h.rows| ensures NewlineFree(PrintRow(h.rows[i])) {
        assert NewlineFree(h.rows[i].text);
      }
      assert AllNewlineFree(PrintHunk(h));
    }
  }

  /** The rows of a printed patch come back when its text is split; a newline at
      the end of the text adds an empty row. */
  lemma SplitPatchText(preamble: seq<string>, hunks: seq<Hunk>, extra: seq<string>)
    requires IsPreamble(preamble) && Printable(hunks) && AllNewlineFree(extra)
    requires preamble + PrintHunks(hunks) + extra != []
    ensures Split(Join(preamble + PrintHunks(hunks) + extra)) == preamble + PrintHunks(hunks) + extra
  {
    PrintedHunksNewlineFree(hunks);
    SplitJoinNewlineFree(preamble + PrintHunks(hunks) + extra);
  }
}
