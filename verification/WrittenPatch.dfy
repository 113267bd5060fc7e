/** A patch and a document, letter by letter: what the format, the meaning of hunks and
    the three appliers come to on one example. */
module WrittenPatch {
  import opened Lines
  import opened Header
  import opened UnifiedDiff
  import RestorePatch
  import SynapticPatch
  import WorkerPatch

  /** A patch and a document as they stand, letter by letter, and what all three appliers
      make of them. */
  lemma WrittenOut(patch: string, lines: seq<string>)
    requires patch == "--- a" + "\n" + ("+++ b" + "\n" + ("@@ -2,2 +2,3 @@ top" + "\n" + (" two" + "\n" + ("-three"
      + "\n" + ("+3" + "\n" + ("+3.5" + "\n" + ("@@ -5 +6 @@" + "\n" + ("-five" + "\n" + "+5"))))))))
    requires lines == ["one", "two", "three", "four", "five", ""]
    ensures SynapticPatch.ApplyText(lines, patch) == ["one", "two", "3", "3.5", "four", "5", ""]
    ensures RestorePatch.ApplyText(lines, patch) == ["one", "two", "3", "3.5", "four", "5", ""]
    ensures WorkerPatch.ApplyText(lines, patch) == ["one", "two", "3", "3.5", "four", "5", ""]
  {
    hide SynapticPatch.ApplyText, RestorePatch.ApplyText, WorkerPatch.ApplyText, PatchText, Patched, Fits, Printable;
    hide WorkerPatch.NoFileHeaders;
    var first := Hunk(2, 2, [Context("two"), Deleted("three"), Added("3"), Added("3.5")], false, " top");
    var second := Hunk(5, 6, [Deleted("five"), Added("5")], true, "");
    WrittenSides();
    WrittenText(first, second);
    WrittenMeaning(lines, first, second);
    WorkerPatch.AppliersAgree(lines, ["--- a", "+++ b"], [first, second]);
  }

  lemma WrittenSides()
    ensures var rows := [Context("two"), Deleted("three"), Added("3"), Added("3.5")];
      OldSide(rows) == ["two", "three"] && NewSide(rows) == ["two", "3", "3.5"]
    ensures var rows := [Deleted("five"), Added("5")];
      OldSide(rows) == ["five"] && NewSide(rows) == ["5"]
  {
    var rows := [Context("two"), Deleted("three"), Added("3"), Added("3.5")];
    assert rows[1..] == [Deleted("three"), Added("3"), Added("3.5")] && rows[1..][1..] == [Added("3"), Added("3.5")];
    assert [Added("3"), Added("3.5")][1..] == [Added("3.5")] && [Added("3.5")][1..] == [];
    assert [Deleted("five"), Added("5")][1..] == [Added("5")] && [Added("5")][1..] == [];
  }

  lemma WrittenRows()
    ensures PrintRows([Context("two"), Deleted("three"), Added("3"), Added("3.5")]) == [" two", "-three", "+3", "+3.5"]
    ensures PrintRows([Deleted("five"), Added("5")]) == ["-five", "+5"]
  {
    assert PrintRow(Context("two")) == " two" && PrintRow(Deleted("three")) == "-three";
    assert PrintRow(Added("3")) == "+3" && PrintRow(Added("3.5")) == "+3.5";
    assert PrintRow(Deleted("five")) == "-five" && PrintRow(Added("5")) == "+5";
    hide PrintRow;
    var rows := [Context("two"), Deleted("three"), Added("3"), Added("3.5")];
    assert rows[1..] == [Deleted("three"), Added("3"), Added("3.5")] && rows[1..][1..] == [Added("3"), Added("3.5")];
    assert PrintRows([Added("3.5")]) == ["+3.5"];
    assert [Added("3"), Added("3.5")][1..] == [Added("3.5")];
    assert PrintRows(rows[1..][1..]) == ["+3", "+3.5"];
    assert PrintRows(rows[1..]) == ["-three", "+3", "+3.5"];
    assert [Deleted("five"), Added("5")][1..] == [Added("5")];
    assert PrintRows([Added("5")]) == ["+5"];
  }

  lemma WrittenRanges()
    ensures PrintRange(Range(2, 2, 2, 3), false) + " top" == "@@ -2,2 +2,3 @@ top"
    ensures PrintRange(Range(5, 1, 6, 1), true) + "" == "@@ -5 +6 @@"
  {
    assert PrintNumber(2) == "2" && PrintNumber(3) == "3" && PrintNumber(5) == "5" && PrintNumber(6) == "6";
    assert PrintCount(2, false) == ",2" && PrintCount(3, false) == ",3" && PrintCount(1, true) == "";
    hide PrintNumber, PrintCount;
    assert "@@ -" + ("2" + (",2" + (" +" + ("2" + (",3" + " @@"))))) == "@@ -2,2 +2,3 @@";
    assert "@@ -" + ("5" + ("" + (" +" + ("6" + ("" + " @@"))))) == "@@ -5 +6 @@";
  }

  lemma WrittenText(first: Hunk, second: Hunk)
    requires first == Hunk(2, 2, [Context("two"), Deleted("three"), Added("3"), Added("3.5")], false, " top")
    requires second == Hunk(5, 6, [Deleted("five"), Added("5")], true, "")
    ensures PatchText(["--- a", "+++ b"], [first, second])
      == "--- a" + "\n" + ("+++ b" + "\n" + ("@@ -2,2 +2,3 @@ top" + "\n" + (" two" + "\n" + ("-three"
      + "\n" + ("+3" + "\n" + ("+3.5" + "\n" + ("@@ -5 +6 @@" + "\n" + ("-five" + "\n" + "+5"))))))))
    ensures IsPreamble(["--- a", "+++ b"]) && Printable([first, second]) && WorkerPatch.NoFileHeaders([first, second])
  {
    hide PrintRange, PrintRows, OldSide, NewSide, Join;
    WrittenSides();
    WrittenRows();
    WrittenRanges();
    assert [first, second][1..] == [second] && [second][1..] == [];
    var head, tail := ["@@ -2,2 +2,3 @@ top"] + [" two", "-three", "+3", "+3.5"], ["@@ -5 +6 @@"] + ["-five", "+5"];
    assert PrintHunk(first) == head && PrintHunk(second) == tail;
    assert PrintHunks([second]) == tail + [] == tail;
    assert PrintHunks([first, second]) == head + tail;
    var rows := ["--- a", "+++ b", "@@ -2,2 +2,3 @@ top", " two", "-three", "+3", "+3.5", "@@ -5 +6 @@", "-five", "+5"];
    assert ["--- a", "+++ b"] + (head + tail) == rows;
    JoinTen(rows);
    WrittenTexts(first, second);
  }

  lemma WrittenTexts(first: Hunk, second: Hunk)
    requires first == Hunk(2, 2, [Context("two"), Deleted("three"), Added("3"), Added("3.5")], false, " top")
    requires second == Hunk(5, 6, [Deleted("five"), Added("5")], true, "")
    ensures IsPreamble(["--- a", "+++ b"]) && Printable([first, second]) && WorkerPatch.NoFileHeaders([first, second])
  {
    assert NewlineFree("--- a") && NewlineFree("+++ b") && NewlineFree(" top") && NewlineFree("two");
    assert NewlineFree("three") && NewlineFree("3") && NewlineFree("3.5") && NewlineFree("five");
    assert NewlineFree("5") && NewlineFree("");
    assert "@@"[0] != "--- a"[0] && "@@"[0] != "+++ b"[0];
    assert forall i :: 0 <= i < 4 ==> first.rows[i].text[0] != '-' && first.rows[i].text[0] != '+';
    assert forall i :: 0 <= i < 2 ==> second.rows[i].text[0] != '-' && second.rows[i].text[0] != '+';
    WrittenPlain(first.rows);
    WrittenPlain(second.rows);
  }

  lemma WrittenPlain(rows: seq<Row>)
    requires forall i :: 0 <= i < |rows| ==> rows[i].text != "" && rows[i].text[0] != '-' && rows[i].text[0] != '+'
    ensures !WorkerPatch.DeletesDashes(rows) && !RestorePatch.AddsPlusPlus(rows)
  {
    assert "--"[0] == '-' && "++"[0] == '+';
  }

  lemma JoinTen(rows: seq<string>)
    requires |rows| == 10
    ensures Join(rows) == rows[0] + "\n" + (rows[1] + "\n" + (rows[2] + "\n" + (rows[3] + "\n" + (rows[4] + "\n"
      + (rows[5] + "\n" + (rows[6] + "\n" + (rows[7] + "\n" + (rows[8] + "\n" + rows[9]))))))))
  {
    JoinFive(rows[5..]);
    assert rows[1..][1..] == rows[2..] && rows[2..][1..] == rows[3..];
    assert rows[3..][1..] == rows[4..] && rows[4..][1..] == rows[5..];
    assert Join(rows[4..]) == rows[4] + "\n" + Join(rows[5..]);
    assert Join(rows[3..]) == rows[3] + "\n" + Join(rows[4..]);
    assert Join(rows[2..]) == rows[2] + "\n" + Join(rows[3..]);
    assert Join(rows[1..]) == rows[1] + "\n" + Join(rows[2..]);
  }

  lemma JoinFive(rows: seq<string>)
    requires |rows| == 5
    ensures Join(rows) == rows[0] + "\n" + (rows[1] + "\n" + (rows[2] + "\n" + (rows[3] + "\n" + rows[4])))
  {
    assert rows[1..][1..] == rows[2..] && rows[2..][1..] == rows[3..] && rows[3..][1..] == rows[4..];
    assert Join(rows[3..]) == rows[3] + "\n" + Join(rows[4..]);
    assert Join(rows[2..]) == rows[2] + "\n" + Join(rows[3..]);
    assert Join(rows[1..]) == rows[1] + "\n" + Join(rows[2..]);
  }

  lemma WrittenMeaning(lines: seq<string>, first: Hunk, second: Hunk)
    requires lines == ["one", "two", "three", "four", "five", ""]
    requires first.oldStart == 2 && OldSide(first.rows) == ["two", "three"]
    requires NewSide(first.rows) == ["two", "3", "3.5"]
    requires second.oldStart == 5 && OldSide(second.rows) == ["five"] && NewSide(second.rows) == ["5"]
    ensures Fits(lines, 0, [first, second])
    ensures Patched(lines, [first, second]) == ["one", "two", "3", "3.5", "four", "5", ""]
  {
    hide OldSide, NewSide;
    assert [first, second][1..] == [second] && [second][1..] == [];
    assert lines[1..3] == ["two", "three"] && lines[4..5] == ["five"] && lines[3..4] == ["four"] && lines[5..] == [""];
    assert Fits(lines, 5, []) && Fits(lines, 3, [second]);
    assert NewSide(second.rows) + [] == ["5"];
    assert PatchedAnd(lines, 3, [second], []) == ["four", "5", ""];
    assert lines[0..1] == ["one"];
  }
}
