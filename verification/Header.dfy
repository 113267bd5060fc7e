/** The hunk header of a unified diff (POSIX.1-2017, `diff`, "Diff -u Output
    Format"): printing it, and the regular expression that reads it back. */
module Header {
  import opened Lines
  import opened Wrappers

  /** The four numbers `-start,count +start,count` of a header. */
  datatype Range = Range(oldStart: nat, oldCount: nat, newStart: nat, newCount: nat)

  predicate IsDigit(c: char) {
    '0' <= c <= '9'
  }

  /** The length of the longest run of digits in front. */
  function DigitRun(s: string): (n: nat)
    ensures n <= |s|
  {
    if s != "" && IsDigit(s[0]) then 1 + DigitRun(s[1..]) else 0
  }

  /** `parseInt` of a run of decimal digits. */
  function ParseInt(s: string): nat {
    if s == "" || !IsDigit(s[|s| - 1]) then 0
    else 10 * ParseInt(s[..|s| - 1]) + (s[|s| - 1] as int - '0' as int)
  }

  /** `(\d+)` in front of `s`: the number and what follows it. */
  function ReadNumber(s: string): Option<(nat, string)> {
    var n := DigitRun(s);
    if n == 0 then None else Some((ParseInt(s[..n]), s[n..]))
  }

  /** `(?:,(\d+))?` with the default 1. */
  function ReadCount(s: string): (nat, string) {
    if StartsWith(s, ",") then
      match ReadNumber(s[1..])
      case Some((n, rest)) => (n, rest)
      case None => (1, s)
    else (1, s)
  }

  function ReadLiteral(s: string, literal: string): Option<string> {
    if StartsWith(s, literal) then Some(s[|literal|..]) else None
  }

  function ReadRange(s: string): Option<((nat, nat), string)> {
    match ReadNumber(s)
    case None => None
    case Some((start, rest)) =>
      var (count, after) := ReadCount(rest);
      Some(((start, count), after))
  }

  /** `/^@@ -(\d+)(?:,(\d+))? \+(\d+)(?:,(\d+))? @@/`. Backtracking never helps:
      after a shorter run of digits, or without the optional count, the next
      character cannot match. */
  function MatchAtStart(s: string): Option<Range> {
    match ReadLiteral(s, "@@ -")
    case None => None
    case Some(s1) =>
      match ReadRange(s1)
      case None => None
      case Some(((os, oc), s2)) =>
        match ReadLiteral(s2, " +")
        case None => None
        case Some(s3) =>
          match ReadRange(s3)
          case None => None
          case Some(((ns, nc), s4)) =>
            if StartsWith(s4, " @@") then Some(Range(os, oc, ns, nc)) else None
  }

  /** The same expression without the anchor: the leftmost match wins. */
  function MatchAnywhere(s: string): Option<Range> {
    match MatchAtStart(s)
    case Some(r) => Some(r)
    case None => if s == "" then None else MatchAnywhere(s[1..])
  }

  // ----- Printing ----------------------------------------------------------

  function Digit(n: nat): char
    requires n < 10
  {
    (n + '0' as int) as char
  }

  function PrintNumber(n: nat): (s: string)
    ensures |s| >= 1
  {
    if n < 10 then [Digit(n)] else PrintNumber(n / 10) + [Digit(n % 10)]
  }

  /** A count of one may be left out of a header. */
  function PrintCount(n: nat, brief: bool): string {
    if brief && n == 1 then "" else "," + PrintNumber(n)
  }

  function PrintRange(r: Range, brief: bool): string {
    "@@ -" + (PrintNumber(r.oldStart) + (PrintCount(r.oldCount, brief)
      + (" +" + (PrintNumber(r.newStart) + (PrintCount(r.newCount, brief) + " @@")))))
  }

  // ----- Reading undoes printing -------------------------------------------

  lemma {:induction false} NumberIsDigits(n: nat)
    ensures DigitRun(PrintNumber(n)) == |PrintNumber(n)|
    ensures ParseInt(PrintNumber(n)) == n
    ensures forall i :: 0 <= i < |PrintNumber(n)| ==> IsDigit(PrintNumber(n)[i])
  {
    var s := PrintNumber(n);
    if n < 10 {
      assert s[..|s| - 1] == "" && s[1..] == "";
    } else {
      NumberIsDigits(n / 10);
      assert s[..|s| - 1] == PrintNumber(n / 10);
      assert IsDigit(s[|s| - 1]);
    }
    RunOfDigits(s, "");
    assert s + "" == s;
  }

  lemma {:induction false} RunOfDigits(s: string, rest: string)
    requires forall i :: 0 <= i < |s| ==> IsDigit(s[i])
    requires rest == "" || !IsDigit(rest[0])
    ensures DigitRun(s + rest) == |s|
  {
    if s == "" {
      assert s + rest == rest;
    } else {
      RunOfDigits(s[1..], rest);
      assert (s + rest)[1..] == s[1..] + rest;
    }
  }

  lemma ReadsNumber(n: nat, rest: string)
    requires rest == "" || !IsDigit(rest[0])
    ensures ReadNumber(PrintNumber(n) + rest) == Some((n, rest))
  {
    var s := PrintNumber(n);
    NumberIsDigits(n);
    RunOfDigits(s, rest);
    assert (s + rest)[..|s|] == s && (s + rest)[|s|..] == rest;
  }

  lemma ReadsLiteral(literal: string, rest: string)
    ensures ReadLiteral(literal + rest, literal) == Some(rest)
  {
  }

  lemma ReadsCount(count: nat, brief: bool, rest: string)
    requires rest != "" && rest[0] == ' '
    ensures ReadCount(PrintCount(count, brief) + rest) == (count, rest)
    ensures !IsDigit((PrintCount(count, brief) + rest)[0])
  {
    if brief && count == 1 {
      assert "" + rest == rest;
    } else {
      ReadsNumber(count, rest);
      assert ("," + PrintNumber(count) + rest)[1..] == PrintNumber(count) + rest;
    }
  }

  lemma ReadsRange(start: nat, count: nat, brief: bool, rest: string)
    requires rest != "" && rest[0] == ' '
    ensures ReadRange(PrintNumber(start) + (PrintCount(count, brief) + rest)) == Some(((start, count), rest))
  {
    ReadsCount(count, brief, rest);
    ReadsNumber(start, PrintCount(count, brief) + rest);
  }

  lemma MatchesRanges(s: string, s1: string, s2: string, s3: string, s4: string, r: Range)
    requires s == "@@ -" + s1 && ReadRange(s1) == Some(((r.oldStart, r.oldCount), s2))
    requires s2 == " +" + s3 && ReadRange(s3) == Some(((r.newStart, r.newCount), s4))
    requires StartsWith(s4, " @@")
    ensures StartsWith(s, "@@") && MatchAtStart(s) == Some(r) == MatchAnywhere(s)
  {
    ReadsLiteral("@@ -", s1);
    ReadsLiteral(" +", s3);
  }

  /** Every printed header, with or without the text that may follow it on its
      line, is read back by both forms of the expression. */
  lemma ReadsPrinted(r: Range, brief: bool, section: string)
    ensures var line := PrintRange(r, brief) + section;
      StartsWith(line, "@@") && MatchAtStart(line) == Some(r) == MatchAnywhere(line)
  {
    var s4 := " @@" + section;
    var s3 := PrintNumber(r.newStart) + (PrintCount(r.newCount, brief) + s4);
    var s2 := " +" + s3;
    var s1 := PrintNumber(r.oldStart) + (PrintCount(r.oldCount, brief) + s2);
    ReadsRange(r.oldStart, r.oldCount, brief, s2);
    ReadsRange(r.newStart, r.newCount, brief, s4);
    PrintedParts(PrintNumber(r.oldStart), PrintCount(r.oldCount, brief),
                 PrintNumber(r.newStart), PrintCount(r.newCount, brief), section);
    MatchesRanges(PrintRange(r, brief) + section, s1, s2, s3, s4, r);
  }

  lemma PrintedParts(os: string, oc: string, ns: string, nc: string, section: string)
    ensures "@@ -" + (os + (oc + (" +" + (ns + (nc + " @@"))))) + section
         == "@@ -" + (os + (oc + (" +" + (ns + (nc + (" @@" + section))))))
  {
  }

  lemma {:induction false} PrintedNumberNewlineFree(n: nat)
    ensures NewlineFree(PrintNumber(n))
  {
    NumberIsDigits(n);
  }

  lemma PrintedNewlineFree(r: Range, brief: bool)
    ensures NewlineFree(PrintRange(r, brief))
  {
    PrintedNumberNewlineFree(r.oldStart);
    PrintedNumberNewlineFree(r.oldCount);
    PrintedNumberNewlineFree(r.newStart);
    PrintedNumberNewlineFree(r.newCount);
  }

  // ----- Exactly what the expression matches -----------------------------------

  /** `\d+` */
  ghost predicate Digits(s: string) {
    s != "" && forall i :: 0 <= i < |s| ==> '0' <= s[i] <= '9'
  }

  /** `(?:,(\d+))?` */
  ghost predicate OptionalCount(s: string) {
    s == "" || (s[0] == ',' && Digits(s[1..]))
  }

  function CountOf(s: string): nat {
    if s == "" then 1 else ParseInt(s[1..])
  }

  function RangeFrom(os: string, oc: string, ns: string, nc: string): Range {
    Range(ParseInt(os), CountOf(oc), ParseInt(ns), CountOf(nc))
  }

  /** The parts of a header and what follows it. */
  ghost predicate IsHeader(s: string, os: string, oc: string, ns: string, nc: string, rest: string) {
    && Digits(os) && OptionalCount(oc) && Digits(ns) && OptionalCount(nc)
    && s == "@@ -" + (os + (oc + (" +" + (ns + (nc + (" @@" + rest))))))
  }

  lemma ReadsDigits(d: string, rest: string)
    requires Digits(d) && (rest == "" || !IsDigit(rest[0]))
    ensures ReadNumber(d + rest) == Some((ParseInt(d), rest))
  {
    RunOfDigits(d, rest);
    assert (d + rest)[..|d|] == d && (d + rest)[|d|..] == rest;
  }

  lemma ReadsCountText(oc: string, rest: string)
    requires OptionalCount(oc) && rest != "" && rest[0] == ' '
    ensures ReadCount(oc + rest) == (CountOf(oc), rest) && !IsDigit((oc + rest)[0])
  {
    hide ReadNumber, ParseInt, Digits;
    if oc == "" {
      assert oc + rest == rest;
    } else {
      assert (oc + rest)[1..] == oc[1..] + rest;
      assert (oc + rest)[..1] == ",";
      ReadsDigits(oc[1..], rest);
    }
  }

  lemma ReadsRangeText(os: string, oc: string, rest: string)
    requires Digits(os) && OptionalCount(oc) && rest != "" && rest[0] == ' '
    ensures ReadRange(os + (oc + rest)) == Some(((ParseInt(os), CountOf(oc)), rest))
  {
    hide ReadNumber, ReadCount, ParseInt, CountOf, Digits, OptionalCount, IsDigit;
    ReadsCountText(oc, rest);
    ReadsDigits(os, oc + rest);
  }

  lemma HeaderMatches(s: string, os: string, oc: string, ns: string, nc: string, rest: string)
    requires IsHeader(s, os, oc, ns, nc, rest)
    ensures MatchAtStart(s) == Some(RangeFrom(os, oc, ns, nc))
  {
    hide ReadRange, ParseInt, CountOf;
    var s4 := " @@" + rest;
    var s2 := " +" + (ns + (nc + s4));
    ReadsRangeText(os, oc, s2);
    ReadsRangeText(ns, nc, s4);
    MatchesRanges(s, os + (oc + s2), s2, ns + (nc + s4), s4, RangeFrom(os, oc, ns, nc));
  }

  lemma {:induction false} RunIsDigits(s: string)
    ensures forall i :: 0 <= i < DigitRun(s) ==> IsDigit(s[i])
  {
    if s != "" && IsDigit(s[0]) { RunIsDigits(s[1..]); }
  }

  lemma NumberText(s: string) returns (d: string, rest: string)
    requires ReadNumber(s).Some?
    ensures Digits(d) && s == d + rest && ReadNumber(s) == Some((ParseInt(d), rest))
  {
    RunIsDigits(s);
    d, rest := s[..DigitRun(s)], s[DigitRun(s)..];
  }

  lemma RangeText(s: string) returns (os: string, oc: string, rest: string)
    requires ReadRange(s).Some?
    ensures Digits(os) && OptionalCount(oc) && s == os + (oc + rest)
    ensures ReadRange(s) == Some(((ParseInt(os), CountOf(oc)), rest))
  {
    var after;
    os, after := NumberText(s);
    oc, rest := "", after;
    if StartsWith(after, ",") && ReadNumber(after[1..]).Some? {
      var d;
      d, rest := NumberText(after[1..]);
      oc := "," + d;
      assert oc[1..] == d && after == oc + rest;
    }
  }

  /** The anchored expression matches exactly the rows that begin with a header, and
      yields its four numbers, with 1 for a count that is left out. */
  lemma MatchesExactly(s: string, r: Range)
    ensures MatchAtStart(s) == Some(r)
       <==> exists os, oc, ns, nc, rest :: IsHeader(s, os, oc, ns, nc, rest)
              && r == RangeFrom(os, oc, ns, nc)
  {
    hide ReadRange, ParseInt, CountOf, IsHeader;
    if os, oc, ns, nc, rest :| IsHeader(s, os, oc, ns, nc, rest) && r == RangeFrom(os, oc, ns, nc) {
      HeaderMatches(s, os, oc, ns, nc, rest);
    }
    if MatchAtStart(s) == Some(r) {
      var os, oc, ns, nc, rest := HeaderText(s);
    }
  }

  lemma HeaderText(s: string) returns (os: string, oc: string, ns: string, nc: string, rest: string)
    requires MatchAtStart(s).Some?
    ensures IsHeader(s, os, oc, ns, nc, rest)
    ensures MatchAtStart(s) == Some(RangeFrom(os, oc, ns, nc))
  {
    hide ReadRange, ParseInt, CountOf, Digits, OptionalCount;
    var s1 := s[4..];
    var s2, s4;
    os, oc, s2 := RangeText(s1);
    var s3 := s2[2..];
    ns, nc, s4 := RangeText(s3);
    rest := s4[3..];
    assert s == "@@ -" + s1 && s2 == " +" + s3 && s4 == " @@" + rest;
  }

  /** The expression without the anchor finds the leftmost header. */
  lemma {:induction false} MatchesLeftmost(s: string, r: Range)
    ensures MatchAnywhere(s) == Some(r)
       <==> exists i :: 0 <= i <= |s| && MatchAtStart(s[i..]) == Some(r)
              && forall j :: 0 <= j < i ==> MatchAtStart(s[j..]).None?
  {
    hide MatchAtStart;
    assert s[0..] == s;
    if s != "" {
      MatchesLeftmost(s[1..], r);
      assert forall i :: 0 < i <= |s| ==> s[i..] == s[1..][i - 1..];
      assert forall i :: 0 <= i <= |s[1..]| ==> s[1..][i..] == s[i + 1..];
    } else {
      NothingMatches();
    }
  }

  lemma NothingMatches()
    ensures MatchAtStart("").None?
  {
  }

  /** Numbers are read in the decimal way. */
  lemma DecimalDigits()
    ensures ParseInt("0") == 0 && ParseInt("1") == 1 && ParseInt("2") == 2 && ParseInt("3") == 3 && ParseInt("4") == 4
    ensures ParseInt("5") == 5 && ParseInt("6") == 6 && ParseInt("7") == 7 && ParseInt("8") == 8 && ParseInt("9") == 9
    ensures ParseInt("10") == 10 && ParseInt("907") == 907
  {
    assert "10"[..1] == "1" && "907"[..2] == "90" && "90"[..1] == "9";
  }
}
