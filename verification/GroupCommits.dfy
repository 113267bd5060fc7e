/** Impact totals of commits per time bucket and category. */
module GroupCommits {
  import opened Header

  /** A commit date as the formatter reads it, in local time. */
  datatype Stamp = Stamp(year: nat, month: nat, day: nat, hour: nat, minute: nat) {
    ghost predicate Valid() {
      1 <= month <= 12 && 1 <= day <= 31 && hour < 24 && minute < 60
    }
  }

  datatype Commit = Commit(date: Stamp, primary: int, impact: int)

  datatype TimeUnit = Day | Hour | Quarter | Five

  // ----- Keys ----------------------------------------------------------------

  /** `padStart(width, "0")` */
  function Pad(s: string, width: nat): string
    decreases width - |s|
  {
    if |s| >= width then s else Pad("0" + s, width)
  }

  function Two(n: nat): string {
    Pad(PrintNumber(n), 2)
  }

  /** `format("MM-DD HH:")` */
  function HourPrefix(d: Stamp): string {
    Two(d.month) + "-" + Two(d.day) + " " + Two(d.hour) + ":"
  }

  function Key(u: TimeUnit, d: Stamp): string {
    match u
    case Day => Pad(PrintNumber(d.year), 4) + "-" + Two(d.month) + "-" + Two(d.day)
    case Hour => HourPrefix(d) + "00"
    case Quarter => HourPrefix(d) + Two(d.minute / 15 * 15)
    case Five => HourPrefix(d) + Two(d.minute / 5 * 5)
  }

  // ----- Totals ----------------------------------------------------------------

  /** The impact of the commits with one key and one category. */
  function Total(commits: seq<Commit>, u: TimeUnit, key: string, bucket: int): int {
    if commits == [] then 0
    else
      var c := commits[|commits| - 1];
      Total(commits[..|commits| - 1], u, key, bucket)
      + (if Key(u, c.date) == key && c.primary == bucket then c.impact else 0)
  }

  function BucketTotal(commits: seq<Commit>, bucket: int): int {
    if commits == [] then 0
    else
      var c := commits[|commits| - 1];
      BucketTotal(commits[..|commits| - 1], bucket) + (if c.primary == bucket then c.impact else 0)
  }

  ghost predicate Occurs(commits: seq<Commit>, u: TimeUnit, key: string, bucket: int) {
    exists i :: 0 <= i < |commits| && Key(u, commits[i].date) == key && commits[i].primary == bucket
  }

  /** The table holds a total for every pair that occurs, and nothing else. */
  ghost predicate IsTable(res: map<string, map<int, int>>, commits: seq<Commit>, u: TimeUnit) {
    && (forall k <- res :: exists i :: 0 <= i < |commits| && Key(u, commits[i].date) == k)
    && (forall i :: 0 <= i < |commits| ==> Key(u, commits[i].date) in res)
    && (forall k <- res, b: int :: b in res[k] <==> Occurs(commits, u, k, b))
    && (forall k <- res :: forall b <- res[k] :: res[k][b] == Total(commits, u, k, b))
  }

  method GroupCommits(commits: seq<Commit>, u: TimeUnit) returns (res: map<string, map<int, int>>)
    ensures IsTable(res, commits, u)
  {
    hide Key;
    res := map[];
    assert commits[..0] == [];
    for n := 0 to |commits|
      invariant IsTable(res, commits[..n], u)
    {
      var c := commits[n];
      var k := Key(u, c.date);
      ghost var before := res;
      if k !in res {
        res := res[k := map[]];
      }
      var sum := (if c.primary in res[k] then res[k][c.primary] else 0) + c.impact;
      res := res[k := res[k][c.primary := sum]];
      TableGrows(before, res, commits, n, u);
    }
    assert commits[..|commits|] == commits;
  }

  lemma {:induction false} NoTotal(commits: seq<Commit>, u: TimeUnit, key: string, bucket: int)
    requires !Occurs(commits, u, key, bucket)
    ensures Total(commits, u, key, bucket) == 0
  {
    if commits != [] {
      var n := |commits| - 1;
      assert forall i :: 0 <= i < n ==> commits[..n][i] == commits[i];
      NoTotal(commits[..n], u, key, bucket);
    }
  }

  lemma OccursStep(commits: seq<Commit>, n: nat, u: TimeUnit, key: string, bucket: int)
    requires n < |commits|
    ensures Occurs(commits[..n + 1], u, key, bucket)
       <==> Occurs(commits[..n], u, key, bucket) || (Key(u, commits[n].date) == key && commits[n].primary == bucket)
    ensures Total(commits[..n + 1], u, key, bucket) == Total(commits[..n], u, key, bucket)
          + (if Key(u, commits[n].date) == key && commits[n].primary == bucket then commits[n].impact else 0)
  {
    var old', new' := commits[..n], commits[..n + 1];
    assert new'[..n] == old' && new'[n] == commits[n];
    if Occurs(old', u, key, bucket) {
      var i :| 0 <= i < n && Key(u, old'[i].date) == key && old'[i].primary == bucket;
      assert new'[i] == old'[i];
    }
    if Occurs(new', u, key, bucket) {
      var i :| 0 <= i <= n && Key(u, new'[i].date) == key && new'[i].primary == bucket;
      assert i < n ==> old'[i] == new'[i];
    }
  }

  lemma TableGrows(before: map<string, map<int, int>>, res: map<string, map<int, int>>, commits: seq<Commit>, n: nat,
                   u: TimeUnit)
    requires n < |commits| && IsTable(before, commits[..n], u)
    requires var c := commits[n];
      var k := Key(u, c.date);
      var row := if k in before then before[k] else map[];
      res == before[k := row[c.primary := (if c.primary in row then row[c.primary] else 0) + c.impact]]
    ensures IsTable(res, commits[..n + 1], u)
  {
    hide Key, Total, Occurs;
    var c := commits[n];
    var key, old', new' := Key(u, c.date), commits[..n], commits[..n + 1];
    assert new'[n] == c;
    assert forall i :: 0 <= i < n ==> new'[i] == old'[i];
    forall k <- res ensures exists i :: 0 <= i < |new'| && Key(u, new'[i].date) == k {
      if k != key {
        var i :| 0 <= i < |old'| && Key(u, old'[i].date) == k;
        assert Key(u, new'[i].date) == k;
      } else {
        assert Key(u, new'[n].date) == k;
      }
    }
    forall k <- res, b: int
      ensures b in res[k] <==> Occurs(new', u, k, b)
      ensures b in res[k] ==> res[k][b] == Total(new', u, k, b)
    {
      OccursStep(commits, n, u, k, b);
      if k !in before {
        if Occurs(old', u, k, b) { OccursKey(old', u, k, b); }
        NoTotal(old', u, k, b);
      } else if b !in before[k] {
        NoTotal(old', u, k, b);
      }
    }
  }

  lemma OccursKey(commits: seq<Commit>, u: TimeUnit, key: string, bucket: int)
    requires Occurs(commits, u, key, bucket)
    ensures exists i :: 0 <= i < |commits| && Key(u, commits[i].date) == key
  {
  }

  // ----- Conservation and roll-up ----------------------------------------------

  ghost predicate Distinct(keys: seq<string>) {
    forall i, j :: 0 <= i < j < |keys| ==> keys[i] != keys[j]
  }

  function SumOver(commits: seq<Commit>, u: TimeUnit, keys: seq<string>, bucket: int): int {
    if keys == [] then 0
    else Total(commits, u, keys[0], bucket) + SumOver(commits, u, keys[1..], bucket)
  }

  function Once(c: Commit, u: TimeUnit, keys: seq<string>, bucket: int): int {
    if c.primary == bucket && Key(u, c.date) in keys then c.impact else 0
  }

  lemma {:induction false} SumOverSnoc(commits: seq<Commit>, u: TimeUnit, keys: seq<string>, bucket: int)
    requires commits != [] && Distinct(keys)
    ensures SumOver(commits, u, keys, bucket)
         == SumOver(commits[..|commits| - 1], u, keys, bucket) + Once(commits[|commits| - 1], u, keys, bucket)
    decreases |keys|
  {
    hide Key;
    if keys != [] {
      assert Distinct(keys[1..]) by {
        forall i, j | 0 <= i < j < |keys[1..]| ensures keys[1..][i] != keys[1..][j] {
          assert keys[1..][i] == keys[i + 1] && keys[1..][j] == keys[j + 1];
        }
      }
      SumOverSnoc(commits, u, keys[1..], bucket);
      assert keys[0] !in keys[1..] by {
        forall j | 0 <= j < |keys[1..]| ensures keys[1..][j] != keys[0] { assert keys[1..][j] == keys[j + 1]; }
      }
      assert forall k :: k in keys <==> k == keys[0] || k in keys[1..];
    }
  }

  lemma {:induction false} SumOverNothing(u: TimeUnit, keys: seq<string>, bucket: int)
    ensures SumOver([], u, keys, bucket) == 0
  {
    if keys != [] { SumOverNothing(u, keys[1..], bucket); }
  }

  /** Nothing is lost or counted twice: over all keys of a unit the totals of a
      category add up to its total impact. */
  lemma {:induction false} Conservation(commits: seq<Commit>, u: TimeUnit, keys: seq<string>, bucket: int)
    requires Distinct(keys) && forall i :: 0 <= i < |commits| ==> Key(u, commits[i].date) in keys
    ensures SumOver(commits, u, keys, bucket) == BucketTotal(commits, bucket)
  {
    hide Key;
    if commits == [] {
      SumOverNothing(u, keys, bucket);
    } else {
      var n := |commits| - 1;
      SumOverSnoc(commits, u, keys, bucket);
      assert forall i :: 0 <= i < n ==> commits[..n][i] == commits[i];
      Conservation(commits[..n], u, keys, bucket);
    }
  }

  /** The fine keys are those of the commits under one coarse key. */
  ghost predicate KeysUnder(commits: seq<Commit>, fine: TimeUnit, coarse: TimeUnit, key: string, keys: seq<string>) {
    && Distinct(keys)
    && (forall k <- keys ::
          exists i :: 0 <= i < |commits| && Key(fine, commits[i].date) == k && Key(coarse, commits[i].date) == key)
    && forall i :: 0 <= i < |commits| && Key(coarse, commits[i].date) == key ==> Key(fine, commits[i].date) in keys
  }

  lemma {:induction false} SumsUp(commits: seq<Commit>, fine: TimeUnit, coarse: TimeUnit, key: string,
                                  keys: seq<string>, bucket: int)
    requires Distinct(keys)
    requires forall i :: 0 <= i < |commits| ==>
      (Key(coarse, commits[i].date) == key <==> Key(fine, commits[i].date) in keys)
    ensures SumOver(commits, fine, keys, bucket) == Total(commits, coarse, key, bucket)
  {
    hide Key;
    if commits == [] {
      SumOverNothing(fine, keys, bucket);
    } else {
      var n := |commits| - 1;
      SumOverSnoc(commits, fine, keys, bucket);
      assert forall i :: 0 <= i < n ==> commits[..n][i] == commits[i];
      SumsUp(commits[..n], fine, coarse, key, keys, bucket);
    }
  }

  // ----- Finer keys decide coarser ones ----------------------------------------

  lemma TwoDigits(n: nat)
    requires n < 100
    ensures |Two(n)| == 2 && ParseInt(Two(n)) == n
  {
    NumberIsDigits(n);
    var s := PrintNumber(n);
    if n < 10 {
      assert Pad(s, 2) == "0" + s;
      assert ("0" + s)[..1] == "0" && "0"[..0] == "";
    } else {
      assert PrintNumber(n / 10) == [Digit(n / 10)];
    }
  }

  lemma PrefixLength(d: Stamp)
    requires d.Valid()
    ensures |HourPrefix(d)| == 9
  {
    TwoDigits(d.month);
    TwoDigits(d.day);
    TwoDigits(d.hour);
  }

  lemma SplitKey(a: string, b: string, x: string, y: string)
    requires |a| == |b| && a + x == b + y
    ensures a == b && x == y
  {
    assert (a + x)[..|a|] == a && (b + y)[..|b|] == b;
    assert (a + x)[|a|..] == x && (b + y)[|b|..] == y;
  }

  /** Equal 5-minute keys mean equal 15-minute keys, and these equal hour keys. */
  lemma Refines(d: Stamp, e: Stamp)
    requires d.Valid() && e.Valid()
    ensures Key(Five, d) == Key(Five, e) ==> Key(Quarter, d) == Key(Quarter, e)
    ensures Key(Quarter, d) == Key(Quarter, e) ==> Key(Hour, d) == Key(Hour, e)
  {
    PrefixLength(d);
    PrefixLength(e);
    if Key(Quarter, d) == Key(Quarter, e) {
      SplitKey(HourPrefix(d), HourPrefix(e), Two(d.minute / 15 * 15), Two(e.minute / 15 * 15));
    }
    if Key(Five, d) == Key(Five, e) {
      SplitKey(HourPrefix(d), HourPrefix(e), Two(d.minute / 5 * 5), Two(e.minute / 5 * 5));
      TwoDigits(d.minute / 5 * 5);
      TwoDigits(e.minute / 5 * 5);
      assert d.minute / 5 == e.minute / 5;
      assert d.minute / 15 == d.minute / 5 / 3 && e.minute / 15 == e.minute / 5 / 3;
    }
  }

  ghost predicate Finer(fine: TimeUnit, coarse: TimeUnit) {
    (fine == Five && coarse == Quarter) || (fine == Quarter && coarse == Hour)
  }

  /** Every 15-minute total is the sum of its 5-minute totals, and every hour total
      the sum of its 15-minute totals. */
  lemma RollUp(commits: seq<Commit>, fine: TimeUnit, coarse: TimeUnit, key: string, keys: seq<string>, bucket: int)
    requires Finer(fine, coarse) && KeysUnder(commits, fine, coarse, key, keys)
    requires forall i :: 0 <= i < |commits| ==> commits[i].date.Valid()
    ensures SumOver(commits, fine, keys, bucket) == Total(commits, coarse, key, bucket)
  {
    forall i | 0 <= i < |commits|
      ensures Key(coarse, commits[i].date) == key <==> Key(fine, commits[i].date) in keys
    {
      var k := Key(fine, commits[i].date);
      if k in keys {
        var j :| 0 <= j < |commits| && Key(fine, commits[j].date) == k && Key(coarse, commits[j].date) == key;
        Refines(commits[i].date, commits[j].date);
      }
    }
    SumsUp(commits, fine, coarse, key, keys, bucket);
  }

  lemma PadInjective(n: nat, m: nat)
    requires n < 10000 && m < 10000 && Pad(PrintNumber(n), 4) == Pad(PrintNumber(m), 4)
    ensures n == m
  {
    NumberIsDigits(n);
    NumberIsDigits(m);
    PadKeepsNumber(PrintNumber(n), 4);
    PadKeepsNumber(PrintNumber(m), 4);
  }

  lemma {:induction false} PadKeepsNumber(s: string, width: nat)
    requires forall i :: 0 <= i < |s| ==> IsDigit(s[i])
    ensures ParseInt(Pad(s, width)) == ParseInt(s)
    decreases width - |s|
  {
    if |s| < width {
      LeadingZero(s);
      PadKeepsNumber("0" + s, width);
    }
  }

  lemma {:induction false} LeadingZero(s: string)
    requires forall i :: 0 <= i < |s| ==> IsDigit(s[i])
    ensures ParseInt("0" + s) == ParseInt(s)
  {
    if s == "" {
      assert ("0" + s)[..0] == "";
    } else {
      LeadingZero(s[..|s| - 1]);
      assert ("0" + s)[..|s|] == "0" + s[..|s| - 1];
    }
  }

  lemma {:induction false} PadLength(s: string, width: nat)
    requires |s| <= width
    ensures |Pad(s, width)| == width
    decreases width - |s|
  {
    if |s| < width { PadLength("0" + s, width); }
  }

  lemma YearDigits(n: nat)
    requires n < 10000
    ensures |PrintNumber(n)| <= 4
  {
    var a := n / 10;
    var b := a / 10;
    var c := b / 10;
    assert |PrintNumber(c)| == 1;
    assert |PrintNumber(b)| <= 2;
    assert |PrintNumber(a)| <= 3;
  }

  lemma FourDigits(year: nat)
    requires year < 10000
    ensures |Pad(PrintNumber(year), 4)| == 4
  {
    YearDigits(year);
    PadLength(PrintNumber(year), 4);
  }

  /** Hours do not roll up to days: the same hour of two years has one hour key but
      two day keys. */
  lemma HoursForgetYear(d: Stamp, year: nat)
    requires d.year < 10000 && year < 10000
    ensures Key(Hour, d) == Key(Hour, d.(year := year))
    ensures Key(Day, d) == Key(Day, d.(year := year)) <==> d.year == year
  {
    var e := d.(year := year);
    if Key(Day, d) == Key(Day, e) {
      FourDigits(d.year);
      FourDigits(year);
      var rest := "-" + (Two(d.month) + ("-" + Two(d.day)));
      assert Key(Day, d) == Pad(PrintNumber(d.year), 4) + rest && Key(Day, e) == Pad(PrintNumber(year), 4) + rest;
      SplitKey(Pad(PrintNumber(d.year), 4), Pad(PrintNumber(year), 4), rest, rest);
      PadInjective(d.year, year);
    }
  }

  lemma TwoInjective(n: nat, m: nat)
    requires n < 100 && m < 100
    ensures Two(n) == Two(m) <==> n == m
  {
    TwoDigits(n);
    TwoDigits(m);
  }

  /** An hour key names month, day and hour. */
  lemma HourKey(d: Stamp, e: Stamp)
    requires d.Valid() && e.Valid()
    ensures Key(Hour, d) == Key(Hour, e) <==> d.month == e.month && d.day == e.day && d.hour == e.hour
  {
    hide Two;
    TwoDigits(d.month); TwoDigits(d.day); TwoDigits(d.hour);
    TwoDigits(e.month); TwoDigits(e.day); TwoDigits(e.hour);
    var k, l := Key(Hour, d), Key(Hour, e);
    assert k[0..2] == Two(d.month) && k[3..5] == Two(d.day) && k[6..8] == Two(d.hour);
    assert l[0..2] == Two(e.month) && l[3..5] == Two(e.day) && l[6..8] == Two(e.hour);
    TwoInjective(d.month, e.month);
    TwoInjective(d.day, e.day);
    TwoInjective(d.hour, e.hour);
  }

  /** A day key names year, month and day. */
  lemma DayKey(d: Stamp, e: Stamp)
    requires d.Valid() && e.Valid() && d.year < 10000 && e.year < 10000
    ensures Key(Day, d) == Key(Day, e) <==> d.year == e.year && d.month == e.month && d.day == e.day
  {
    hide Two, Pad;
    FourDigits(d.year); TwoDigits(d.month); TwoDigits(d.day);
    FourDigits(e.year); TwoDigits(e.month); TwoDigits(e.day);
    var k, l := Key(Day, d), Key(Day, e);
    assert k[0..4] == Pad(PrintNumber(d.year), 4) && k[5..7] == Two(d.month) && k[8..10] == Two(d.day);
    assert l[0..4] == Pad(PrintNumber(e.year), 4) && l[5..7] == Two(e.month) && l[8..10] == Two(e.day);
    TwoInjective(d.month, e.month);
    TwoInjective(d.day, e.day);
    if k == l { PadInjective(d.year, e.year); }
  }

  /** The same month and day in another year. */
  predicate OtherYear(c: Stamp, d: Stamp) {
    c.month == d.month && c.day == d.day && c.year != d.year
  }

  /** The impact of the commits of other years that share an hour key with the day. */
  function OtherYears(commits: seq<Commit>, d: Stamp, keys: seq<string>, bucket: int): int {
    if commits == [] then 0
    else
      var c := commits[|commits| - 1];
      OtherYears(commits[..|commits| - 1], d, keys, bucket)
      + (if OtherYear(c.date, d) && Key(Hour, c.date) in keys && c.primary == bucket then c.impact else 0)
  }

  /** What hours do roll up to: the totals of a day's hour keys add up to the total of
      the day and the impact of the same hours in other years. */
  lemma HoursOfDay(commits: seq<Commit>, d: Stamp, keys: seq<string>, bucket: int)
    requires d.Valid() && d.year < 10000
    requires forall i :: 0 <= i < |commits| ==> commits[i].date.Valid() && commits[i].date.year < 10000
    requires KeysUnder(commits, Hour, Day, Key(Day, d), keys)
    ensures SumOver(commits, Hour, keys, bucket)
         == Total(commits, Day, Key(Day, d), bucket) + OtherYears(commits, d, keys, bucket)
  {
    hide Key;
    forall i | 0 <= i < |commits| ensures DaySplits(commits[i].date, d, keys) {
      var c := commits[i].date;
      DayKey(c, d);
      if Key(Hour, c) in keys {
        var k := Key(Hour, c);
        var j :| 0 <= j < |commits| && Key(Hour, commits[j].date) == k && Key(Day, commits[j].date) == Key(Day, d);
        HourKey(c, commits[j].date);
        DayKey(commits[j].date, d);
      }
    }
    HoursAddUp(commits, d, keys, bucket);
  }

  /** A date with one of the hour keys is of the day or of another year, not of both. */
  ghost predicate DaySplits(c: Stamp, d: Stamp, keys: seq<string>) {
    && (Key(Day, c) == Key(Day, d) ==> !OtherYear(c, d) && Key(Hour, c) in keys)
    && (Key(Hour, c) in keys ==> Key(Day, c) == Key(Day, d) || OtherYear(c, d))
  }

  lemma {:induction false} HoursAddUp(commits: seq<Commit>, d: Stamp, keys: seq<string>, bucket: int)
    requires Distinct(keys) && forall i :: 0 <= i < |commits| ==> DaySplits(commits[i].date, d, keys)
    ensures SumOver(commits, Hour, keys, bucket)
         == Total(commits, Day, Key(Day, d), bucket) + OtherYears(commits, d, keys, bucket)
  {
    hide Key;
    if commits == [] {
      SumOverNothing(Hour, keys, bucket);
    } else {
      var n := |commits| - 1;
      SumOverSnoc(commits, Hour, keys, bucket);
      assert DaySplits(commits[n].date, d, keys);
      assert forall i :: 0 <= i < n ==> commits[..n][i] == commits[i];
      HoursAddUp(commits[..n], d, keys, bucket);
    }
  }

  // ----- What a key says -------------------------------------------------------

  lemma TwoIsDigits(n: nat)
    requires n < 100
    ensures |Two(n)| == 2 && IsDigit(Two(n)[0]) && IsDigit(Two(n)[1]) && ParseInt(Two(n)) == n
  {
    TwoDigits(n);
    NumberIsDigits(n);
    if n < 10 {
      assert Pad(PrintNumber(n), 2) == "0" + PrintNumber(n);
    } else {
      assert PrintNumber(n / 10) == [Digit(n / 10)];
    }
  }

  /** The minute that stands for its hour, quarter or five minutes. */
  function StartOf(u: TimeUnit, minute: nat): nat {
    match u
    case Day => 0
    case Hour => 0
    case Quarter => minute - minute % 15
    case Five => minute - minute % 5
  }

  /** The text of an hour, quarter or five-minute key: `MM-DD HH:mm`. */
  lemma MinuteKeyText(u: TimeUnit, d: Stamp)
    requires d.Valid() && u != Day
    ensures var k := Key(u, d);
      && |k| == 11 && k[2] == '-' && k[5] == ' ' && k[8] == ':'
      && (forall i :: 0 <= i < 11 && i != 2 && i != 5 && i != 8 ==> IsDigit(k[i]))
      && ParseInt(k[0..2]) == d.month && ParseInt(k[3..5]) == d.day && ParseInt(k[6..8]) == d.hour
      && ParseInt(k[9..11]) == StartOf(u, d.minute)
  {
    hide Two, ParseInt, IsDigit;
    var k, m := Key(u, d), StartOf(u, d.minute);
    MinutePart(u, d);
    TwoIsDigits(d.month);
    TwoIsDigits(d.day);
    TwoIsDigits(d.hour);
    TwoIsDigits(m);
    assert k == Two(d.month) + "-" + Two(d.day) + " " + Two(d.hour) + ":" + Two(m);
    assert k[0..2] == Two(d.month) && k[3..5] == Two(d.day) && k[6..8] == Two(d.hour) && k[9..11] == Two(m);
    assert k[0] == k[0..2][0] && k[1] == k[0..2][1] && k[3] == k[3..5][0] && k[4] == k[3..5][1];
    assert k[6] == k[6..8][0] && k[7] == k[6..8][1] && k[9] == k[9..11][0] && k[10] == k[9..11][1];
  }

  lemma MinutePart(u: TimeUnit, d: Stamp)
    requires d.Valid() && u != Day
    ensures Key(u, d) == HourPrefix(d) + Two(StartOf(u, d.minute)) && StartOf(u, d.minute) < 60
  {
    assert d.minute / 15 * 15 == d.minute - d.minute % 15 && d.minute / 5 * 5 == d.minute - d.minute % 5;
    assert Two(0) == "00" by {
      assert PrintNumber(0) == "0" && Pad("0", 2) == "0" + "0";
    }
  }

  /** The text of a day key: `YYYY-MM-DD`. */
  lemma DayKeyText(d: Stamp)
    requires d.Valid() && d.year < 10000
    ensures var k := Key(Day, d);
      && |k| == 10 && k[4] == '-' && k[7] == '-'
      && (forall i :: 0 <= i < 10 && i != 4 && i != 7 ==> IsDigit(k[i]))
      && ParseInt(k[0..4]) == d.year && ParseInt(k[5..7]) == d.month && ParseInt(k[8..10]) == d.day
  {
    hide Two, Pad, ParseInt, IsDigit;
    var k, y := Key(Day, d), Pad(PrintNumber(d.year), 4);
    FourDigits(d.year);
    NumberIsDigits(d.year);
    PadKeepsNumber(PrintNumber(d.year), 4);
    PadIsDigits(PrintNumber(d.year), 4);
    TwoIsDigits(d.month);
    TwoIsDigits(d.day);
    assert k == y + "-" + Two(d.month) + "-" + Two(d.day);
    assert k[0..4] == y && k[5..7] == Two(d.month) && k[8..10] == Two(d.day);
    assert k[5] == k[5..7][0] && k[6] == k[5..7][1] && k[8] == k[8..10][0] && k[9] == k[8..10][1];
    assert forall i :: 0 <= i < 4 ==> k[i] == y[i];
  }

  lemma {:induction false} PadIsDigits(s: string, width: nat)
    requires forall i :: 0 <= i < |s| ==> IsDigit(s[i])
    ensures forall i :: 0 <= i < |Pad(s, width)| ==> IsDigit(Pad(s, width)[i])
    decreases width - |s|
  {
    if |s| < width { PadIsDigits("0" + s, width); }
  }

  /** Which minutes share a quarter or five-minute key. */
  lemma MinuteKeys(d: Stamp, e: Stamp)
    requires d.Valid() && e.Valid()
    ensures Key(Quarter, d) == Key(Quarter, e)
       <==> d.month == e.month && d.day == e.day && d.hour == e.hour && d.minute / 15 == e.minute / 15
    ensures Key(Five, d) == Key(Five, e)
       <==> d.month == e.month && d.day == e.day && d.hour == e.hour && d.minute / 5 == e.minute / 5
  {
    hide Key, ParseInt;
    MinuteKeyText(Quarter, d);
    MinuteKeyText(Quarter, e);
    MinuteKeyText(Five, d);
    MinuteKeyText(Five, e);
    SameMinuteKey(d, e);
  }

  lemma SameMinuteKey(d: Stamp, e: Stamp)
    ensures d.month == e.month && d.day == e.day && d.hour == e.hour && d.minute / 15 == e.minute / 15 ==>
      Key(Quarter, d) == Key(Quarter, e)
    ensures d.month == e.month && d.day == e.day && d.hour == e.hour && d.minute / 5 == e.minute / 5 ==>
      Key(Five, d) == Key(Five, e)
  {
  }
}
