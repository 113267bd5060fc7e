/** The word edit distance of the viewer: a two-row dynamic programme over the
    words of two texts, proved to count the fewest single-word edits. */
module EditDistance {

  // ----- Words -----------------------------------------------------------

  /** The characters matched by `\s` in a JavaScript regular expression. */
  predicate IsSpace(c: char) {
    || '\t' <= c <= '\r' || c == ' ' || c == '\U{00A0}' || c == '\U{1680}'
    || '\U{2000}' <= c <= '\U{200A}' || c == '\U{2028}' || c == '\U{2029}'
    || c == '\U{202F}' || c == '\U{205F}' || c == '\U{3000}' || c == '\U{FEFF}'
  }

  function SkipSpaces(s: string): (rest: string)
    ensures |rest| <= |s|
  {
    if s != "" && IsSpace(s[0]) then SkipSpaces(s[1..]) else s
  }

  /** `s.split(/\s+/)`: never empty, and a text that begins or ends with white
      space begins or ends with an empty word. */
  function Words(s: string): (words: seq<string>)
    ensures |words| >= 1
    decreases |s|
  {
    if s == "" then [""]
    else if IsSpace(s[0]) then [""] + Words(SkipSpaces(s[1..]))
    else
      var rest := Words(s[1..]);
      [[s[0]] + rest[0]] + rest[1..]
  }

  // ----- Where a text is cut ------------------------------------------------

  /** White space and line terminators, one by one, as ECMAScript lists them. */
  predicate White(c: char) {
    c in {' ', '\t', '\n', '\r', '\U{000B}', '\U{000C}', '\U{00A0}', '\U{1680}', '\U{2000}', '\U{2001}', '\U{2002}',
          '\U{2003}', '\U{2004}', '\U{2005}', '\U{2006}', '\U{2007}', '\U{2008}', '\U{2009}', '\U{200A}',
          '\U{2028}', '\U{2029}', '\U{202F}', '\U{205F}', '\U{3000}', '\U{FEFF}'}
  }

  ghost predicate AllWhite(s: string) {
    forall i :: 0 <= i < |s| ==> White(s[i])
  }

  lemma SpaceIsWhite(c: char)
    ensures IsSpace(c) <==> White(c)
  {
  }

  /** A text without white space is one word. */
  lemma {:induction false} OneWord(t: string)
    requires forall i :: 0 <= i < |t| ==> !White(t[i])
    ensures Words(t) == [t]
  {
    hide White;
    if t != "" {
      SpaceIsWhite(t[0]);
      OneWord(t[1..]);
      assert [t[0]] + t[1..] == t;
    }
  }

  lemma {:induction false} SkipsWhite(w: string, b: string)
    requires AllWhite(w) && (b == "" || !White(b[0]))
    ensures SkipSpaces(w + b) == b
  {
    hide White, IsSpace;
    if w == "" {
      assert w + b == b;
      if b != "" { SpaceIsWhite(b[0]); }
    } else {
      SpaceIsWhite(w[0]);
      assert (w + b)[1..] == w[1..] + b;
      SkipsWhite(w[1..], b);
    }
  }

  lemma {:induction false} SkipsInFront(a: string, rest: string)
    requires a != "" && !White(a[|a| - 1])
    ensures SkipSpaces(a + rest) == SkipSpaces(a) + rest
    ensures SkipSpaces(a) != "" && SkipSpaces(a)[|SkipSpaces(a)| - 1] == a[|a| - 1]
  {
    hide White, IsSpace;
    SpaceIsWhite(a[0]);
    if White(a[0]) {
      assert (a + rest)[1..] == a[1..] + rest;
      SkipsInFront(a[1..], rest);
    }
  }

  /** A run of white space, however long, is one cut: the words in front of it and the
      words behind it. With nothing in front or behind, that is an empty word. */
  lemma {:induction false} CutAtWhite(a: string, w: string, b: string)
    requires w != "" && AllWhite(w)
    requires (a == "" || !White(a[|a| - 1])) && (b == "" || !White(b[0]))
    ensures Words(a + w + b) == Words(a) + Words(b)
    decreases |a|
  {
    hide White, IsSpace, SkipSpaces, Words;
    var s := a + w + b;
    WordsStep(s);
    if a == "" {
      assert s == w + b && s[1..] == w[1..] + b;
      SpaceIsWhite(w[0]);
      SkipsWhite(w[1..], b);
      WordsStep("");
    } else {
      SpaceIsWhite(a[0]);
      WordsStep(a);
      assert s[0] == a[0] && s[1..] == a[1..] + w + b;
      if White(a[0]) {
        SkipsInFront(a[1..], w + b);
        assert a[1..] + w + b == a[1..] + (w + b);
        var a' := SkipSpaces(a[1..]);
        assert a' + (w + b) == a' + w + b;
        CutAtWhite(a', w, b);
      } else {
        CutAtWhite(a[1..], w, b);
      }
    }
  }

  lemma WordsStep(s: string)
    ensures Words("") == [""]
    ensures s != "" ==> |SkipSpaces(s[1..])| < |s|
    ensures s != "" && IsSpace(s[0]) ==> Words(s) == [""] + Words(SkipSpaces(s[1..]))
    ensures s != "" && !IsSpace(s[0]) ==>
      Words(s) == [[s[0]] + Words(s[1..])[0]] + Words(s[1..])[1..]
  {
  }

  // ----- The table -------------------------------------------------------

  function Min3(a: nat, b: nat, c: nat): nat {
    var ab := if a <= b then a else b;
    if ab <= c then ab else c
  }

  /** Cell (i, j) of the table: the recurrence for the first `i` words of `a` and
      the first `j` words of `b`. */
  function Cell<T(==)>(a: seq<T>, b: seq<T>, i: nat, j: nat): nat
    requires i <= |a| && j <= |b|
  {
    if i == 0 then j
    else if j == 0 then i
    else if a[i - 1] == b[j - 1] then Cell(a, b, i - 1, j - 1)
    else Min3(Cell(a, b, i - 1, j - 1), Cell(a, b, i - 1, j), Cell(a, b, i, j - 1)) + 1
  }

  function Distance<T(==)>(a: seq<T>, b: seq<T>): nat {
    Cell(a, b, |a|, |b|)
  }

  /** The loop keeps two rows of the table only. */
  method WordDistance<T(==)>(wa: seq<T>, wb: seq<T>) returns (d: nat)
    ensures d == Distance(wa, wb)
  {
    var m, n := |wa|, |wb|;
    if m == 0 { return n; }
    if n == 0 { return m; }
    var prev: seq<nat> := seq(n + 1, i => i);
    for i := 1 to m + 1
      invariant IsRow(wa, wb, i - 1, prev)
    {
      prev := NextRow(wa, wb, i, prev);
    }
    return prev[n];
  }

  ghost predicate IsRow<T>(a: seq<T>, b: seq<T>, i: nat, row: seq<nat>) {
    i <= |a| && |row| == |b| + 1 && forall j :: 0 <= j <= |b| ==> row[j] == Cell(a, b, i, j)
  }

  /** The recurrence, unfolded once. */
  lemma CellStep<T>(a: seq<T>, b: seq<T>, i: nat, j: nat)
    requires 0 < i <= |a| && j <= |b|
    ensures Cell(a, b, i, j)
         == if j == 0 then i
            else if a[i - 1] == b[j - 1] then Cell(a, b, i - 1, j - 1)
            else Min3(Cell(a, b, i - 1, j - 1), Cell(a, b, i - 1, j), Cell(a, b, i, j - 1)) + 1
  {
  }

  method NextRow<T(==)>(a: seq<T>, b: seq<T>, i: nat, prev: seq<nat>) returns (curr: seq<nat>)
    requires 1 <= i <= |a| && IsRow(a, b, i - 1, prev)
    ensures IsRow(a, b, i, curr)
  {
    hide Cell;
    curr := [i];
    CellStep(a, b, i, 0);
    for j := 1 to |b| + 1
      invariant |curr| == j
      invariant forall k :: 0 <= k < j ==> curr[k] == Cell(a, b, i, k)
    {
      CellStep(a, b, i, j);
      curr := curr + [if a[i - 1] == b[j - 1] then prev[j - 1]
                      else Min3(prev[j - 1], prev[j], curr[j - 1]) + 1];
    }
  }

  // ----- Taking the diagonal on equal words is optimal ---------------------

  function Differ<T(==)>(x: T, y: T): nat {
    if x == y then 0 else 1
  }

  lemma {:induction false} RowsClose<T>(a: seq<T>, b: seq<T>, i: nat, j: nat)
    requires i < |a| && j <= |b|
    ensures Cell(a, b, i, j) - 1 <= Cell(a, b, i + 1, j) <= Cell(a, b, i, j) + 1
    decreases i + j
  {
    if j > 0 {
      RowsClose(a, b, i, j - 1);
      ColumnsClose(a, b, i, j - 1);
    }
  }

  lemma {:induction false} ColumnsClose<T>(a: seq<T>, b: seq<T>, i: nat, j: nat)
    requires i <= |a| && j < |b|
    ensures Cell(a, b, i, j) - 1 <= Cell(a, b, i, j + 1) <= Cell(a, b, i, j) + 1
    decreases i + j
  {
    if i > 0 {
      ColumnsClose(a, b, i - 1, j);
      RowsClose(a, b, i - 1, j);
    }
  }

  lemma AtMostDiagonal<T>(a: seq<T>, b: seq<T>, i: nat, j: nat)
    requires 0 < i <= |a| && 0 < j <= |b|
    ensures Cell(a, b, i, j) <= Cell(a, b, i - 1, j - 1) + Differ(a[i - 1], b[j - 1])
  {
  }

  /** The loop's shortcut is the textbook recurrence, which minimises over all
      three neighbours everywhere. */
  lemma ShortcutIsOptimal<T>(a: seq<T>, b: seq<T>, i: nat, j: nat)
    requires 0 < i <= |a| && 0 < j <= |b|
    ensures Cell(a, b, i, j) == Min3(Cell(a, b, i - 1, j - 1) + Differ(a[i - 1], b[j - 1]),
                                     Cell(a, b, i - 1, j) + 1,
                                     Cell(a, b, i, j - 1) + 1)
  {
    hide Cell;
    CellStep(a, b, i, j);
    RowsClose(a, b, i - 1, j - 1);
    ColumnsClose(a, b, i - 1, j - 1);
  }

  // ----- A metric ----------------------------------------------------------

  lemma {:induction false} CellZero<T>(a: seq<T>, b: seq<T>, i: nat, j: nat)
    requires i <= |a| && j <= |b|
    ensures Cell(a, b, i, j) == 0 <==> a[..i] == b[..j]
  {
    if i > 0 && j > 0 {
      CellZero(a, b, i - 1, j - 1);
      assert a[..i] == a[..i - 1] + [a[i - 1]] && b[..j] == b[..j - 1] + [b[j - 1]];
    }
  }

  lemma {:induction false} CellSymmetric<T>(a: seq<T>, b: seq<T>, i: nat, j: nat)
    requires i <= |a| && j <= |b|
    ensures Cell(a, b, i, j) == Cell(b, a, j, i)
  {
    if i > 0 && j > 0 {
      CellSymmetric(a, b, i - 1, j - 1);
      CellSymmetric(a, b, i - 1, j);
      CellSymmetric(a, b, i, j - 1);
    }
  }

  lemma {:induction false} CellBounds<T>(a: seq<T>, b: seq<T>, i: nat, j: nat)
    requires i <= |a| && j <= |b|
    ensures i - j <= Cell(a, b, i, j) && j - i <= Cell(a, b, i, j) <= i + j
  {
    if i > 0 && j > 0 {
      CellBounds(a, b, i - 1, j);
      CellBounds(a, b, i, j - 1);
      CellBounds(a, b, i - 1, j - 1);
    }
  }

  lemma {:induction false} CellTriangle<T>(a: seq<T>, b: seq<T>, c: seq<T>, i: nat, j: nat, k: nat)
    requires i <= |a| && j <= |b| && k <= |c|
    ensures Cell(a, c, i, k) <= Cell(a, b, i, j) + Cell(b, c, j, k)
    decreases i + j + k, 1
  {
    if i == 0 || j == 0 || k == 0 {
      CellBounds(a, b, i, j);
      CellBounds(b, c, j, k);
      CellBounds(a, c, i, k);
    } else {
      CellEnds(a, b, i, j);
      CellEnds(b, c, j, k);
      if Cell(a, b, i, j) == Cell(a, b, i - 1, j) + 1 {
        CellTriangle(a, b, c, i - 1, j, k);
        RowsClose(a, c, i - 1, k);
      } else if Cell(b, c, j, k) == Cell(b, c, j, k - 1) + 1 {
        CellTriangle(a, b, c, i, j, k - 1);
        ColumnsClose(a, c, i, k - 1);
      } else {
        TriangleThroughMiddle(a, b, c, i, j, k);
      }
    }
  }

  /** A cell is reached from one of its three neighbours. */
  lemma CellEnds<T>(a: seq<T>, b: seq<T>, i: nat, j: nat)
    requires 0 < i <= |a| && 0 < j <= |b|
    ensures || Cell(a, b, i, j) == Cell(a, b, i - 1, j) + 1
            || Cell(a, b, i, j) == Cell(a, b, i, j - 1) + 1
            || Cell(a, b, i, j) == Cell(a, b, i - 1, j - 1) + Differ(a[i - 1], b[j - 1])
  {
  }

  lemma {:induction false} TriangleThroughMiddle<T>(a: seq<T>, b: seq<T>, c: seq<T>, i: nat, j: nat, k: nat)
    requires 0 < i <= |a| && 0 < j <= |b| && 0 < k <= |c|
    requires || Cell(a, b, i, j) == Cell(a, b, i, j - 1) + 1
             || Cell(a, b, i, j) == Cell(a, b, i - 1, j - 1) + Differ(a[i - 1], b[j - 1])
    requires || Cell(b, c, j, k) == Cell(b, c, j - 1, k) + 1
             || Cell(b, c, j, k) == Cell(b, c, j - 1, k - 1) + Differ(b[j - 1], c[k - 1])
    ensures Cell(a, c, i, k) <= Cell(a, b, i, j) + Cell(b, c, j, k)
    decreases i + j + k, 0
  {
    if Cell(a, b, i, j) == Cell(a, b, i, j - 1) + 1 {
      if Cell(b, c, j, k) == Cell(b, c, j - 1, k) + 1 {
        CellTriangle(a, b, c, i, j - 1, k);
      } else {
        CellTriangle(a, b, c, i, j - 1, k - 1);
        ColumnsClose(a, c, i, k - 1);
      }
    } else if Cell(b, c, j, k) == Cell(b, c, j - 1, k) + 1 {
      CellTriangle(a, b, c, i - 1, j - 1, k);
      RowsClose(a, c, i - 1, k);
    } else {
      CellTriangle(a, b, c, i - 1, j - 1, k - 1);
      AtMostDiagonal(a, c, i, k);
    }
  }

  /** The distance is a metric on word sequences. */
  lemma DistanceIsMetric<T>(a: seq<T>, b: seq<T>, c: seq<T>)
    ensures Distance(a, b) == 0 <==> a == b
    ensures Distance(a, b) == Distance(b, a)
    ensures Distance(a, c) <= Distance(a, b) + Distance(b, c)
  {
    CellZero(a, b, |a|, |b|);
    assert a[..|a|] == a && b[..|b|] == b;
    CellSymmetric(a, b, |a|, |b|);
    CellTriangle(a, b, c, |a|, |b|, |c|);
  }

  // ----- Optimality over edit scripts ---------------------------------------

  /** One edit of a word sequence, at any position. */
  datatype Edit<T> = Insert(at: nat, word: T) | Delete(at: nat) | Substitute(at: nat, word: T)

  predicate Applies<T>(e: Edit<T>, a: seq<T>) {
    if e.Insert? then e.at <= |a| else e.at < |a|
  }

  function ApplyEdit<T>(e: Edit<T>, a: seq<T>): seq<T>
    requires Applies(e, a)
  {
    match e
    case Insert(i, w) => a[..i] + [w] + a[i..]
    case Delete(i) => a[..i] + a[i + 1..]
    case Substitute(i, w) => a[..i] + [w] + a[i + 1..]
  }

  /** The script turns `a` into `b`, one edit after the other. */
  ghost predicate Turns<T>(script: seq<Edit<T>>, a: seq<T>, b: seq<T>) {
    if script == [] then a == b
    else Applies(script[0], a) && Turns(script[1..], ApplyEdit(script[0], a), b)
  }

  lemma {:induction false} CellSharedSuffix<T>(a: seq<T>, b: seq<T>, i: nat, j: nat)
    requires i <= |a| && j <= |b| && a[i..] == b[j..]
    ensures Distance(a, b) <= Cell(a, b, i, j)
    decreases |a| - i
  {
    if i < |a| {
      assert a[i] == a[i..][0] && b[j] == b[j..][0];
      assert a[i + 1..] == a[i..][1..] == b[j..][1..] == b[j + 1..];
      CellSharedSuffix(a, b, i + 1, j + 1);
    }
  }

  lemma OneEdit<T>(e: Edit<T>, a: seq<T>)
    requires Applies(e, a)
    ensures Distance(a, ApplyEdit(e, a)) <= 1
  {
    var i, b := e.at, ApplyEdit(e, a);
    CellZero(a, b, i, i);
    assert a[..i] == b[..i];
    match e {
      case Insert(_, w) =>
        ColumnsClose(a, b, i, i);
        assert a[i..] == b[i + 1..];
        CellSharedSuffix(a, b, i, i + 1);
      case Delete(_) =>
        RowsClose(a, b, i, i);
        assert a[i + 1..] == b[i..];
        CellSharedSuffix(a, b, i + 1, i);
      case Substitute(_, w) =>
        AtMostDiagonal(a, b, i + 1, i + 1);
        assert a[i + 1..] == b[i + 1..];
        CellSharedSuffix(a, b, i + 1, i + 1);
    }
  }

  /** No script is shorter than the distance, in whatever order and at whatever
      positions it edits. */
  lemma {:induction false} NoShorterScript<T>(script: seq<Edit<T>>, a: seq<T>, b: seq<T>)
    requires Turns(script, a, b)
    ensures Distance(a, b) <= |script|
    decreases |script|
  {
    if script == [] {
      DistanceIsMetric(a, b, b);
    } else {
      var a' := ApplyEdit(script[0], a);
      OneEdit(script[0], a);
      NoShorterScript(script[1..], a', b);
      DistanceIsMetric(a, a', b);
    }
  }

  lemma Seam<T>(s: seq<T>, i: nat, suffix: seq<T>)
    requires 0 < i <= |s|
    ensures s[..i - 1] + ([s[i - 1]] + suffix) == s[..i] + suffix
  {
  }

  lemma EditAtSeam<T>(a: seq<T>, i: nat, y: T, suffix: seq<T>)
    requires i <= |a|
    ensures ApplyEdit(Insert(i, y), a[..i] + suffix) == a[..i] + ([y] + suffix)
    ensures i > 0 ==> ApplyEdit(Delete(i - 1), a[..i] + suffix) == a[..i - 1] + suffix
    ensures i > 0 ==> ApplyEdit(Substitute(i - 1, y), a[..i] + suffix) == a[..i - 1] + ([y] + suffix)
  {
  }

  lemma FirstEdit<T>(e: Edit<T>, script: seq<Edit<T>>, a: seq<T>, a': seq<T>, b: seq<T>)
    requires Applies(e, a) && ApplyEdit(e, a) == a'
    requires Turns(script, a', b)
    ensures Turns([e] + script, a, b)
  {
    assert ([e] + script)[1..] == script;
  }

  /** A script as long as the cell, edited from the back: `suffix` is done. */
  lemma {:induction false} CellScript<T>(a: seq<T>, b: seq<T>, i: nat, j: nat, suffix: seq<T>)
    returns (script: seq<Edit<T>>)
    requires i <= |a| && j <= |b|
    ensures Turns(script, a[..i] + suffix, b[..j] + suffix)
    ensures |script| == Cell(a, b, i, j)
    decreases i + j, 2
  {
    if i == 0 && j == 0 {
      script := [];
    } else if i > 0 && (j == 0 || Cell(a, b, i, j) == Cell(a, b, i - 1, j) + 1) {
      script := ScriptByDelete(a, b, i, j, suffix);
    } else if j > 0 && (i == 0 || Cell(a, b, i, j) == Cell(a, b, i, j - 1) + 1) {
      script := ScriptByInsert(a, b, i, j, suffix);
    } else {
      CellEnds(a, b, i, j);
      script := ScriptByDiagonal(a, b, i, j, suffix);
    }
  }

  lemma {:induction false} ScriptByDelete<T>(a: seq<T>, b: seq<T>, i: nat, j: nat, suffix: seq<T>)
    returns (script: seq<Edit<T>>)
    requires 0 < i <= |a| && j <= |b| && Cell(a, b, i, j) == Cell(a, b, i - 1, j) + 1
    ensures Turns(script, a[..i] + suffix, b[..j] + suffix) && |script| == Cell(a, b, i, j)
    decreases i + j, 0
  {
    script := CellScript(a, b, i - 1, j, suffix);
    EditAtSeam(a, i, a[i - 1], suffix);
    FirstEdit(Delete(i - 1), script, a[..i] + suffix, a[..i - 1] + suffix, b[..j] + suffix);
    script := [Delete(i - 1)] + script;
  }

  lemma {:induction false} ScriptByInsert<T>(a: seq<T>, b: seq<T>, i: nat, j: nat, suffix: seq<T>)
    returns (script: seq<Edit<T>>)
    requires i <= |a| && 0 < j <= |b| && Cell(a, b, i, j) == Cell(a, b, i, j - 1) + 1
    ensures Turns(script, a[..i] + suffix, b[..j] + suffix) && |script| == Cell(a, b, i, j)
    decreases i + j, 0
  {
    var y := b[j - 1];
    script := CellScript(a, b, i, j - 1, [y] + suffix);
    EditAtSeam(a, i, y, suffix);
    Seam(b, j, suffix);
    FirstEdit(Insert(i, y), script, a[..i] + suffix, a[..i] + ([y] + suffix), b[..j] + suffix);
    script := [Insert(i, y)] + script;
  }

  lemma {:induction false} ScriptByDiagonal<T>(a: seq<T>, b: seq<T>, i: nat, j: nat, suffix: seq<T>)
    returns (script: seq<Edit<T>>)
    requires 0 < i <= |a| && 0 < j <= |b|
    requires Cell(a, b, i, j) == Cell(a, b, i - 1, j - 1) + Differ(a[i - 1], b[j - 1])
    ensures Turns(script, a[..i] + suffix, b[..j] + suffix) && |script| == Cell(a, b, i, j)
    decreases i + j, 0
  {
    hide Cell;
    var x, y := a[i - 1], b[j - 1];
    script := CellScript(a, b, i - 1, j - 1, [y] + suffix);
    Seam(b, j, suffix);
    if x == y {
      Seam(a, i, suffix);
    } else {
      EditAtSeam(a, i, y, suffix);
      FirstEdit(Substitute(i - 1, y), script, a[..i] + suffix, a[..i - 1] + ([y] + suffix), b[..j] + suffix);
      script := [Substitute(i - 1, y)] + script;
    }
  }

  /** The distance is the length of a shortest script of single-word edits. */
  lemma DistanceIsOptimal<T(!new)>(a: seq<T>, b: seq<T>)
    ensures exists script :: Turns(script, a, b) && |script| == Distance(a, b)
    ensures forall script :: Turns(script, a, b) ==> Distance(a, b) <= |script|
  {
    var shortest := CellScript(a, b, |a|, |b|, []);
    assert a[..|a|] + [] == a && b[..|b|] + [] == b;
    forall script | Turns(script, a, b) ensures Distance(a, b) <= |script| {
      NoShorterScript(script, a, b);
    }
  }

  /** The page's function: the least number of words to insert, delete or substitute
      in order to turn one text's words into the other's. */
  method SynapticDistance(a: string, b: string) returns (d: nat)
    ensures exists script :: Turns(script, Words(a), Words(b)) && |script| == d
    ensures forall script :: Turns(script, Words(a), Words(b)) ==> d <= |script|
    ensures d == Distance(Words(a), Words(b)) && (d == 0 <==> Words(a) == Words(b))
  {
    d := WordDistance(Words(a), Words(b));
    DistanceIsOptimal(Words(a), Words(b));
    DistanceIsMetric(Words(a), Words(b), Words(b));
  }
}
