/** Text as a list of lines: the `split("\n")` and `join("\n")` that the viewer's
    reconstruction code applies to documents and patches. */
module Lines {

  predicate StartsWith(s: string, prefix: string) {
    prefix <= s
  }

  /** `s.slice(1)`: the empty string has nothing to cut. */
  function Tail(s: string): string {
    if s == "" then "" else s[1..]
  }

  ghost predicate NewlineFree(s: string) {
    '\n' !in s
  }

  ghost predicate AllNewlineFree(lines: seq<string>) {
    forall i :: 0 <= i < |lines| ==> NewlineFree(lines[i])
  }

  function Split(s: string): (lines: seq<string>)
    ensures |lines| >= 1
    ensures AllNewlineFree(lines)
  {
    if s == "" then [""]
    else
      var rest := Split(s[1..]);
      if s[0] == '\n' then [""] + rest
      else [[s[0]] + rest[0]] + rest[1..]
  }

  function Join(lines: seq<string>): string {
    if |lines| == 0 then ""
    else if |lines| == 1 then lines[0]
    else lines[0] + "\n" + Join(lines[1..])
  }

  lemma {:induction false} JoinSplit(s: string)
    ensures Join(Split(s)) == s
  {
    if s != "" {
      JoinSplit(s[1..]);
      var rest := Split(s[1..]);
      var whole := Split(s);
      if s[0] == '\n' {
        assert whole[1..] == rest;
      } else if |rest| == 1 {
      } else {
        assert whole[1..] == rest[1..];
      }
    }
  }

  lemma {:induction false} SplitLine(a: string, b: string)
    requires NewlineFree(a)
    ensures Split(a) == [a]
    ensures Split(a + "\n" + b) == [a] + Split(b)
  {
    var whole := a + "\n" + b;
    if a == "" {
      assert whole[0] == '\n' && whole[1..] == b;
    } else {
      assert NewlineFree(a[1..]) by {
        forall i | 0 <= i < |a[1..]| ensures a[1..][i] != '\n' { assert a[i + 1] in a; }
      }
      SplitLine(a[1..], b);
      assert whole[0] == a[0] && a[0] in a && whole[1..] == a[1..] + "\n" + b;
      assert [a[0]] + a[1..] == a;
    }
  }

  /** Splitting undoes joining exactly on the non-empty lists of newline-free
      lines, so a cached text stands for one list of lines only. */
  lemma {:induction false} SplitJoin(lines: seq<string>)
    ensures Split(Join(lines)) == lines <==> |lines| >= 1 && AllNewlineFree(lines)
  {
    if |lines| >= 1 && AllNewlineFree(lines) {
      SplitJoinNewlineFree(lines);
    }
  }

  lemma {:induction false} SplitJoinNewlineFree(lines: seq<string>)
    requires |lines| >= 1 && AllNewlineFree(lines)
    ensures Split(Join(lines)) == lines
  {
    assert NewlineFree(lines[0]);
    if |lines| == 1 {
      SplitLine(lines[0], "");
    } else {
      SplitJoinNewlineFree(lines[1..]);
      SplitLine(lines[0], Join(lines[1..]));
    }
  }
}
