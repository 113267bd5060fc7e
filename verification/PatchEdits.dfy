/** Applying parsed hunks with a running offset, for any way to replace a segment
    of an array, and what that means for a document. */
module PatchEdits {
  import opened Lines
  import opened Header
  import opened UnifiedDiff

  /** A parsed hunk: where to replace, how many lines, by what, and how much the
      header says the document grows. */
  datatype Edit = Edit(start: nat, count: nat, seg: seq<string>, growth: int)

  /** Replaces `count` lines from an index that may lie outside the array. */
  type Replacer = (seq<string>, int, nat, seq<string>) -> seq<string>

  function ApplyEdits(replace: Replacer, out: seq<string>, offset: int, edits: seq<Edit>): seq<string>
    decreases |edits|
  {
    if edits == [] then out
    else
      var e := edits[0];
      ApplyEdits(replace, replace(out, e.start - 1 + offset, e.count, e.seg), offset + e.growth, edits[1..])
  }

  lemma ApplyFirst(replace: Replacer, out: seq<string>, offset: int, e: Edit, rest: seq<Edit>)
    ensures ApplyEdits(replace, out, offset, [e] + rest)
         == ApplyEdits(replace, replace(out, e.start - 1 + offset, e.count, e.seg), offset + e.growth, rest)
  {
    assert ([e] + rest)[1..] == rest;
  }

  /** The replacer does what it should on segments inside the array. */
  ghost predicate Replaces(replace: Replacer) {
    forall a, at, count, seg | 0 <= at <= at + count <= |a| ::
      replace(a, at, count, seg) == a[..at] + seg + a[at + count..]
  }

  /** What printed hunks should be understood as; `extra` joins the last one. */
  function Meant(hunks: seq<Hunk>, extra: seq<string>): seq<Edit> {
    if hunks == [] then []
    else [MeantHunk(hunks[0], if |hunks| == 1 then extra else [])] + Meant(hunks[1..], extra)
  }

  function MeantHunk(h: Hunk, more: seq<string>): Edit {
    Edit(h.oldStart, |OldSide(h.rows)|, NewSide(h.rows) + more, |NewSide(h.rows)| - |OldSide(h.rows)|)
  }

  lemma ApplyMeant(replace: Replacer, out: seq<string>, offset: int, hunks: seq<Hunk>, extra: seq<string>)
    requires hunks != []
    ensures var e := MeantHunk(hunks[0], if |hunks| == 1 then extra else []);
      ApplyEdits(replace, out, offset, Meant(hunks, extra))
      == ApplyEdits(replace, replace(out, e.start - 1 + offset, e.count, e.seg), offset + e.growth,
                    Meant(hunks[1..], extra))
  {
    ApplyFirst(replace, out, offset, MeantHunk(hunks[0], if |hunks| == 1 then extra else []), Meant(hunks[1..], extra));
  }

  lemma PatchedStep(lines: seq<string>, from: nat, hunks: seq<Hunk>, extra: seq<string>)
    returns (at: nat, end: nat, seg: seq<string>)
    requires hunks != [] && from <= |lines| && Fits(lines, from, hunks)
    ensures var e := MeantHunk(hunks[0], if |hunks| == 1 then extra else []);
      && at == e.start - 1 && end == at + e.count && seg == e.seg
      && |seg| == e.growth + e.count + (if |hunks| == 1 then |extra| else 0)
    ensures from <= at <= end <= |lines| && Fits(lines, end, hunks[1..])
    ensures PatchedAnd(lines, from, hunks, extra) == lines[from..at] + seg + PatchedAnd(lines, end, hunks[1..], extra)
  {
    var h := hunks[0];
    at, end := h.oldStart - 1, h.oldStart - 1 + |OldSide(h.rows)|;
    seg := NewSide(h.rows) + (if |hunks| == 1 then extra else []);
    assert NewSide(h.rows) + [] == NewSide(h.rows);
  }

  /** The array after some hunks: a replaced prefix, then the rest of the document. */
  ghost predicate Progress(lines: seq<string>, from: nat, prefix: seq<string>, out: seq<string>) {
    from <= |lines| && out == prefix + lines[from..]
  }

  lemma ReplaceMovesOn(replace: Replacer, lines: seq<string>, from: nat, prefix: seq<string>, out: seq<string>,
                       at: nat, end: nat, seg: seq<string>)
    returns (out': seq<string>)
    requires Replaces(replace) && Progress(lines, from, prefix, out) && from <= at <= end <= |lines|
    ensures out' == replace(out, at + |prefix| - from, end - at, seg)
    ensures Progress(lines, end, prefix + lines[from..at] + seg, out')
  {
    var i := at + |prefix| - from;
    out' := replace(out, i, end - at, seg);
    assert out' == out[..i] + seg + out[i + (end - at)..];
    assert out[..i] == prefix + lines[from..at] && out[i + (end - at)..] == lines[end..];
  }

  lemma Associates<T>(a: seq<T>, b: seq<T>, c: seq<T>, d: seq<T>)
    ensures a + (b + c + d) == (a + b + c) + d
  {
  }

  /** After each hunk the array is the replaced prefix followed by the untouched
      rest of the document, and the offset is the growth of the prefix. */
  lemma {:induction false} OffsetRefines(
      replace: Replacer, lines: seq<string>, from: nat, prefix: seq<string>, out: seq<string>, offset: int,
      hunks: seq<Hunk>, extra: seq<string>)
    requires Replaces(replace) && Progress(lines, from, prefix, out) && Fits(lines, from, hunks)
    requires offset == |prefix| - from || hunks == []
    ensures ApplyEdits(replace, out, offset, Meant(hunks, extra)) == prefix + PatchedAnd(lines, from, hunks, extra)
    decreases |hunks|
  {
    if hunks != [] {
      var at, end, seg := PatchedStep(lines, from, hunks, extra);
      var out' := ReplaceMovesOn(replace, lines, from, prefix, out, at, end, seg);
      var offset' := offset + MeantHunk(hunks[0], []).growth;
      ApplyMeant(replace, out, offset, hunks, extra);
      Associates(prefix, lines[from..at], seg, PatchedAnd(lines, end, hunks[1..], extra));
      OffsetRefines(replace, lines, end, prefix + lines[from..at] + seg, out', offset', hunks[1..], extra);
    }
  }

  /** In-place replacement with a running offset is simultaneous replacement. */
  lemma EditsRefinePatched(replace: Replacer, lines: seq<string>, hunks: seq<Hunk>, extra: seq<string>)
    requires Replaces(replace) && Fits(lines, 0, hunks)
    ensures ApplyEdits(replace, lines, 0, Meant(hunks, extra)) == PatchedAnd(lines, 0, hunks, extra)
  {
    assert [] + lines[0..] == lines;
    OffsetRefines(replace, lines, 0, [], lines, 0, hunks, extra);
  }

  ghost predicate KeepsLines(replace: Replacer) {
    forall a, at, count: nat, seg | AllNewlineFree(a) && AllNewlineFree(seg) ::
      AllNewlineFree(replace(a, at, count, seg))
  }

  ghost predicate EditsNewlineFree(edits: seq<Edit>) {
    forall k :: 0 <= k < |edits| ==> AllNewlineFree(edits[k].seg)
  }

  lemma {:induction false} ApplyEditsNewlineFree(replace: Replacer, out: seq<string>, offset: int, edits: seq<Edit>)
    requires KeepsLines(replace) && AllNewlineFree(out) && EditsNewlineFree(edits)
    ensures AllNewlineFree(ApplyEdits(replace, out, offset, edits))
    decreases |edits|
  {
    if edits != [] {
      var e := edits[0];
      ApplyEditsNewlineFree(replace, replace(out, e.start - 1 + offset, e.count, e.seg), offset + e.growth, edits[1..]);
    }
  }
}
