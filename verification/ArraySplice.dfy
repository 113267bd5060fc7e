/** JavaScript's `Array.prototype.splice`, and the batched replacement that the
    patch applier builds from it. */
module ArraySplice {

  const CHUNK_SIZE: nat := 10000

  function Min(a: int, b: int): int {
    if a <= b then a else b
  }

  function Max(a: int, b: int): int {
    if a >= b then a else b
  }

  /** A negative start counts back from the end; both numbers are clamped. */
  function SpliceStart(length: nat, start: int): (at: nat)
    ensures at <= length
    ensures 0 <= start <= length ==> at == start
  {
    if start < 0 then Max(length + start, 0) else Min(start, length)
  }

  function SpliceDeletes(length: nat, at: nat, count: int): (d: nat)
    requires at <= length
    ensures at + d <= length
    ensures 0 <= count <= length - at ==> d == count
  {
    Max(0, Min(count, length - at))
  }

  function Splice<T>(a: seq<T>, start: int, count: int, items: seq<T>): seq<T> {
    var at := SpliceStart(|a|, start);
    var d := SpliceDeletes(|a|, at, count);
    a[..at] + items + a[at + d..]
  }

  /** What the insertion loop leaves: the chunks of `seg` from position `j` on,
      each one spliced in at `start + j`. */
  function InsertChunks<T>(a: seq<T>, start: int, seg: seq<T>, j: nat, size: nat): seq<T>
    requires size >= 1
    decreases |seg| - j
  {
    if j >= |seg| then a
    else
      var chunk := seg[j..Min(j + size, |seg|)];
      InsertChunks(Splice(a, start + j, 0, chunk), start, seg, j + size, size)
  }

  /** The segment replacement of the applier: one splice for a short segment,
      removal and then insertion chunk by chunk for a long one. */
  function Replace<T>(a: seq<T>, start: int, count: int, seg: seq<T>, size: nat): seq<T>
    requires size >= 1
  {
    if |seg| > size then InsertChunks(Splice(a, start, count, []), start, seg, 0, size)
    else Splice(a, start, count, seg)
  }

  method ReplaceSegment<T>(a: seq<T>, start: int, count: int, seg: seq<T>, size: nat) returns (out: seq<T>)
    requires size >= 1
    ensures out == Replace(a, start, count, seg, size)
    ensures start >= 0 ==> out == Splice(a, start, count, seg)
  {
    out := a;
    if |seg| > size {
      out := Splice(out, start, count, []);
      var j := 0;
      while j < |seg|
        invariant InsertChunks(out, start, seg, j, size) == Replace(a, start, count, seg, size)
        decreases |seg| - j
      {
        var chunk := seg[j..Min(j + size, |seg|)];
        out := Splice(out, start + j, 0, chunk);
        j := j + size;
      }
    } else {
      out := Splice(out, start, count, seg);
    }
    if start >= 0 {
      ReplaceIsSplice(a, start, count, seg, size);
    }
  }

  lemma {:induction false} InsertChunksAppends<T>(a: seq<T>, start: nat, seg: seq<T>, j: nat, size: nat, at: nat)
    requires size >= 1 && j <= |seg|
    requires at + j <= |a| && a[at..at + j] == seg[..j]
    requires start == at || (start > at && |a| == at + j)
    ensures InsertChunks(a, start, seg, j, size) == a[..at] + seg + a[at + j..]
    decreases |seg| - j
  {
    if j >= |seg| {
      assert a == a[..at] + a[at..at + j] + a[at + j..];
    } else {
      var k := Min(j + size, |seg|);
      var b := Splice(a, start + j, 0, seg[j..k]);
      OneChunk(a, start, seg, j, k, at);
      if k == j + size {
        InsertChunksAppends(b, start, seg, k, size, at);
      } else {
        assert b == b[..at] + b[at..at + k] + b[at + k..];
      }
    }
  }

  lemma OneChunk<T>(a: seq<T>, start: nat, seg: seq<T>, j: nat, k: nat, at: nat)
    requires j <= k <= |seg|
    requires at + j <= |a| && a[at..at + j] == seg[..j]
    requires start == at || (start > at && |a| == at + j)
    ensures var b := Splice(a, start + j, 0, seg[j..k]);
      && |b| == |a| + k - j
      && b[..at] == a[..at] && b[at..at + k] == seg[..k] && b[at + k..] == a[at + j..]
  {
    var b := Splice(a, start + j, 0, seg[j..k]);
    assert b == a[..at + j] + seg[j..k] + a[at + j..];
    assert b[at..at + k] == a[at..at + j] + seg[j..k];
  }

  /** Removing the old segment and inserting the new one in chunks is a single
      splice, for every array, count, segment and chunk size, whenever the start
      is not negative (a start past the end included). */
  lemma ReplaceIsSplice<T>(a: seq<T>, start: nat, count: int, seg: seq<T>, size: nat)
    requires size >= 1
    ensures Replace(a, start, count, seg, size) == Splice(a, start, count, seg)
  {
    if |seg| > size {
      var at := SpliceStart(|a|, start);
      var removed := Splice(a, start, count, []);
      assert removed[..at] == a[..at];
      InsertChunksAppends(removed, start, seg, 0, size, at);
    }
  }

  /** Inserting from chunk position `d` on is inserting the rest of the segment. */
  lemma {:induction false} InsertRest<T>(a: seq<T>, start: int, seg: seq<T>, d: nat, j: nat, size: nat)
    requires size >= 1 && d + j <= |seg|
    ensures InsertChunks(a, start, seg, d + j, size) == InsertChunks(a, start + d, seg[d..], j, size)
    decreases |seg| - j
  {
    if d + j < |seg| {
      var k := Min(d + j + size, |seg|);
      assert seg[d..][j..Min(j + size, |seg[d..]|)] == seg[d + j..k];
      if k == d + j + size {
        InsertRest(Splice(a, start + d + j, 0, seg[d + j..k]), start, seg, d, j + size, size);
      }
    }
  }

  /** The array up to its last element, and the last element if there is one. */
  function Front<T>(a: seq<T>): seq<T> {
    if a == [] then [] else a[..|a| - 1]
  }

  function Back<T>(a: seq<T>): seq<T> {
    if a == [] then [] else a[|a| - 1..]
  }

  /** What an insertion at start -1 makes of the front. The first chunk goes behind it;
      the other chunks count from the beginning again, and go where index `size - 1` is. */
  function InsertedAtMinusOne<T>(front: seq<T>, seg: seq<T>, size: nat): seq<T>
    requires size >= 1
  {
    if |seg| <= size then front + seg
    else
      var first := front + seg[..size];
      first[..size - 1] + seg[size..] + first[size - 1..]
  }

  /** An empty old range at line 0 (`@@ -0,0 +1,n @@`) gives the start -1, which counts
      from the end: for every array and segment, the insertion ends up in front of the
      last element, and in order only while it fits one chunk. */
  lemma ReplaceAtMinusOne<T>(a: seq<T>, seg: seq<T>, size: nat)
    requires size >= 1
    ensures Replace(a, -1, 0, seg, size) == InsertedAtMinusOne(Front(a), seg, size) + Back(a)
  {
    assert a == Front(a) + Back(a);
    if |seg| > size {
      hide InsertChunks;
      var first, back := Front(a) + seg[..size], Back(a);
      FirstChunk(a, seg, size);
      InsertRest(first + back, -1, seg, size, 0, size);
      LaterChunks(first, back, seg, size);
    }
  }

  lemma FirstChunk<T>(a: seq<T>, seg: seq<T>, size: nat)
    requires 1 <= size < |seg|
    ensures Replace(a, -1, 0, seg, size) == InsertChunks(Front(a) + seg[..size] + Back(a), -1, seg, size, size)
  {
    assert a == Front(a) + Back(a);
    assert Splice(a, -1, 0, []) == a && Min(size, |seg|) == size;
    assert Splice(a, -1, 0, seg[0..size]) == Front(a) + seg[..size] + Back(a);
  }

  lemma LaterChunks<T>(first: seq<T>, back: seq<T>, seg: seq<T>, size: nat)
    requires 1 <= size <= |first| && size <= |seg|
    ensures InsertChunks(first + back, size - 1, seg[size..], 0, size)
         == first[..size - 1] + seg[size..] + first[size - 1..] + back
  {
    hide InsertChunks;
    InsertChunksAppends(first + back, size - 1, seg[size..], 0, size, size - 1);
    assert (first + back)[..size - 1] == first[..size - 1];
    assert (first + back)[size - 1..] == first[size - 1..] + back;
  }

  /** In an array of one element, such as the lines of the empty document, the rows come
      out in order exactly when they fit one chunk or every row from the one that closes
      the first chunk on is the same. */
  lemma CreatingRowsInOrder<T>(blank: T, seg: seq<T>, size: nat)
    requires size >= 1
    ensures Replace([blank], -1, 0, seg, size) == seg + [blank]
       <==> |seg| <= size || forall i :: size <= i < |seg| ==> seg[i] == seg[size - 1]
  {
    hide Replace, InsertedAtMinusOne;
    ReplaceAtMinusOne([blank], seg, size);
    assert Front([blank]) == [] && Back([blank]) == [blank];
    var out := InsertedAtMinusOne([], seg, size);
    assert (out + [blank])[..|out|] == out && (seg + [blank])[..|seg|] == seg;
    InsertedAlone(seg, size);
  }

  lemma InsertedAlone<T>(seg: seq<T>, size: nat)
    requires size >= 1
    ensures InsertedAtMinusOne([], seg, size) == seg
       <==> |seg| <= size || forall i :: size <= i < |seg| ==> seg[i] == seg[size - 1]
  {
    if |seg| > size {
      var out := seg[..size - 1] + seg[size..] + [seg[size - 1]];
      assert [] + seg[..size] == seg[..size] && seg[..size][size - 1..] == [seg[size - 1]];
      assert seg[..size][..size - 1] == seg[..size - 1];
      if forall i :: size <= i < |seg| ==> seg[i] == seg[size - 1] {
        assert out == seg;
      } else if out == seg {
        RotatedIsConstant(seg, size, out);
      }
    } else {
      assert [] + seg == seg;
    }
  }

  lemma RotatedIsConstant<T>(seg: seq<T>, size: nat, rotated: seq<T>)
    requires 1 <= size < |seg|
    requires rotated == seg[..size - 1] + seg[size..] + [seg[size - 1]]
    requires rotated == seg
    ensures forall i :: size <= i < |seg| ==> seg[i] == seg[size - 1]
  {
    var i := size;
    while i < |seg|
      invariant size <= i <= |seg|
      invariant forall k :: size <= k < i ==> seg[k] == seg[size - 1]
    {
      assert rotated[i - 1] == seg[i];
      i := i + 1;
    }
  }
}
