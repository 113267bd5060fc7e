/** Plain replay of a patch history, and when a cached text can stand for a list of
    lines. Generic in the patch applier. */
module Replay {
  import opened Lines
  import opened UnifiedDiff

  type Applier = (seq<string>, string) -> seq<string>

  /** What every applier of the repository does: it leaves the lines alone for an
      empty patch, and makes lines from lines. */
  ghost predicate IsApplier(apply: Applier) {
    && (forall lines :: apply(lines, "") == lines)
    && (forall lines, patch | AllNewlineFree(lines) :: AllNewlineFree(apply(lines, patch)))
  }

  /** The lookup in the database: a missing patch is the empty one. */
  function PatchAt(patches: seq<string>, k: nat): string {
    if k < |patches| then patches[k] else ""
  }

  /** The lines after the patches `first`, ..., `first + n - 1`. */
  function LinesAfter(apply: Applier, base: string, patches: seq<string>, first: nat, n: nat): seq<string> {
    if n == 0 then Split(base)
    else apply(LinesAfter(apply, base, patches, first, n - 1), PatchAt(patches, first + n - 1))
  }

  /** Behind the last patch the document stays what it is. */
  lemma {:induction false} HistoryEnds(apply: Applier, base: string, patches: seq<string>, first: nat, m: nat, n: nat)
    requires IsApplier(apply) && |patches| <= first + m && m <= n
    ensures LinesAfter(apply, base, patches, first, n) == LinesAfter(apply, base, patches, first, m)
  {
    if m < n { HistoryEnds(apply, base, patches, first, m, n - 1); }
  }

  /** A replay from patch 1 takes no notice of patch 0. */
  lemma {:induction false} FirstPatchUnread(apply: Applier, base: string, patches: seq<string>,
                                            others: seq<string>, n: nat)
    requires |patches| == |others| && forall k :: 0 < k < |patches| ==> patches[k] == others[k]
    ensures LinesAfter(apply, base, patches, 1, n) == LinesAfter(apply, base, others, 1, n)
  {
    if n > 0 { FirstPatchUnread(apply, base, patches, others, n - 1); }
  }

  /** No replayed document is the empty list of lines (the empty text is one line). */
  ghost predicate NeverEmpty(apply: Applier, base: string, patches: seq<string>, first: nat) {
    forall n: nat :: LinesAfter(apply, base, patches, first, n) != []
  }

  lemma {:induction false} ReplayNewlineFree(apply: Applier, base: string, patches: seq<string>, first: nat, n: nat)
    requires IsApplier(apply)
    ensures AllNewlineFree(LinesAfter(apply, base, patches, first, n))
  {
    if n > 0 { ReplayNewlineFree(apply, base, patches, first, n - 1); }
  }

  /** Splitting a checkpoint gives back the lines it was made of. */
  lemma CheckpointExact(apply: Applier, base: string, patches: seq<string>, first: nat, n: nat)
    requires IsApplier(apply) && LinesAfter(apply, base, patches, first, n) != []
    ensures Split(Join(LinesAfter(apply, base, patches, first, n))) == LinesAfter(apply, base, patches, first, n)
  {
    ReplayNewlineFree(apply, base, patches, first, n);
    SplitJoin(LinesAfter(apply, base, patches, first, n));
  }

  /** A history without patch number 0 replays the same from 0 and from 1. */
  lemma {:induction false} EmptyFirstPatch(apply: Applier, base: string, patches: seq<string>, n: nat)
    requires PatchAt(patches, 0) == "" && forall lines :: apply(lines, "") == lines
    ensures LinesAfter(apply, base, patches, 0, n + 1) == LinesAfter(apply, base, patches, 1, n)
  {
    if n > 0 { EmptyFirstPatch(apply, base, patches, n - 1); }
  }

  // ----- Well-formed histories ---------------------------------------------------

  /** A printed patch that fits the document and leaves its last line alone. A final
      newline and marker rows may follow it. */
  ghost predicate WellFormedFor(lines: seq<string>, text: string, hunks: seq<Hunk>) {
    && Printable(hunks) && Fits(lines, 0, hunks) && KeepsLast(lines, hunks)
    && exists trailer :: IsPrinted(text, hunks, trailer)
  }

  /** From patch `first` on, every patch is well-formed for the document that the
      replay has reached. */
  ghost predicate WellFormedHistory(apply: Applier, base: string, patches: seq<string>, first: nat,
                                    history: seq<seq<Hunk>>) {
    && |history| == |patches|
    && forall k :: first <= k < |history| ==>
         WellFormedFor(LinesAfter(apply, base, patches, first, k - first), patches[k], history[k])
  }

  ghost predicate KeepsALine(apply: Applier) {
    forall lines, text, hunks | lines != [] && WellFormedFor(lines, text, hunks) :: apply(lines, text) != []
  }

  lemma {:induction false} HistoryStep(apply: Applier, base: string, patches: seq<string>, first: nat,
                                       history: seq<seq<Hunk>>, n: nat)
    requires IsApplier(apply) && KeepsALine(apply) && WellFormedHistory(apply, base, patches, first, history)
    ensures LinesAfter(apply, base, patches, first, n) != []
  {
    hide WellFormedFor;
    if n > 0 {
      HistoryStep(apply, base, patches, first, history, n - 1);
      var k := first + n - 1;
      if k < |patches| {
        assert WellFormedFor(LinesAfter(apply, base, patches, first, n - 1), patches[k], history[k]);
      }
    }
  }

  /** The replay of a well-formed history never runs out of lines. */
  lemma HistoryNeverEmpty(apply: Applier, base: string, patches: seq<string>, first: nat, history: seq<seq<Hunk>>)
    requires IsApplier(apply) && KeepsALine(apply) && WellFormedHistory(apply, base, patches, first, history)
    ensures NeverEmpty(apply, base, patches, first)
  {
    forall n: nat ensures LinesAfter(apply, base, patches, first, n) != [] {
      HistoryStep(apply, base, patches, first, history, n);
    }
  }
}
