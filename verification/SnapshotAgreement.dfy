/** The page's older reconstruction, and the agreement of all three. */
module SnapshotAgreement {
  import opened Lines
  import opened UnifiedDiff
  import opened PatchRows
  import opened PatchEdits
  import opened Replay
  import RestorePatch
  import WorkerPatch
  import SynapticPatch
  import SnapshotCache
  import WorkerSnapshots

  ghost function Restored(): Applier {
    (lines: seq<string>, patch: string) => RestorePatch.ApplyText(lines, patch)
  }

  lemma EmptyPatchKeepsLines(lines: seq<string>)
    ensures Restored()(lines, "") == lines
  {
    RestorePatch.ParsesPrinted([], []);
    assert PatchText([], []) == "";
  }

  /** The older page: every request replays from the base document, and only the
      requested documents are cached. */
  class RestoredPage {
    const base: string
    const patches: seq<string>
    var docCache: map<nat, string>

    constructor (base: string, patches: seq<string>)
      ensures Valid() && this.base == base && this.patches == patches
    {
      this.base, this.patches, this.docCache := base, patches, map[];
    }

    ghost function TextAt(idx: nat): string {
      Join(LinesAfter(Restored(), base, patches, 1, idx))
    }

    ghost predicate Valid()
      reads this
    {
      forall k <- docCache :: docCache[k] == TextAt(k)
    }

    method ReconstructSnapshot(targetIdx: nat) returns (result: string)
      requires Valid()
      modifies this
      ensures Valid() && result == TextAt(targetIdx)
      ensures docCache.Keys == old(docCache.Keys) + {targetIdx}
    {
      hide Restored, Join, Split;
      if targetIdx in docCache { return docCache[targetIdx]; }
      var lines := Split(base);
      for i := 1 to targetIdx + 1
        invariant lines == LinesAfter(Restored(), base, patches, 1, i - 1)
        invariant docCache == old(docCache)
      {
        lines := Step(lines, i);
      }
      result := Join(lines);
      docCache := docCache[targetIdx := result];
    }

    method Step(lines: seq<string>, i: nat) returns (next: seq<string>)
      ensures next == Restored()(lines, PatchAt(patches, i))
    {
      next := lines;
      var patch := if i < |patches| then patches[i] else "";
      EmptyPatchKeepsLines(lines);
      if patch != "" {
        next := RestorePatch.ApplyPatch(lines, patch);
      }
    }
  }

  /** The older page's documents do not depend on patch 0. */
  lemma FirstPatchIgnored(page: RestoredPage, other: RestoredPage, idx: nat)
    requires page.base == other.base && |page.patches| == |other.patches|
    requires forall k :: 0 < k < |page.patches| ==> page.patches[k] == other.patches[k]
    ensures page.TextAt(idx) == other.TextAt(idx)
  {
    FirstPatchUnread(Restored(), page.base, page.patches, other.patches, idx);
  }

  /** A well-formed history without trailers in which no body row looks like a file
      header. */
  ghost predicate PlainHistory(base: string, patches: seq<string>, history: seq<seq<Hunk>>) {
    && WellFormedHistory(SnapshotCache.Synaptic(), base, patches, 0, history)
    && forall k :: 0 <= k < |history| ==> IsPrinted(patches[k], history[k], []) && WorkerPatch.NoFileHeaders(history[k])
  }

  lemma StepsAgree(base: string, patches: seq<string>, history: seq<seq<Hunk>>, n: nat)
    requires PlainHistory(base, patches, history)
    ensures var lines, patch := LinesAfter(SnapshotCache.Synaptic(), base, patches, 0, n), PatchAt(patches, n);
      SnapshotCache.Synaptic()(lines, patch) == WorkerSnapshots.Worker()(lines, patch) == Restored()(lines, patch)
  {
    var lines := LinesAfter(SnapshotCache.Synaptic(), base, patches, 0, n);
    if n < |patches| {
      assert WellFormedFor(LinesAfter(SnapshotCache.Synaptic(), base, patches, 0, n - 0), patches[n], history[n]);
      assert IsPrinted(patches[n], history[n], []);
      var preamble :| IsPreamble(preamble) && patches[n] == Join(preamble + PrintHunks(history[n]) + []);
      assert preamble + PrintHunks(history[n]) + [] == preamble + PrintHunks(history[n]);
      WorkerPatch.AppliersAgree(lines, preamble, history[n]);
    } else {
      SnapshotCache.SynapticIsApplier();
      WorkerSnapshots.WorkerIsApplier();
      EmptyPatchKeepsLines(lines);
    }
  }

  lemma {:induction false} ReplaysAgree(base: string, patches: seq<string>, history: seq<seq<Hunk>>, n: nat)
    requires PlainHistory(base, patches, history)
    ensures LinesAfter(SnapshotCache.Synaptic(), base, patches, 0, n)
         == LinesAfter(WorkerSnapshots.Worker(), base, patches, 0, n)
         == LinesAfter(Restored(), base, patches, 0, n)
  {
    hide SnapshotCache.Synaptic, WorkerSnapshots.Worker, Restored, PlainHistory;
    if n > 0 {
      ReplaysAgree(base, patches, history, n - 1);
      StepsAgree(base, patches, history, n - 1);
    }
  }

  lemma DatasetTextsAgree(page: SnapshotCache.Page, ds: WorkerSnapshots.Dataset, history: seq<seq<Hunk>>, idx: nat)
    requires page.base == ds.baseDoc && page.patches == ds.patches
    requires PlainHistory(page.base, page.patches, history) && PatchAt(page.patches, 0) == ""
    ensures page.TextAt(idx) == ds.TextAt(idx)
  {
    ReplaysAgree(page.base, page.patches, history, idx + 1);
    StartsFromOne(page.base, page.patches, idx);
    JoinSplit(ds.baseDoc);
  }

  /** With an empty patch 0 the three reconstructions, cached or not, of the same
      history give the same text. */
  lemma TextsAgree(page: SnapshotCache.Page, ds: WorkerSnapshots.Dataset, restored: RestoredPage,
                   history: seq<seq<Hunk>>, idx: nat)
    requires page.base == ds.baseDoc == restored.base && page.patches == ds.patches == restored.patches
    requires PlainHistory(page.base, page.patches, history) && PatchAt(page.patches, 0) == ""
    ensures page.TextAt(idx) == ds.TextAt(idx) == restored.TextAt(idx)
  {
    DatasetTextsAgree(page, ds, history, idx);
    ReplaysAgree(page.base, page.patches, history, idx + 1);
    StartsFromOne(page.base, page.patches, idx);
  }

  lemma StartsFromOne(base: string, patches: seq<string>, n: nat)
    requires PatchAt(patches, 0) == ""
    ensures LinesAfter(WorkerSnapshots.Worker(), base, patches, 0, n + 1)
         == LinesAfter(WorkerSnapshots.Worker(), base, patches, 1, n)
    ensures LinesAfter(Restored(), base, patches, 0, n + 1) == LinesAfter(Restored(), base, patches, 1, n)
  {
    forall lines ensures Restored()(lines, "") == lines {
      EmptyPatchKeepsLines(lines);
    }
    WorkerSnapshots.WorkerIsApplier();
    EmptyFirstPatch(WorkerSnapshots.Worker(), base, patches, n);
    EmptyFirstPatch(Restored(), base, patches, n);
  }

  /** Such a history is well-formed for the worker too. */
  lemma PlainReplayable(ds: WorkerSnapshots.Dataset, history: seq<seq<Hunk>>)
    requires PlainHistory(ds.baseDoc, ds.patches, history) && PatchAt(ds.patches, 0) == ""
    ensures ds.Replayable()
  {
    hide SnapshotCache.Synaptic, WorkerSnapshots.Worker, Restored, WellFormedFor, LinesAfter, IsPrinted, PatchAt;
    hide WorkerPatch.NoFileHeaders;
    forall k | 1 <= k < |history|
      ensures WellFormedFor(LinesAfter(WorkerSnapshots.Worker(), ds.baseDoc, ds.patches, 1, k - 1),
                            ds.patches[k], history[k])
    {
      ReplaysAgree(ds.baseDoc, ds.patches, history, k);
      StartsFromOne(ds.baseDoc, ds.patches, k - 1);
      assert WellFormedFor(LinesAfter(SnapshotCache.Synaptic(), ds.baseDoc, ds.patches, 0, k - 0),
                           ds.patches[k], history[k]);
    }
    WorkerSnapshots.WellFormedReplayable(ds, history);
  }

  /** So a worker that is given the page's history, and then asked for any documents in
      any order, replies with the texts of the page. */
  lemma {:induction false} RepliesAgree(page: SnapshotCache.Page, history: seq<seq<Hunk>>, s: WorkerSnapshots.Session,
                                        requests: seq<WorkerSnapshots.Message>)
    requires PlainHistory(page.base, page.patches, history) && PatchAt(page.patches, 0) == ""
    requires s.dataset.Some? && s.dataset.value.baseDoc == page.base && s.dataset.value.patches == page.patches
    requires s.cancelled == {}
    requires forall k :: 0 <= k < |requests| ==>
      requests[k].op.SnapshotAt? && requests[k].op.idx >= 0 && requests[k].reqId != "" && requests[k].hash == s.hash
    ensures s.dataset.value.Replayable()
    ensures var replies := WorkerSnapshots.RespondAll(s, requests);
      && |replies| == |requests|
      && forall k :: 0 <= k < |requests| ==>
           replies[k] == WorkerSnapshots.Snapshot(requests[k].op.idx, page.TextAt(requests[k].op.idx))
    decreases |requests|
  {
    hide PlainHistory, LinesAfter, Restored;
    PlainReplayable(s.dataset.value, history);
    if requests != [] {
      var m := requests[0];
      DatasetTextsAgree(page, s.dataset.value, history, m.op.idx);
      assert s.(cancelled := s.cancelled - {m.reqId}) == s;
      assert forall k :: 0 <= k < |requests[1..]| ==> requests[1..][k] == requests[k + 1];
      RepliesAgree(page, history, s, requests[1..]);
    }
  }

  // ----- The two pages, trailers or not -------------------------------------------------

  /** A well-formed history in which no added line starts with `++`; a final newline or
      marker rows may follow its patches. */
  ghost predicate PageHistory(base: string, patches: seq<string>, history: seq<seq<Hunk>>) {
    && WellFormedHistory(SnapshotCache.Synaptic(), base, patches, 0, history)
    && forall k, i :: 0 <= k < |history| && 0 <= i < |history[k]| ==> !RestorePatch.AddsPlusPlus(history[k][i].rows)
  }

  lemma PageStepsAgree(base: string, patches: seq<string>, history: seq<seq<Hunk>>, n: nat)
    requires PageHistory(base, patches, history)
    ensures var lines, patch := LinesAfter(SnapshotCache.Synaptic(), base, patches, 0, n), PatchAt(patches, n);
      SnapshotCache.Synaptic()(lines, patch) == Restored()(lines, patch)
  {
    var lines := LinesAfter(SnapshotCache.Synaptic(), base, patches, 0, n);
    if n < |patches| {
      assert WellFormedFor(LinesAfter(SnapshotCache.Synaptic(), base, patches, 0, n - 0), patches[n], history[n]);
      var trailer :| IsPrinted(patches[n], history[n], trailer);
      var preamble :| IsPreamble(preamble) && patches[n] == Join(preamble + PrintHunks(history[n]) + trailer);
      RestorePatch.AgreesOnTrailers(lines, preamble, history[n], trailer);
    } else {
      SnapshotCache.SynapticIsApplier();
      EmptyPatchKeepsLines(lines);
    }
  }

  lemma {:induction false} PageReplaysAgree(base: string, patches: seq<string>, history: seq<seq<Hunk>>, n: nat)
    requires PageHistory(base, patches, history)
    ensures LinesAfter(SnapshotCache.Synaptic(), base, patches, 0, n) == LinesAfter(Restored(), base, patches, 0, n)
  {
    hide SnapshotCache.Synaptic, Restored, PageHistory;
    if n > 0 {
      PageReplaysAgree(base, patches, history, n - 1);
      PageStepsAgree(base, patches, history, n - 1);
    }
  }

  /** With an empty patch 0 the old page and the new one show the same text of the same
      history, blank lines and markers that got into it included. */
  lemma PageTextsAgree(page: SnapshotCache.Page, restored: RestoredPage, history: seq<seq<Hunk>>, idx: nat)
    requires page.base == restored.base && page.patches == restored.patches
    requires PageHistory(page.base, page.patches, history) && PatchAt(page.patches, 0) == ""
    ensures page.TextAt(idx) == restored.TextAt(idx)
  {
    PageReplaysAgree(page.base, page.patches, history, idx + 1);
    StartsFromOne(page.base, page.patches, idx);
  }
}
