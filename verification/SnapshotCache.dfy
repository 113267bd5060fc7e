/** Snapshots of the viewer page: asynchronous reconstructions and the metrics pass
    share two caches and interleave at every `await`. */
module SnapshotCache {
  import opened Lines
  import opened ArraySplice
  import opened UnifiedDiff
  import opened PatchRows
  import opened PatchEdits
  import opened Replay
  import SynapticPatch
  import EditDistance

  function Synaptic(): Applier {
    (lines: seq<string>, patch: string) => SynapticPatch.ApplyText(lines, patch)
  }

  lemma SynapticIsApplier()
    ensures IsApplier(Synaptic())
  {
    forall lines ensures Synaptic()(lines, "") == lines {
      RawOfNothing(false);
    }
    forall lines, patch | AllNewlineFree(lines) ensures AllNewlineFree(Synaptic()(lines, patch)) {
      SynapticPatch.ApplyTextNewlineFree(lines, patch);
    }
  }

  // ----- How far a call has to walk --------------------------------------------------

  /** The number of the first patch to apply: behind the nearest cached checkpoint at or
      below `i`, ten documents at a time. */
  function StartFrom(cached: set<nat>, i: int): (start: nat)
    decreases i
  {
    if i < 0 then 0 else if i in cached then i + 1 else StartFrom(cached, i - 10)
  }

  /** How many patches a call for `idx` has to apply. */
  function PatchesLeft(cached: set<nat>, idx: nat): int {
    if idx in cached then 0 else idx + 1 - StartFrom(cached, idx / 10 * 10)
  }

  lemma {:induction false} StartIsNearest(cached: set<nat>, i: int, start: nat)
    requires i >= -10 && i % 10 == 0 && start <= Max(0, i + 1)
    requires start > 0 ==> (start - 1) % 10 == 0 && start - 1 in cached
    requires forall j: nat | start <= j <= i && j % 10 == 0 :: j !in cached
    ensures StartFrom(cached, i) == start
    decreases i
  {
    if i >= 0 && i !in cached {
      StartIsNearest(cached, i - 10, start);
    }
  }

  datatype Metrics = Metrics(lines: nat, tokens: nat, lev: int)

  /** The page's data and its global caches. */
  class Page {
    const base: string
    const patches: seq<string>
    const impacts: seq<int>
    var docCache: map<nat, string>
    var patchCache: map<nat, string>
    var metrics: seq<Metrics>

    constructor (base: string, patches: seq<string>, impacts: seq<int>)
      requires NeverEmpty(Synaptic(), base, patches, 0)
      ensures Valid() && docCache == map[] && metrics == []
      ensures this.base == base && this.patches == patches && this.impacts == impacts
    {
      this.base, this.patches, this.impacts := base, patches, impacts;
      docCache, patchCache, metrics := map[], map[], [];
    }

    /** The plain replay of patches 0, ..., n - 1. */
    function After(n: nat): seq<string> {
      LinesAfter(Synaptic(), base, patches, 0, n)
    }

    function TextAt(idx: nat): string {
      Join(After(idx + 1))
    }

    /** Every cached document is the plain replay, every cached patch the stored one. */
    ghost predicate Valid()
      reads this
    {
      && NeverEmpty(Synaptic(), base, patches, 0)
      && (forall k <- docCache :: docCache[k] == TextAt(k))
      && (forall k <- patchCache :: patchCache[k] == PatchAt(patches, k))
    }

    function MetricsAt(k: nat): Metrics
      requires k < |impacts|
    {
      Metrics(|After(k + 1)|, |EditDistance.Words(TextAt(k))|, impacts[k])
    }

    lemma FirstLines()
      ensures Split(base) == After(0)
    {
    }

    /** Document 0 is the base document after patch 0, and each later one the document
        before it after its own patch. */
    lemma EachPatchCounts(idx: nat)
      requires Valid()
      ensures TextAt(0) == Join(SynapticPatch.ApplyText(Split(base), PatchAt(patches, 0)))
      ensures TextAt(idx + 1) == Join(SynapticPatch.ApplyText(Split(TextAt(idx)), PatchAt(patches, idx + 1)))
    {
      FirstLines();
      SynapticIsApplier();
      CheckpointExact(Synaptic(), base, patches, 0, idx + 1);
      assert LinesAfter(Synaptic(), base, patches, 0, 0) == Split(base);
    }

    /** What the metrics of a document are, told from its text alone. */
    lemma MetricsOfText(k: nat)
      requires Valid() && k < |impacts|
      ensures MetricsAt(k) == Metrics(|Split(TextAt(k))|, |EditDistance.Words(TextAt(k))|, impacts[k])
    {
      SynapticIsApplier();
      CheckpointExact(Synaptic(), base, patches, 0, k + 1);
    }

    method GetPatch(idx: nat) returns (p: string)
      requires Valid()
      modifies this`patchCache
      ensures Valid() && p == PatchAt(patches, idx)
      ensures patchCache.Keys == old(patchCache.Keys) + {idx}
    {
      if idx in patchCache { return patchCache[idx]; }
      p := if idx < |patches| then patches[idx] else "";
      patchCache := patchCache[idx := p];
    }

    /** One patch of a replay, as both walks apply it. */
    method Advance(lines: seq<string>, i: nat, p: string) returns (next: seq<string>)
      requires lines == After(i) && p == PatchAt(patches, i)
      ensures next == After(i + 1)
    {
      next := lines;
      SynapticIsApplier();
      if p != "" {
        next := SynapticPatch.ApplySynapticPatch(lines, p);
      }
    }

    /** Looks for the nearest cached checkpoint, ten documents at a time. */
    method FindAnchor(idx: nat) returns (startIdx: nat, lines: seq<string>)
      requires Valid()
      ensures startIdx <= idx + 1 && lines == After(startIdx)
      ensures startIdx > 0 ==> (startIdx - 1) % 10 == 0 && startIdx - 1 in docCache
      ensures forall j | startIdx <= j <= idx && j % 10 == 0 :: j !in docCache
    {
      hide Synaptic, LinesAfter, Join, Split, IsApplier;
      startIdx := 0;
      lines := Split(base);
      FirstLines();
      var i: int := idx / 10 * 10;
      while i >= 0
        invariant -10 <= i <= idx && i % 10 == 0
        invariant startIdx == 0 && lines == After(0)
        invariant forall j: nat | i < j <= idx && j % 10 == 0 :: j !in docCache
        decreases i
      {
        if i in docCache {
          startIdx := i + 1;
          lines := Split(docCache[i]);
          SynapticIsApplier();
          CheckpointExact(Synaptic(), base, patches, 0, i + 1);
          break;
        }
        i := i - 10;
      }
    }

    // ----- reconstructSnapshot ------------------------------------------------

    /** `reconstructSnapshot(idx)` up to its first suspension or its end. */
    method Request(idx: nat) returns (c: Reconstruction)
      requires Valid()
      modifies this`patchCache
      ensures Valid() && fresh(c) && c.page == this && c.idx == idx && c.Valid()
      ensures docCache == old(docCache) && (c.done <==> idx in docCache)
      ensures c.Remaining() == PatchesLeft(docCache.Keys, idx)
      ensures Warm() && idx < |impacts| ==> c.Remaining() <= idx % 10
    {
      hide Synaptic, LinesAfter, Join, Split, IsApplier;
      if idx in docCache {
        c := new Reconstruction.Finished(this, idx, docCache[idx]);
        return;
      }
      var startIdx, lines := FindAnchor(idx);
      ghost var anchor := idx / 10 * 10;
      assert startIdx == idx + 1 ==> idx in docCache;
      StartIsNearest(docCache.Keys, anchor, startIdx);
      var p := GetPatch(startIdx);
      c := new Reconstruction.Suspended(this, idx, startIdx, lines, p);
      if Warm() && idx < |impacts| {
        assert anchor % 10 == 0 && anchor in docCache && idx - anchor == idx % 10;
      }
    }

    /** Keeps a document in the cache. */
    method Keep(k: nat, text: string)
      requires Valid() && text == TextAt(k)
      modifies this`docCache
      ensures Valid() && docCache == old(docCache)[k := text]
    {
      hide Synaptic, LinesAfter, Join, Split;
      docCache := docCache[k := text];
    }

    /** One turn of the event loop for a suspended reconstruction: from behind the
        `await` to the next one, or to the end. */
    method Resume(c: Reconstruction)
      requires Valid() && c.page == this && c.Valid() && !c.done
      modifies this`docCache, this`patchCache, c
      ensures Valid() && c.Valid()
      ensures docCache.Keys == old(docCache.Keys) + (if old(c.i) % 10 == 0 then {old(c.i)} else {})
                             + (if c.done then {c.idx} else {})
      ensures c.Remaining() == old(c.Remaining()) - 1 && (c.done <==> c.Remaining() == 0)
    {
      hide Synaptic, LinesAfter, Join, Split, IsApplier;
      c.lines := Advance(c.lines, c.i, c.pending);
      if c.i % 10 == 0 && c.i !in docCache {
        Keep(c.i, Join(c.lines));
      }
      c.i := c.i + 1;
      if c.i <= c.idx {
        c.pending := GetPatch(c.i);
      } else {
        var res := Join(c.lines);
        Keep(c.idx, res);
        c.result := res;
        c.done := true;
      }
    }

    // ----- computeSynapticMetrics ----------------------------------------------

    /** Every tenth document of the history is cached. */
    ghost predicate Warm()
      reads this
    {
      forall k: nat | k < |impacts| && k % 10 == 0 :: k in docCache
    }

    method StartMetrics() returns (m: MetricsPass)
      requires Valid()
      modifies this`patchCache, this`metrics
      ensures Valid() && fresh(m) && m.page == this && m.Valid() && m.i == 0
    {
      metrics := [];
      var p := "";
      if 0 < |impacts| {
        p := GetPatch(0);
      }
      m := new MetricsPass(this, p);
    }

    /** The metrics of document `i`, and its checkpoint. */
    method Record(lines: seq<string>, i: nat)
      requires Valid() && i < |impacts| && lines == After(i + 1)
      modifies this`metrics, this`docCache
      ensures Valid() && metrics == old(metrics) + [MetricsAt(i)]
      ensures docCache == if i % 10 == 0 then old(docCache)[i := TextAt(i)] else old(docCache)
    {
      hide Synaptic, LinesAfter, Join, EditDistance.Words;
      var text := Join(lines);
      var tokens := |EditDistance.Words(text)|;
      var lev := if impacts[i] != 0 then impacts[i] else 0;
      metrics := metrics + [Metrics(|lines|, tokens, lev)];
      if i % 10 == 0 {
        docCache := docCache[i := text];
      }
    }

    method ResumeMetrics(m: MetricsPass)
      requires Valid() && m.page == this && m.Valid() && m.i < |impacts|
      modifies this, m
      ensures Valid() && m.Valid() && m.i == old(m.i) + 1
      ensures docCache.Keys == old(docCache.Keys) + (if old(m.i) % 10 == 0 then {old(m.i)} else {})
    {
      hide Synaptic, LinesAfter, Join, Split, IsApplier, EditDistance.Words;
      m.lines := Advance(m.lines, m.i, m.pending);
      Record(m.lines, m.i);
      m.i := m.i + 1;
      if m.i < |impacts| {
        m.pending := GetPatch(m.i);
      }
    }
  }

  /** A call of `reconstructSnapshot`: its local variables while it is suspended
      with patch `i` in hand, or its result. */
  class Reconstruction {
    const page: Page
    const idx: nat
    var i: nat
    var lines: seq<string>
    var pending: string
    var done: bool
    var result: string

    ghost predicate Valid()
      reads this
    {
      if done then result == page.TextAt(idx)
      else i <= idx && lines == page.After(i) && pending == PatchAt(page.patches, i)
    }

    /** How many patches the call has still to apply. */
    function Remaining(): nat
      requires Valid()
      reads this
    {
      if done then 0 else idx + 1 - i
    }

    constructor Finished(page: Page, idx: nat, result: string)
      requires result == page.TextAt(idx)
      ensures this.page == page && this.idx == idx && Valid() && done
    {
      this.page, this.idx, this.result, this.done := page, idx, result, true;
      i, lines, pending := 0, [], "";
    }

    constructor Suspended(page: Page, idx: nat, i: nat, lines: seq<string>, pending: string)
      requires i <= idx && lines == page.After(i) && pending == PatchAt(page.patches, i)
      ensures this.page == page && this.idx == idx && this.i == i && Valid() && !done
    {
      this.page, this.idx, this.i, this.lines, this.pending, this.done := page, idx, i, lines, pending, false;
      result := "";
    }
  }

  /** The metrics pass, suspended with patch `i` in hand or finished. */
  class MetricsPass {
    const page: Page
    var i: nat
    var lines: seq<string>
    var pending: string

    ghost predicate Valid()
      reads this, page
    {
      && i <= |page.impacts| && lines == page.After(i)
      && (i < |page.impacts| ==> pending == PatchAt(page.patches, i))
      && |page.metrics| == i && (forall k | 0 <= k < i :: page.metrics[k] == page.MetricsAt(k))
      && (forall k: nat | k < i && k % 10 == 0 :: k in page.docCache)
    }

    constructor (page: Page, pending: string)
      requires page.metrics == [] && (0 < |page.impacts| ==> pending == PatchAt(page.patches, 0))
      ensures this.page == page && i == 0 && Valid()
    {
      this.page, this.i, this.lines, this.pending := page, 0, Split(page.base), pending;
    }
  }

  // ----- Any interleaving --------------------------------------------------------

  /** What the event loop may do next: start a call, let the k-th call run up to its
      next `await`, or let the metrics pass do so. */
  datatype Turn = Call(idx: nat) | Continue(k: nat) | ContinueMetrics

  /** The pace of the turns without the texts: which documents are cached, what each call
      is for and how many patches it has left, and how far the metrics pass is. */
  datatype Track = Track(idx: nat, left: int)

  datatype Pace = Pace(cached: set<nat>, calls: seq<Track>, metrics: nat)

  function Paced(p: Pace, t: Turn, commits: nat): Pace {
    match t
    case Call(idx) => p.(calls := p.calls + [Track(idx, PatchesLeft(p.cached, idx))])
    case Continue(k) =>
      if k >= |p.calls| || p.calls[k].left <= 0 then p
      else
        var c := p.calls[k];
        p.(calls := p.calls[k := c.(left := c.left - 1)], cached := p.cached + NewlyCached(c))
    case ContinueMetrics =>
      if p.metrics >= commits then p
      else p.(metrics := p.metrics + 1, cached := p.cached + if p.metrics % 10 == 0 then {p.metrics} else {})
  }

  /** What one more patch of a call puts into the cache: a checkpoint when it is due, and
      the document itself at the end. */
  function NewlyCached(c: Track): set<nat> {
    var i := c.idx + 1 - c.left;
    (if i >= 0 && i % 10 == 0 then {i} else {}) + (if c.left == 1 then {c.idx} else {})
  }

  function PaceAfter(cached: set<nat>, turns: seq<Turn>, commits: nat): Pace {
    if turns == [] then Pace(cached, [], 0)
    else Paced(PaceAfter(cached, turns[..|turns| - 1], commits), turns[|turns| - 1], commits)
  }

  /** The indices of the calls, in the order of the turns. */
  function CalledFor(turns: seq<Turn>): seq<nat> {
    if turns == [] then []
    else
      var t := turns[|turns| - 1];
      CalledFor(turns[..|turns| - 1]) + if t.Call? then [t.idx] else []
  }

  function Count(turns: seq<Turn>, t: Turn): nat {
    if turns == [] then 0
    else Count(turns[..|turns| - 1], t) + if turns[|turns| - 1] == t then 1 else 0
  }

  /** Every call is for the index of its turn, and the metrics pass takes one commit at
      each of its turns, until there is none left. */
  lemma {:induction false} PaceCounts(cached: set<nat>, turns: seq<Turn>, commits: nat)
    ensures var p := PaceAfter(cached, turns, commits);
      && |p.calls| == |CalledFor(turns)|
      && (forall k :: 0 <= k < |p.calls| ==> p.calls[k].idx == CalledFor(turns)[k])
      && p.metrics == Min(commits, Count(turns, ContinueMetrics))
  {
    hide PatchesLeft, NewlyCached;
    if turns != [] {
      PaceCounts(cached, turns[..|turns| - 1], commits);
    }
  }

  /** What the call of turn `t` has left: what it had left when it was made, less the
      turns it has been given since. */
  lemma {:induction false} CallProgress(cached: set<nat>, turns: seq<Turn>, commits: nat, t: nat)
    requires t < |turns| && turns[t].Call?
    ensures var k, p := |CalledFor(turns[..t])|, PaceAfter(cached, turns, commits);
      var left := PatchesLeft(PaceAfter(cached, turns[..t], commits).cached, turns[t].idx);
      && left >= 0 && k < |p.calls|
      && p.calls[k] == Track(turns[t].idx, Max(0, left - Count(turns[t + 1..], Continue(k))))
    decreases |turns|
  {
    hide NewlyCached, PatchesLeft;
    var n := |turns| - 1;
    var before := turns[..n];
    var left := PatchesLeft(PaceAfter(cached, turns[..t], commits).cached, turns[t].idx);
    LeftIsNatural(PaceAfter(cached, turns[..t], commits).cached, turns[t].idx);
    if t == n {
      PaceCounts(cached, before, commits);
      assert turns[t + 1..] == [];
    } else {
      assert before[..t] == turns[..t];
      CallProgress(cached, before, commits, t);
      assert turns[t + 1..][..n - t - 1] == before[t + 1..] && turns[t + 1..][n - t - 1] == turns[n];
    }
  }

  lemma LeftIsNatural(cached: set<nat>, idx: nat)
    ensures PatchesLeft(cached, idx) >= 0
    ensures PatchesLeft(cached, idx) == 0 <==> idx in cached
  {
    StartBounded(cached, idx / 10 * 10);
  }

  lemma {:induction false} StartBounded(cached: set<nat>, i: int)
    requires i >= -10
    ensures StartFrom(cached, i) <= Max(0, i + 1) && (StartFrom(cached, i) == i + 1 && i >= 0 ==> i in cached)
    decreases i
  {
    if i >= 0 && i !in cached { StartBounded(cached, i - 10); }
  }

  /** The call of turn `t` is finished by the end: its document was cached when it was
      called, or it has been given as many turns as it had patches left. */
  ghost predicate Finishes(cached: set<nat>, turns: seq<Turn>, commits: nat, t: nat)
    requires t < |turns| && turns[t].Call?
  {
    var before, idx := PaceAfter(cached, turns[..t], commits).cached, turns[t].idx;
    idx in before || PatchesLeft(before, idx) <= Count(turns[t + 1..], Continue(|CalledFor(turns[..t])|))
  }

  /** The calls and the metrics pass keep the pace. */
  ghost predicate Keeps(p: Pace, page: Page, calls: seq<Reconstruction>, m: MetricsPass)
    reads page, calls, m
    requires forall c <- calls :: c.Valid()
  {
    && page.docCache.Keys == p.cached && m.i == p.metrics && |calls| == |p.calls|
    && forall k :: 0 <= k < |calls| ==> calls[k].idx == p.calls[k].idx && calls[k].Remaining() == p.calls[k].left
  }

  ghost predicate Running(page: Page, calls: seq<Reconstruction>, m: MetricsPass)
    reads page, calls, m
  {
    && page.Valid() && m.page == page && m.Valid()
    && (forall c <- calls :: c.page == page && c.Valid())
    && forall i, j :: 0 <= i < j < |calls| ==> calls[i] != calls[j]
  }

  /** One turn of the event loop. */
  method TakeTurn(page: Page, t: Turn, calls: seq<Reconstruction>, m: MetricsPass, ghost p: Pace)
    returns (calls': seq<Reconstruction>)
    requires Running(page, calls, m) && Keeps(p, page, calls, m)
    modifies page, m, set c <- calls
    ensures Running(page, calls', m) && Keeps(Paced(p, t, |page.impacts|), page, calls', m)
    ensures calls <= calls' && forall c <- calls' :: c in calls || fresh(c)
  {
    hide PatchesLeft, Synaptic, LinesAfter, Join, Split, NeverEmpty, PatchAt, Page.MetricsAt;
    calls' := calls;
    match t {
      case Call(idx) =>
        var c := page.Request(idx);
        calls' := calls + [c];
      case Continue(k) => ContinueCall(page, k, calls, m, p);
      case ContinueMetrics =>
        if m.i < |page.impacts| {
          page.ResumeMetrics(m);
        }
    }
  }

  method ContinueCall(page: Page, k: nat, calls: seq<Reconstruction>, m: MetricsPass, ghost p: Pace)
    requires Running(page, calls, m) && Keeps(p, page, calls, m)
    modifies page, set c <- calls
    ensures Running(page, calls, m) && Keeps(Paced(p, Continue(k), |page.impacts|), page, calls, m)
  {
    hide PatchesLeft, Synaptic, LinesAfter, Join, Split, NeverEmpty, PatchAt, Page.MetricsAt;
    if k < |calls| && !calls[k].done {
      var c := calls[k];
      assert c in calls && c.Valid();
      page.Resume(c);
      forall j | 0 <= j < |calls| && j != k
        ensures calls[j].Valid() && calls[j].Remaining() == old(calls[j].Remaining()) && calls[j].idx == p.calls[j].idx
      {
        assert calls[j] in calls && calls[j] != c;
      }
    }
  }

  /** Whatever the order of the turns, every call that has finished returned the
      plain replay, and the caches hold nothing else. The k-th call is for the index of
      the k-th call turn, and is finished exactly when it has been given enough turns.
      When the metrics pass has finished, later calls apply at most nine patches. */
  method EventLoop(page: Page, turns: seq<Turn>) returns (calls: seq<Reconstruction>, m: MetricsPass)
    requires page.Valid()
    modifies page
    ensures page.Valid() && m.page == page && m.Valid()
    ensures forall c <- calls :: c.page == page && c.Valid()
    ensures forall c <- calls | c.done :: c.result == page.TextAt(c.idx)
    ensures |calls| == |CalledFor(turns)| && forall k :: 0 <= k < |calls| ==> calls[k].idx == CalledFor(turns)[k]
    ensures forall t :: 0 <= t < |turns| && turns[t].Call? ==>
      var k := |CalledFor(turns[..t])|;
      k < |calls| && (calls[k].done <==> Finishes(old(page.docCache.Keys), turns, |page.impacts|, t))
    ensures m.i == Min(|page.impacts|, Count(turns, ContinueMetrics))
    ensures m.i == |page.impacts| ==> page.Warm() && |page.metrics| == |page.impacts|
  {
    hide PatchesLeft, PaceAfter;
    ghost var cached := page.docCache.Keys;
    calls := [];
    m := page.StartMetrics();
    StartingPace(cached, turns[..0], |page.impacts|);
    for n := 0 to |turns|
      invariant fresh(m) && forall c <- calls :: fresh(c)
      invariant Running(page, calls, m) && Keeps(PaceAfter(cached, turns[..n], |page.impacts|), page, calls, m)
    {
      NextPace(cached, turns, |page.impacts|, n);
      calls := TakeTurn(page, turns[n], calls, m, PaceAfter(cached, turns[..n], |page.impacts|));
    }
    assert turns[..|turns|] == turns;
    PaceCounts(cached, turns, |page.impacts|);
    forall t | 0 <= t < |turns| && turns[t].Call?
      ensures var k := |CalledFor(turns[..t])|;
        k < |calls| && (calls[k].done <==> Finishes(cached, turns, |page.impacts|, t))
    {
      CallProgress(cached, turns, |page.impacts|, t);
      LeftIsNatural(PaceAfter(cached, turns[..t], |page.impacts|).cached, turns[t].idx);
      var k := |CalledFor(turns[..t])|;
      assert calls[k] in calls;
      assert calls[k].done <==> calls[k].Remaining() == 0;
    }
  }

  lemma StartingPace(cached: set<nat>, turns: seq<Turn>, commits: nat)
    requires turns == []
    ensures PaceAfter(cached, turns, commits) == Pace(cached, [], 0)
  {
  }

  lemma NextPace(cached: set<nat>, turns: seq<Turn>, commits: nat, n: nat)
    requires n < |turns|
    ensures PaceAfter(cached, turns[..n + 1], commits)
         == Paced(PaceAfter(cached, turns[..n], commits), turns[n], commits)
  {
    assert turns[..n + 1][..n] == turns[..n];
  }

  // ----- When the replay never gets empty -----------------------------------------

  lemma SynapticKeepsALine()
    ensures KeepsALine(Synaptic())
  {
    forall lines, text, hunks | lines != [] && WellFormedFor(lines, text, hunks)
      ensures Synaptic()(lines, text) != []
    {
      var trailer :| IsPrinted(text, hunks, trailer);
      var preamble :| IsPreamble(preamble) && text == Join(preamble + PrintHunks(hunks) + trailer);
      TrailerStartsNoHunk(trailer);
      SynapticPatch.AppliesRowsAfterHunks(lines, preamble, hunks, trailer);
      LastLineStays(lines, 0, hunks, SynapticPatch.Contributions(trailer));
    }
  }

  /** A history of well-formed patches meets the condition of the caches. */
  lemma WellFormedNeverEmpty(base: string, patches: seq<string>, history: seq<seq<Hunk>>)
    requires WellFormedHistory(Synaptic(), base, patches, 0, history)
    ensures NeverEmpty(Synaptic(), base, patches, 0)
  {
    hide Synaptic;
    SynapticIsApplier();
    SynapticKeepsALine();
    HistoryNeverEmpty(Synaptic(), base, patches, 0, history);
  }

  /** The condition is exact: a checkpoint can stand for its lines in front of every
      further patch if and only if there is at least one line. */
  lemma CheckpointStandsForLines(lines: seq<string>)
    requires AllNewlineFree(lines)
    ensures (forall patch ::
               SynapticPatch.ApplyText(Split(Join(lines)), patch) == SynapticPatch.ApplyText(lines, patch))
       <==> lines != []
  {
    hide SynapticPatch.ApplyText, SynapticPatch.InsertionPatch, Split, Join;
    if lines != [] {
      SplitJoin(lines);
    } else {
      SplitNothing();
      var patch := SynapticPatch.InsertionPatch([], 1, 1, ["x"]);
      SynapticPatch.AppliesInsertion([], [], 1, 1, ["x"]);
      SynapticPatch.AppliesInsertion([""], [], 1, 1, ["x"]);
      assert |SynapticPatch.ApplyText([], patch)| == 1;
      assert |SynapticPatch.ApplyText([""], patch)| == 2;
    }
  }

  /** The text of no lines reads back as one empty line. */
  lemma SplitNothing()
    ensures Split(Join([])) == [""]
  {
  }
}
