/** The snapshot worker: a cache of texts, a cursor on the last document it built,
    and cancellation. Seen from outside it is a plain replay. */
module WorkerSnapshots {
  import opened Lines
  import opened Header
  import opened Replay
  import opened PatchRows
  import opened UnifiedDiff
  import opened Wrappers
  import WorkerPatch

  function Worker(): Applier {
    (lines: seq<string>, patch: string) => WorkerPatch.ApplyText(lines, patch)
  }

  lemma WorkerIsApplier()
    ensures IsApplier(Worker())
  {
    forall lines ensures Worker()(lines, "") == lines {
      RawOfNothing(true);
    }
    forall lines, patch | AllNewlineFree(lines) ensures AllNewlineFree(Worker()(lines, patch)) {
      WorkerPatch.ApplyTextNewlineFree(lines, patch);
    }
  }

  datatype Dataset = Dataset(baseDoc: string, patches: seq<string>, commits: nat) {
    /** The lines of document `n`; the worker starts from patch 1. */
    function After(n: nat): seq<string> {
      LinesAfter(Worker(), baseDoc, patches, 1, n)
    }

    function TextAt(idx: int): string {
      if idx <= 0 then baseDoc else Join(After(idx))
    }

    ghost predicate Replayable() {
      NeverEmpty(Worker(), baseDoc, patches, 1)
    }
  }

  // ----- Messages --------------------------------------------------------------

  /** A data set that is missing or has no list of commits arrives as None. */
  datatype Op =
    | Cancel(target: string)
    | InitDataset(dataset: Option<Dataset>, payloadHash: string)
    | SnapshotAt(idx: int)
    | Other

  datatype Message = Message(reqId: string, hash: string, op: Op)

  datatype Error = ReqIdRequired | NotInitialized | HashMismatch | Aborted | InvalidDataset | UnknownOp

  datatype Reply =
    | Cancelled(target: string)
    | Initialized(hash: string, commits: nat)
    | Snapshot(idx: int, text: string)
    | Failed(error: Error)

  /** What a client can know of the worker. */
  datatype Session = Session(dataset: Option<Dataset>, hash: string, cancelled: set<string>)

  const FRESH: Session := Session(None, "", {})

  function Or(s: string, other: string): string {
    if s != "" then s else other
  }

  /** The answer to a message, by plain replay. */
  function Respond(s: Session, m: Message): (Session, Reply) {
    if m.op.Cancel? then
      (if m.op.target == "" then s else s.(cancelled := s.cancelled + {m.op.target}), Cancelled(m.op.target))
    else
      var after := s.(cancelled := s.cancelled - {m.reqId});
      if m.reqId == "" then (after, Failed(ReqIdRequired))
      else if !m.op.InitDataset? && s.dataset.None? then (after, Failed(NotInitialized))
      else if !m.op.InitDataset? && s.hash != "" && m.hash != "" && m.hash != s.hash then (after, Failed(HashMismatch))
      else if m.reqId in s.cancelled then (after, Failed(Aborted))
      else
        match m.op
        case InitDataset(None, _) => (after, Failed(InvalidDataset))
        case InitDataset(Some(ds), payloadHash) =>
          var hash := Or(payloadHash, m.hash);
          (after.(dataset := Some(ds), hash := hash), Initialized(hash, ds.commits))
        case SnapshotAt(idx) => (after, Snapshot(idx, s.dataset.value.TextAt(idx)))
        case Other => (after, Failed(UnknownOp))
        case Cancel(_) => (after, Failed(UnknownOp))
  }

  function RespondAll(s: Session, messages: seq<Message>): seq<Reply>
    decreases |messages|
  {
    if messages == [] then []
    else
      var (s', reply) := Respond(s, messages[0]);
      [reply] + RespondAll(s', messages[1..])
  }

  // ----- The worker --------------------------------------------------------------

  class SnapshotWorker {
    var dataset: Option<Dataset>
    var datasetHash: string
    var snapshotCache: map<int, string>
    var snapshotCursorIdx: int
    var snapshotCursorLines: Option<seq<string>>
    var cancelledReqs: set<string>

    constructor ()
      ensures Valid() && View() == FRESH
    {
      dataset, datasetHash, cancelledReqs := None, "", {};
      snapshotCache, snapshotCursorIdx, snapshotCursorLines := map[], 0, None;
    }

    function View(): Session
      reads this
    {
      Session(dataset, datasetHash, cancelledReqs)
    }

    /** Cached texts and the cursor belong to the plain replay of the data set. */
    ghost predicate Valid()
      reads this
    {
      dataset.Some? ==>
        var ds := dataset.value;
        && ds.Replayable()
        && (forall k <- snapshotCache :: 0 <= k && snapshotCache[k] == ds.TextAt(k))
        && (snapshotCursorLines.Some? ==>
              0 <= snapshotCursorIdx && snapshotCursorLines.value == ds.After(snapshotCursorIdx))
    }

    lemma FirstLines(ds: Dataset)
      ensures Split(ds.baseDoc) == ds.After(0) && Join(ds.After(0)) == ds.baseDoc
    {
      JoinSplit(ds.baseDoc);
    }

    lemma CachedLines(ds: Dataset, anchor: nat)
      requires ds.Replayable()
      ensures Split(ds.TextAt(anchor)) == ds.After(anchor)
    {
      FirstLines(ds);
      WorkerIsApplier();
      CheckpointExact(Worker(), ds.baseDoc, ds.patches, 1, anchor);
    }

    method ApplyAt(ds: Dataset, lines: seq<string>, k: nat) returns (next: seq<string>)
      requires k >= 1 && lines == ds.After(k - 1)
      ensures next == ds.After(k)
    {
      var patch := if k < |ds.patches| then ds.patches[k] else "";
      next := WorkerPatch.ApplyPatchLines(lines, patch);
      assert PatchAt(ds.patches, 1 + k - 1) == patch;
    }

    /** `docTextAtLocal`. The check in front of patch `k` throws when `cancelled(k)`
        says so; None stands for the exception. */
    method DocTextAtLocal(idx: int, cancelled: int -> bool) returns (text: Option<string>)
      requires Valid() && dataset.Some?
      modifies this`snapshotCache, this`snapshotCursorIdx, this`snapshotCursorLines
      ensures Valid()
      ensures text.Some? ==> text.value == dataset.value.TextAt(idx)
      ensures text.None? ==> exists k :: 1 <= k <= idx && cancelled(k)
      ensures old(snapshotCache.Keys) <= snapshotCache.Keys && (text.Some? && idx > 0 ==> idx in snapshotCache)
      ensures text.Some? && idx > 0 && idx !in old(snapshotCache) ==>
        snapshotCursorIdx == idx && snapshotCursorLines == Some(dataset.value.After(idx))
      ensures text.None? ==>
        snapshotCursorIdx == old(snapshotCursorIdx) && snapshotCursorLines == old(snapshotCursorLines)
    {
      hide Worker, LinesAfter, Split, Join;
      var d := dataset.value;
      if idx <= 0 { return Some(d.baseDoc); }
      if idx in snapshotCache { return Some(snapshotCache[idx]); }
      if snapshotCursorLines.Some? && idx == snapshotCursorIdx + 1 {
        if cancelled(idx) { return None; }
        var nextLines := ApplyAt(d, snapshotCursorLines.value, idx);
        snapshotCursorIdx, snapshotCursorLines := idx, Some(nextLines);
        snapshotCache := snapshotCache[idx := Join(nextLines)];
        return Some(Join(nextLines));
      }
      var anchor, lines := FindAnchor(d, idx);
      var k := anchor + 1;
      while k <= idx
        invariant anchor < k <= idx + 1 && lines == d.After(k - 1)
        invariant Valid() && dataset == Some(d)
        invariant old(snapshotCache.Keys) <= snapshotCache.Keys && (k > idx ==> idx in snapshotCache)
        invariant snapshotCursorIdx == old(snapshotCursorIdx) && snapshotCursorLines == old(snapshotCursorLines)
      {
        if cancelled(k) { return None; }
        lines := ApplyAt(d, lines, k);
        if k == idx || k % 10 == 0 {
          snapshotCache := snapshotCache[k := Join(lines)];
        }
        k := k + 1;
      }
      snapshotCursorIdx, snapshotCursorLines := idx, Some(lines);
      var out := Or(snapshotCache[idx], Join(lines));
      snapshotCache := snapshotCache[idx := out];
      return Some(out);
    }

    /** The nearest cached document below `idx`, or the base document. */
    method FindAnchor(d: Dataset, idx: int) returns (anchor: int, lines: seq<string>)
      requires Valid() && dataset == Some(d) && idx >= 1
      ensures 0 <= anchor < idx && lines == d.After(anchor)
      ensures forall j | anchor < j < idx :: j !in snapshotCache
    {
      hide Worker, LinesAfter, Split, Join;
      anchor := 0;
      var j := idx - 1;
      while j > 0
        invariant 0 <= j < idx && anchor == 0
        invariant forall i | j < i < idx :: i !in snapshotCache
      {
        if j in snapshotCache {
          anchor := j;
          break;
        }
        j := j - 1;
      }
      FirstLines(d);
      lines := Split(d.baseDoc);
      if anchor > 0 {
        lines := Split(snapshotCache[anchor]);
        CachedLines(d, anchor);
      }
    }

    /** `onmessage`: the reply and the new session are those of plain replay. */
    method OnMessage(m: Message) returns (reply: Reply)
      requires Valid()
      requires m.op.InitDataset? && m.op.dataset.Some? ==> m.op.dataset.value.Replayable()
      modifies this
      ensures Valid()
      ensures (View(), reply) == Respond(old(View()), m)
    {
      hide Worker, LinesAfter, Split, Join;
      if m.op.Cancel? {
        if m.op.target != "" {
          cancelledReqs := cancelledReqs + {m.op.target};
        }
        return Cancelled(m.op.target);
      }
      reply := Answer(m);
      cancelledReqs := cancelledReqs - {m.reqId};
    }

    /** The body of the `try` block; an exception becomes a failure reply. */
    method Answer(m: Message) returns (reply: Reply)
      requires Valid() && !m.op.Cancel?
      requires m.op.InitDataset? && m.op.dataset.Some? ==> m.op.dataset.value.Replayable()
      modifies this
      ensures Valid() && cancelledReqs == old(cancelledReqs)
      ensures (View().(cancelled := cancelledReqs - {m.reqId}), reply) == Respond(old(View()), m)
    {
      hide Worker, LinesAfter, Split, Join;
      if m.reqId == "" { return Failed(ReqIdRequired); }
      if !m.op.InitDataset? {
        if dataset.None? { return Failed(NotInitialized); }
        if datasetHash != "" && m.hash != "" && m.hash != datasetHash { return Failed(HashMismatch); }
      }
      if m.reqId in cancelledReqs { return Failed(Aborted); }
      match m.op {
        case InitDataset(ds, payloadHash) =>
          if ds.None? { return Failed(InvalidDataset); }
          dataset, datasetHash := ds, Or(payloadHash, m.hash);
          FirstLines(ds.value);
          snapshotCache := map[0 := ds.value.baseDoc];
          snapshotCursorIdx, snapshotCursorLines := 0, Some(Split(ds.value.baseDoc));
          reply := Initialized(datasetHash, ds.value.commits);
        case SnapshotAt(idx) =>
          var isCancelled := m.reqId in cancelledReqs;
          var text := DocTextAtLocal(idx, _ => isCancelled);
          if text.None? { return Failed(Aborted); }
          reply := Snapshot(idx, text.value);
        case Other =>
          return Failed(UnknownOp);
      }
      if m.reqId in cancelledReqs { return Failed(Aborted); }
    }
  }

  ghost predicate GoodMessages(messages: seq<Message>) {
    forall k :: 0 <= k < |messages| && messages[k].op.InitDataset? && messages[k].op.dataset.Some?
      ==> messages[k].op.dataset.value.Replayable()
  }

  /** For every message sequence the replies are those of plain replay: no reply
      depends on the cache or the cursor. */
  method Serve(messages: seq<Message>) returns (replies: seq<Reply>)
    requires GoodMessages(messages)
    ensures replies == RespondAll(FRESH, messages)
  {
    var worker := new SnapshotWorker();
    replies := [];
    assert messages[0..] == messages;
    for k := 0 to |messages|
      invariant worker.Valid() && fresh(worker)
      invariant replies + RespondAll(worker.View(), messages[k..]) == RespondAll(FRESH, messages)
    {
      RespondStep(worker.View(), messages, k);
      var reply := worker.OnMessage(messages[k]);
      replies := replies + [reply];
    }
    assert messages[|messages|..] == [];
  }

  lemma RespondStep(s: Session, messages: seq<Message>, k: nat)
    requires k < |messages|
    ensures var (s', reply) := Respond(s, messages[k]);
      RespondAll(s, messages[k..]) == [reply] + RespondAll(s', messages[k + 1..])
  {
    assert messages[k..][1..] == messages[k + 1..];
  }

  /** The worker's documents do not depend on patch 0. */
  lemma FirstPatchIgnored(ds: Dataset, others: seq<string>, idx: int)
    requires |ds.patches| == |others| && forall k :: 0 < k < |others| ==> ds.patches[k] == others[k]
    ensures ds.TextAt(idx) == ds.(patches := others).TextAt(idx)
  {
    if idx > 0 { FirstPatchUnread(Worker(), ds.baseDoc, ds.patches, others, idx); }
  }

  // ----- When the replay never gets empty -----------------------------------------

  lemma WorkerKeepsALine()
    ensures KeepsALine(Worker())
  {
    forall lines, text, hunks | lines != [] && WellFormedFor(lines, text, hunks)
      ensures Worker()(lines, text) != []
    {
      var trailer :| IsPrinted(text, hunks, trailer);
      var preamble :| IsPreamble(preamble) && text == Join(preamble + PrintHunks(hunks) + trailer);
      WorkerPatch.AppliesSegments(lines, preamble, hunks, trailer);
      WorkerPatch.SegmentsKeepLast(lines, 0, hunks);
    }
  }

  /** A data set whose patches are well-formed for the worker's own replay meets the
      condition of the worker, rows that look like file headers or not. */
  lemma WellFormedReplayable(ds: Dataset, history: seq<seq<Hunk>>)
    requires WellFormedHistory(Worker(), ds.baseDoc, ds.patches, 1, history)
    ensures ds.Replayable()
  {
    hide Worker;
    WorkerIsApplier();
    WorkerKeepsALine();
    HistoryNeverEmpty(Worker(), ds.baseDoc, ds.patches, 1, history);
  }

  // ----- What a cancellation hits --------------------------------------------------

  function SessionAfter(s: Session, messages: seq<Message>): Session
    decreases |messages|
  {
    if messages == [] then s else SessionAfter(Respond(s, messages[0]).0, messages[1..])
  }

  lemma {:induction false} ReplyAt(s: Session, messages: seq<Message>, k: nat)
    requires k < |messages|
    ensures |RespondAll(s, messages)| == |messages|
    ensures RespondAll(s, messages)[k] == Respond(SessionAfter(s, messages[..k]), messages[k]).1
    decreases |messages|
  {
    hide Respond;
    var s', rest := Respond(s, messages[0]).0, messages[1..];
    if rest != [] {
      ReplyAt(s', rest, if k > 0 then k - 1 else 0);
    }
    if k > 0 {
      assert messages[..k][0] == messages[0] && messages[..k][1..] == rest[..k - 1];
    }
  }

  /** A request with the identifier, whatever its operation; it uses a cancellation up. */
  predicate Requests(m: Message, id: string) {
    !m.op.Cancel? && m.reqId == id
  }

  /** The identifier was cancelled before, or is by some message, and no request with it
      has come since. */
  ghost predicate Pending(s: Session, messages: seq<Message>, id: string) {
    || (id in s.cancelled && forall j :: 0 <= j < |messages| ==> !Requests(messages[j], id))
    || exists i :: CancelsLast(messages, i, id)
  }

  /** Message `i` cancels the identifier, and no later message is a request with it. */
  ghost predicate CancelsLast(messages: seq<Message>, i: int, id: string) {
    && 0 <= i < |messages| && id != "" && messages[i].op == Cancel(id)
    && forall j :: i < j < |messages| ==> !Requests(messages[j], id)
  }

  lemma CancelledStep(s: Session, m: Message, id: string)
    ensures id in Respond(s, m).0.cancelled
       <==> (id != "" && m.op == Cancel(id)) || (id in s.cancelled && !Requests(m, id))
  {
  }

  lemma {:induction false} CancelledExactly(s: Session, messages: seq<Message>, id: string)
    ensures id in SessionAfter(s, messages).cancelled <==> Pending(s, messages, id)
    decreases |messages|
  {
    hide Respond, Requests;
    if messages != [] {
      var s', rest := Respond(s, messages[0]).0, messages[1..];
      CancelledStep(s, messages[0], id);
      CancelledExactly(s', rest, id);
      PendingShift(s, s', messages, id);
    }
  }

  lemma PendingShift(s: Session, s': Session, messages: seq<Message>, id: string)
    requires messages != []
    requires id in s'.cancelled
        <==> (id != "" && messages[0].op == Cancel(id)) || (id in s.cancelled && !Requests(messages[0], id))
    ensures Pending(s, messages, id) <==> Pending(s', messages[1..], id)
  {
    hide Requests;
    var rest := messages[1..];
    assert forall j :: 0 < j < |messages| ==> messages[j] == rest[j - 1];
    assert forall j :: 0 <= j < |rest| ==> rest[j] == messages[j + 1];
    if i :| CancelsLast(messages, i, id) && i > 0 {
      assert CancelsLast(rest, i - 1, id);
    }
    if i :| CancelsLast(rest, i, id) {
      assert CancelsLast(messages, i + 1, id);
    }
    if id in s'.cancelled && id != "" && messages[0].op == Cancel(id) {
      if forall j :: 0 <= j < |rest| ==> !Requests(rest[j], id) { assert CancelsLast(messages, 0, id); }
    }
  }

  /** The request gets past the checks that come before that of the cancellation. */
  predicate Admitted(s: Session, m: Message) {
    && m.reqId != ""
    && (m.op.InitDataset? || (s.dataset.Some? && (s.hash == "" || m.hash == "" || m.hash == s.hash)))
  }

  /** In every sequence of messages a request is answered with an abort if and only if it
      is admitted and a cancellation of its identifier is pending: it came earlier, and
      no request with that identifier has come since. */
  lemma AbortedExactly(s: Session, messages: seq<Message>, k: nat)
    requires k < |messages|
    ensures |RespondAll(s, messages)| == |messages|
    ensures var m := messages[k];
      RespondAll(s, messages)[k] == Failed(Aborted)
      <==> !m.op.Cancel? && Admitted(SessionAfter(s, messages[..k]), m) && Pending(s, messages[..k], m.reqId)
  {
    hide Pending;
    ReplyAt(s, messages, k);
    CancelledExactly(s, messages[..k], messages[k].reqId);
  }

  /** So a cancellation hits exactly the next request with its identifier, whatever other
      messages come in between: that one fails, and the one after it is not aborted. */
  lemma CancelHitsOnce(s: Session, messages: seq<Message>, i: nat, first: nat, second: nat)
    requires i < first < second < |messages|
    requires messages[i].op.Cancel? && messages[i].op.target != ""
    requires Requests(messages[first], messages[i].op.target) && Requests(messages[second], messages[i].op.target)
    requires forall j :: i < j < second && j != first ==>
      !Requests(messages[j], messages[i].op.target) && (j > first ==> messages[j].op != messages[i].op)
    ensures var replies := RespondAll(s, messages);
      && |replies| == |messages| && replies[i] == Cancelled(messages[i].op.target)
      && replies[first].Failed? && replies[second] != Failed(Aborted)
      && (Admitted(SessionAfter(s, messages[..first]), messages[first]) ==> replies[first] == Failed(Aborted))
  {
    hide Pending, CancelsLast, Admitted;
    var id := messages[i].op.target;
    ReplyAt(s, messages, i);
    ReplyAt(s, messages, first);
    StillPending(s, messages[..first], i, id);
    AbortedExactly(s, messages, first);
    CancelledExactly(s, messages[..first], id);
    FailsWhenCancelled(SessionAfter(s, messages[..first]), messages[first]);
    UsedUp(s, messages[..second], first, id);
    AbortedExactly(s, messages, second);
  }

  lemma StillPending(s: Session, messages: seq<Message>, i: nat, id: string)
    requires i < |messages| && id != "" && messages[i].op == Cancel(id)
    requires forall j :: i < j < |messages| ==> !Requests(messages[j], id)
    ensures Pending(s, messages, id)
  {
    assert CancelsLast(messages, i, id);
  }

  lemma UsedUp(s: Session, messages: seq<Message>, first: nat, id: string)
    requires first < |messages| && Requests(messages[first], id)
    requires forall j :: first < j < |messages| ==> messages[j].op != Cancel(id)
    ensures !Pending(s, messages, id)
  {
  }

  lemma FailsWhenCancelled(s: Session, m: Message)
    requires Requests(m, m.reqId) && m.reqId in s.cancelled
    ensures Respond(s, m).1.Failed?
  {
  }

  // ----- Every reply, told from the messages alone ---------------------------------------

  /** Message `i` is the last one before `k` whose reply says that it was initialised. */
  ghost predicate LastInit(replies: seq<Reply>, k: nat, i: int)
    requires k <= |replies|
  {
    0 <= i < k && replies[i].Initialized? && forall j :: i < j < k ==> !replies[j].Initialized?
  }

  ghost predicate NeverInit(replies: seq<Reply>, k: nat)
    requires k <= |replies|
  {
    forall j :: 0 <= j < k ==> !replies[j].Initialized?
  }

  /** The hash of an initialisation: that of its payload, else that of the message. */
  function InitHash(m: Message): string
    requires m.op.InitDataset?
  {
    if m.op.payloadHash == "" then m.hash else m.op.payloadHash
  }

  /** The message initialises the session. */
  ghost predicate Stored(s: Session, m: Message) {
    m.op.InitDataset? && m.op.dataset.Some? && s.dataset == m.op.dataset && s.hash == InitHash(m)
  }

  lemma InitStep(s: Session, m: Message)
    ensures var (s', reply) := Respond(s, m);
      if reply.Initialized? then Stored(s', m) else s'.dataset == s.dataset && s'.hash == s.hash
  {
  }

  lemma SessionSnoc(s: Session, messages: seq<Message>, k: nat)
    requires k < |messages|
    ensures SessionAfter(s, messages[..k + 1]) == Respond(SessionAfter(s, messages[..k]), messages[k]).0
    decreases |messages|
  {
    hide Respond;
    if k > 0 {
      var rest := messages[1..];
      SessionSnoc(Respond(s, messages[0]).0, rest, k - 1);
      assert messages[..k + 1][1..] == rest[..k] && messages[..k][1..] == rest[..k - 1];
      assert messages[..k + 1][0] == messages[0] && messages[..k][0] == messages[0];
    } else {
      assert messages[..1][0] == messages[0] && messages[..1][1..] == [];
    }
  }

  /** The session holds the data set and the hash of the last initialisation. */
  lemma {:induction false} SessionFromInit(messages: seq<Message>, k: nat)
    requires k <= |messages|
    ensures |RespondAll(FRESH, messages)| == |messages|
    ensures var replies, s := RespondAll(FRESH, messages), SessionAfter(FRESH, messages[..k]);
      && (s.dataset.None? <==> NeverInit(replies, k))
      && (NeverInit(replies, k) ==> s.hash == "")
      && forall i :: LastInit(replies, k, i) ==> Stored(s, messages[i])
    decreases k
  {
    hide Respond, InitHash;
    var replies := RespondAll(FRESH, messages);
    if messages != [] { ReplyAt(FRESH, messages, 0); }
    if k > 0 {
      SessionFromInit(messages, k - 1);
      ReplyAt(FRESH, messages, k - 1);
      SessionSnoc(FRESH, messages, k - 1);
      InitStep(SessionAfter(FRESH, messages[..k - 1]), messages[k - 1]);
      if replies[k - 1].Initialized? {
        assert forall i :: LastInit(replies, k, i) ==> i == k - 1;
      } else {
        assert forall i :: LastInit(replies, k, i) ==> LastInit(replies, k - 1, i);
        assert NeverInit(replies, k) <==> NeverInit(replies, k - 1);
      }
    }
  }

  /** A request with an identifier that is no initialisation. */
  predicate NeedsDataset(m: Message) {
    !m.op.Cancel? && m.reqId != "" && !m.op.InitDataset?
  }

  /** Both the message and the last initialisation name a hash, and not the same. */
  ghost predicate HashDiffers(messages: seq<Message>, replies: seq<Reply>, k: nat)
    requires k < |messages| == |replies|
  {
    exists i ::
      && LastInit(replies, k, i) && messages[i].op.InitDataset?
      && InitHash(messages[i]) != "" && messages[k].hash != "" && messages[k].hash != InitHash(messages[i])
  }

  /** A request that gets past the checks: it names itself, the session is initialised if
      it has to be, under the same hash where both name one, and no cancellation of its
      identifier is pending. */
  ghost predicate Answered(messages: seq<Message>, replies: seq<Reply>, k: nat)
    requires k < |messages| == |replies|
  {
    var m := messages[k];
    && !m.op.Cancel? && m.reqId != "" && !Pending(FRESH, messages[..k], m.reqId)
    && (m.op.InitDataset? || (!NeverInit(replies, k) && !HashDiffers(messages, replies, k)))
  }

  /** The failures of a request, each with its exact condition. */
  lemma FailsExactly(messages: seq<Message>, k: nat)
    requires k < |messages|
    ensures |RespondAll(FRESH, messages)| == |messages|
    ensures var m, replies := messages[k], RespondAll(FRESH, messages);
      && (replies[k] == Failed(ReqIdRequired) <==> !m.op.Cancel? && m.reqId == "")
      && (replies[k] == Failed(NotInitialized) <==> NeedsDataset(m) && NeverInit(replies, k))
      && (replies[k] == Failed(HashMismatch) <==> NeedsDataset(m) && HashDiffers(messages, replies, k))
  {
    hide InitHash;
    var replies, s := RespondAll(FRESH, messages), SessionAfter(FRESH, messages[..k]);
    ReplyAt(FRESH, messages, k);
    SessionFromInit(messages, k);
    if !NeverInit(replies, k) { var i := SomeInit(replies, k); }
  }

  lemma {:induction false} SomeInit(replies: seq<Reply>, k: nat) returns (i: nat)
    requires k <= |replies| && !NeverInit(replies, k)
    ensures LastInit(replies, k, i)
  {
    i := k - 1;
    if !replies[k - 1].Initialized? {
      i := SomeInit(replies, k - 1);
    }
  }

  /** And what the other requests are answered: an initialisation its hash and number of
      commits, a snapshot request the plain replay of the data set of the last
      initialisation. */
  lemma AnswersExactly(messages: seq<Message>, k: nat)
    requires k < |messages|
    ensures |RespondAll(FRESH, messages)| == |messages|
    ensures var m, replies := messages[k], RespondAll(FRESH, messages);
      && (m.op.Cancel? ==> replies[k] == Cancelled(m.op.target))
      && (Answered(messages, replies, k) ==>
            match m.op
            case InitDataset(Some(ds), _) => replies[k] == Initialized(InitHash(m), ds.commits)
            case InitDataset(None, _) => replies[k] == Failed(InvalidDataset)
            case SnapshotAt(idx) => forall i :: LastInit(replies, k, i) ==>
              && messages[i].op.InitDataset? && messages[i].op.dataset.Some?
              && replies[k] == Snapshot(idx, messages[i].op.dataset.value.TextAt(idx))
            case _ => replies[k] == Failed(UnknownOp))
  {
    hide Pending, Dataset.TextAt;
    var m, replies, s := messages[k], RespondAll(FRESH, messages), SessionAfter(FRESH, messages[..k]);
    ReplyAt(FRESH, messages, k);
    SessionFromInit(messages, k);
    CancelledExactly(FRESH, messages[..k], m.reqId);
    if Answered(messages, replies, k) && !m.op.InitDataset? {
      var i := SomeInit(replies, k);
      assert Stored(s, messages[i]);
      assert s.hash == "" || m.hash == "" || m.hash == s.hash;
    }
  }

  /** A request that does not get past the checks fails. */
  lemma NotAnsweredFails(messages: seq<Message>, k: nat)
    requires k < |messages| && !messages[k].op.Cancel?
    ensures |RespondAll(FRESH, messages)| == |messages|
    ensures !Answered(messages, RespondAll(FRESH, messages), k) ==> RespondAll(FRESH, messages)[k].Failed?
  {
    hide Pending, HashDiffers, NeverInit, Respond, RespondAll;
    var m, replies := messages[k], RespondAll(FRESH, messages);
    ReplyAt(FRESH, messages, k);
    FailsExactly(messages, k);
    CancelledExactly(FRESH, messages[..k], m.reqId);
    if m.reqId == "" {
      assert replies[k] == Failed(ReqIdRequired);
    } else if Pending(FRESH, messages[..k], m.reqId) {
      FailsWhenCancelled(SessionAfter(FRESH, messages[..k]), m);
      assert replies[k].Failed?;
    } else if !m.op.InitDataset? {
      if NeverInit(replies, k) {
        assert replies[k] == Failed(NotInitialized);
      } else if HashDiffers(messages, replies, k) {
        assert replies[k] == Failed(HashMismatch);
      } else {
        assert Answered(messages, replies, k);
      }
    } else {
      assert Answered(messages, replies, k);
    }
  }
}
