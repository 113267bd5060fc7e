/** No silent drops: what happens to every accepted message in every interleaving. */
module ActorMailbox {
  import opened ActorModel
  import opened Wrappers

  function Msgs(log: seq<Entry>): (msgs: seq<Msg>)
    ensures |msgs| == |log| && forall i :: 0 <= i < |log| ==> msgs[i] == log[i].msg
  {
    seq(|log|, i requires 0 <= i < |log| => log[i].msg)
  }

  predicate Has(log: seq<Entry>, fate: Fate) {
    exists i :: 0 <= i < |log| && log[i].fate == fate
  }

  /** Accepted messages are, in order, those consumed, the one being handled, and
      those still queued. */
  ghost predicate Conserved(s: State) {
    s.mail.accepted == Msgs(s.hist.log) + InFlight(s.pc) + s.mail.queue
  }

  /** From here on the task can only return Ok or panic inside `on_stop`. */
  predicate PastDrain(s: State) {
    s.pc.RaiseMask? || s.pc.InOnStop? || s.pc.LowerMask? || s.pc.LoopReturned? || Outcome(s) == Some(Ok)
  }

  ghost predicate FatesFit(s: State) {
    && (Has(s.hist.log, Purged) ==> s.cx.cancel)
    && (Has(s.hist.log, Crashed) ==> s.hist.panics != [])
    && (Has(s.hist.log, Interrupted) || Has(s.hist.log, Dropped) ==> s.pc.Gone? && Outcome(s) != Some(Ok))
    && (s.pc.CloseMailbox? && s.pc.aborted ==> s.cx.cancel)
    && (s.pc.Drain? ==> s.mail.closed && (s.pc.aborted ==> s.cx.cancel))
    && (s.pc.InDrain? ==> s.mail.closed)
    && (PastDrain(s) || s.pc.Gone? ==> s.mail.closed && s.mail.queue == [])
  }

  ghost predicate MailboxInv(s: State) {
    Conserved(s) && FatesFit(s)
  }

  lemma LogAllMsgs(msgs: seq<Msg>, fate: Fate)
    ensures Msgs(LogAll(msgs, fate)) == msgs
    ensures forall i :: 0 <= i < |LogAll(msgs, fate)| ==> LogAll(msgs, fate)[i].fate == fate
  {
    if msgs != [] { LogAllMsgs(msgs[1..], fate); }
  }

  lemma MsgsConcat(a: seq<Entry>, b: seq<Entry>)
    ensures Msgs(a + b) == Msgs(a) + Msgs(b)
  {
  }

  lemma HasConcat(a: seq<Entry>, b: seq<Entry>, fate: Fate)
    ensures Has(a + b, fate) <==> Has(a, fate) || Has(b, fate)
  {
    if Has(a, fate) {
      var i :| 0 <= i < |a| && a[i].fate == fate;
      assert (a + b)[i] == a[i];
    }
    if Has(b, fate) {
      var i :| 0 <= i < |b| && b[i].fate == fate;
      assert (a + b)[|a| + i] == b[i];
    }
  }

  lemma OneMore(log: seq<Entry>, e: Entry)
    ensures Msgs(log + [e]) == Msgs(log) + [e.msg]
    ensures forall fate :: Has(log + [e], fate) <==> Has(log, fate) || e.fate == fate
  {
    forall fate ensures Has(log + [e], fate) <==> Has(log, fate) || e.fate == fate {
      HasConcat(log, [e], fate);
      assert [e][0] == e;
    }
  }

  lemma MailboxAdvance(s: State)
    requires MailboxInv(s) && CanAdvance(s)
    ensures MailboxInv(DoAdvance(s))
  {
    hide Has;
    match s.pc {
      case Drain(aborted) =>
        if s.mail.queue != [] { OneMore(s.hist.log, Entry(s.mail.queue[0], Purged)); }
      case DropMailbox(result) => DroppingQueue(s);
      case _ =>
    }
  }

  lemma MailboxReturn(s: State)
    requires MailboxInv(s) && InHook(s.pc) && s.pc != Backoff
    ensures MailboxInv(DoReturn(s))
  {
    hide Has;
    if s.pc.InHandle? || s.pc.InDrain? { OneMore(s.hist.log, Entry(s.pc.msg, Handled)); }
  }

  lemma MailboxPanic(s: State, p: Payload)
    requires MailboxInv(s) && InHook(s.pc) && s.pc != Backoff
    ensures MailboxInv(DoPanic(s, p))
  {
    hide Has;
    if s.pc.InHandle? || s.pc.InDrain? { OneMore(s.hist.log, Entry(s.pc.msg, Crashed)); }
  }

  lemma MailboxTaskStep(s: State, a: TaskAction)
    requires MailboxInv(s) && TaskEnabled(s, a)
    ensures MailboxInv(DoTask(s, a))
  {
    hide Has, DoAdvance, DoReturn, DoPanic;
    match a {
      case Advance => MailboxAdvance(s);
      case Return => MailboxReturn(s);
      case Panic(p) => MailboxPanic(s, p);
      case _ =>
    }
  }

  lemma DroppingQueue(s: State)
    requires MailboxInv(s) && s.pc.DropMailbox?
    ensures MailboxInv(DoAdvance(s))
  {
    var dropped := LogAll(s.mail.queue, Dropped);
    LogAllMsgs(s.mail.queue, Dropped);
    MsgsConcat(s.hist.log, dropped);
    forall fate ensures Has(s.hist.log + dropped, fate) <==> Has(s.hist.log, fate) || Has(dropped, fate) {
      HasConcat(s.hist.log, dropped, fate);
    }
  }

  lemma MailboxEnvStep(s: State, a: EnvAction)
    requires MailboxInv(s) && EnvEnabled(s, a)
    ensures MailboxInv(DoEnv(s, a))
  {
    hide Has, DoDropTask;
    match a {
      case DropTask => DroppingTask(s);
      case _ =>
    }
  }

  lemma DroppingTask(s: State)
    requires MailboxInv(s) && Suspended(s)
    ensures MailboxInv(DoDropTask(s))
  {
    var interrupted, dropped := LogAll(InFlight(s.pc), Interrupted), LogAll(s.mail.queue, Dropped);
    LogAllMsgs(InFlight(s.pc), Interrupted);
    LogAllMsgs(s.mail.queue, Dropped);
    MsgsConcat(s.hist.log, interrupted);
    MsgsConcat(s.hist.log + interrupted, dropped);
    forall fate ensures Has(s.hist.log + interrupted + dropped, fate)
                   <==> Has(s.hist.log, fate) || Has(interrupted, fate) || Has(dropped, fate) {
      HasConcat(s.hist.log, interrupted, fate);
      HasConcat(s.hist.log + interrupted, dropped, fate);
    }
  }

  lemma MailboxStep(s: State, e: Step)
    requires MailboxInv(s) && Enabled(s, e)
    ensures MailboxInv(Do(s, e))
  {
    hide DoTask, DoEnv, TaskEnabled, EnvEnabled, MailboxInv;
    match e {
      case Task(a) => MailboxTaskStep(s, a);
      case Env(a) => MailboxEnvStep(s, a);
    }
  }

  lemma {:induction false} MailboxRun(s: State, steps: seq<Step>)
    requires MailboxInv(s) && CanRun(s, steps)
    ensures MailboxInv(Run(s, steps))
    decreases |steps|
  {
    hide Do, Enabled, MailboxInv;
    if steps != [] {
      MailboxStep(s, steps[0]);
      MailboxRun(Do(s, steps[0]), steps[1..]);
    }
  }

  lemma MailboxReachable(s: State)
    requires Reachable(s)
    ensures MailboxInv(s)
  {
    var init :| Initial(init) && Reaches(init, s);
    var steps :| CanRun(init, steps) && Run(init, steps) == s;
    MailboxRun(init, steps);
  }

  /** In every run every accepted message is accounted for, in FIFO order: handled,
      consumed by a handler that panicked, purged after a cancellation, or lost with
      a task that did not return Ok. */
  lemma EveryMessageAccounted(s: State)
    requires Reachable(s)
    ensures s.mail.accepted == Msgs(s.hist.log) + InFlight(s.pc) + s.mail.queue
    ensures Has(s.hist.log, Purged) ==> s.cx.cancel
    ensures Has(s.hist.log, Interrupted) || Has(s.hist.log, Dropped) ==> s.pc.Gone? && s.pc.outcome != Some(Ok)
    ensures s.pc.Gone? ==> s.mail.queue == [] && s.mail.accepted == Msgs(s.hist.log)
  {
    MailboxReachable(s);
  }

  /** A run that ends with Ok, without an abort and without a panic, has handled
      exactly the accepted messages, in order, including those accepted between the
      end of the receive loop and the closing of the mailbox. */
  lemma NoSilentDrops(s: State)
    requires Reachable(s) && Outcome(s) == Some(Ok) && !s.cx.cancel && s.hist.panics == []
    ensures s.hist.log == LogAll(s.mail.accepted, Handled) && s.mail.queue == []
  {
    MailboxReachable(s);
    assert forall i :: 0 <= i < |s.hist.log| ==> s.hist.log[i].fate == Handled by {
      forall i | 0 <= i < |s.hist.log| ensures s.hist.log[i].fate == Handled {
        assert Has(s.hist.log, s.hist.log[i].fate);
      }
    }
    AllOneFate(s.hist.log, Handled);
    assert s.mail.accepted == Msgs(s.hist.log);
  }

  lemma {:induction false} AllOneFate(log: seq<Entry>, fate: Fate)
    requires forall i :: 0 <= i < |log| ==> log[i].fate == fate
    ensures log == LogAll(Msgs(log), fate)
    decreases |log|
  {
    if log != [] {
      AllOneFate(log[1..], fate);
      assert Msgs(log)[1..] == Msgs(log[1..]);
    }
  }

  // ----- A bounded queue that refuses once closed ------------------------------------

  ghost predicate Bounded(s: State) {
    |s.mail.queue| + s.mail.reserved <= s.mail.capacity
  }

  lemma BoundedStep(s: State, e: Step)
    requires Enabled(s, e) && Bounded(s)
    ensures Bounded(Do(s, e)) && Do(s, e).mail.capacity == s.mail.capacity
  {
  }

  /** The mailbox never holds more than its capacity, reservations included. */
  lemma {:induction false} WithinCapacity(s: State, steps: seq<Step>)
    requires CanRun(s, steps) && Bounded(s)
    ensures Bounded(Run(s, steps)) && Run(s, steps).mail.capacity == s.mail.capacity
    decreases |steps|
  {
    hide Do, Enabled, Bounded;
    if steps != [] {
      BoundedStep(s, steps[0]);
      WithinCapacity(Do(s, steps[0]), steps[1..]);
    }
  }

  /** The message that a step offers to the mailbox. */
  function Offered(e: Step): Option<Msg> {
    match e
    case Env(TrySend(m)) => Some(m)
    case Env(Commit(m)) => Some(m)
    case _ => None
  }

  /** What an open mailbox accepts: every commit, and every try_send that finds room;
      and nothing else. A closed one accepts nothing. */
  predicate Accepts(s: State, e: Step) {
    && Offered(e).Some? && !s.mail.closed
    && (e.env.Commit? || |s.mail.queue| + s.mail.reserved < s.mail.capacity)
  }

  /** The accepted messages of a run, told from its steps alone. */
  function AcceptedBy(s: State, steps: seq<Step>): seq<Msg>
    requires CanRun(s, steps)
    decreases |steps|
  {
    if steps == [] then []
    else (if Accepts(s, steps[0]) then [Offered(steps[0]).value] else []) + AcceptedBy(Do(s, steps[0]), steps[1..])
  }

  lemma AcceptedStep(s: State, e: Step)
    requires Enabled(s, e)
    ensures Do(s, e).mail.accepted == s.mail.accepted + (if Accepts(s, e) then [Offered(e).value] else [])
  {
    match e {
      case Task(Advance) =>
      case _ =>
    }
  }

  lemma {:induction false} AcceptedRun(s: State, steps: seq<Step>)
    requires CanRun(s, steps)
    ensures Run(s, steps).mail.accepted == s.mail.accepted + AcceptedBy(s, steps)
    decreases |steps|
  {
    hide Do, Enabled, Accepts, Offered;
    if steps != [] {
      AcceptedStep(s, steps[0]);
      AcceptedRun(Do(s, steps[0]), steps[1..]);
    }
  }

  lemma ClosedStep(s: State, e: Step)
    requires Enabled(s, e) && s.mail.closed
    ensures Do(s, e).mail.closed && Do(s, e).mail.accepted == s.mail.accepted
    ensures e != Env(Reserve)
  {
  }

  /** Once closed, the mailbox stays closed, accepts nothing and grants no reservation. */
  lemma {:induction false} ClosedForGood(s: State, steps: seq<Step>)
    requires CanRun(s, steps) && s.mail.closed
    ensures Run(s, steps).mail.closed && Run(s, steps).mail.accepted == s.mail.accepted
    ensures Env(Reserve) !in steps
    decreases |steps|
  {
    hide Do, Enabled;
    if steps != [] {
      ClosedStep(s, steps[0]);
      ClosedForGood(Do(s, steps[0]), steps[1..]);
      assert forall e :: e in steps <==> e == steps[0] || e in steps[1..];
    }
  }

  // ----- One crash per handler panic ------------------------------------------------

  function Crashes(log: seq<Entry>): nat {
    if log == [] then 0 else Crashes(log[..|log| - 1]) + (if log[|log| - 1].fate == Crashed then 1 else 0)
  }

  function HandlerPanics(s: State, steps: seq<Step>): nat
    requires CanRun(s, steps)
    decreases |steps|
  {
    if steps == [] then 0
    else
      (if IsHandlerPanic(s, steps[0]) then 1 else 0)
      + HandlerPanics(Do(s, steps[0]), steps[1..])
  }

  lemma {:induction false} NoCrashAdded(log: seq<Entry>, more: seq<Entry>)
    requires forall i :: 0 <= i < |more| ==> more[i].fate != Crashed
    ensures Crashes(log + more) == Crashes(log)
    decreases |more|
  {
    if more == [] {
      assert log + more == log;
    } else {
      var n := |more| - 1;
      assert (log + more)[..|log| + n] == log + more[..n] && (log + more)[|log| + n] == more[n];
      NoCrashAdded(log, more[..n]);
    }
  }

  predicate IsHandlerPanic(s: State, e: Step) {
    e.Task? && e.task.Panic? && (s.pc.InHandle? || s.pc.InDrain?)
  }

  /** What a step adds to the log. */
  lemma LogStep(s: State, e: Step) returns (more: seq<Entry>)
    requires Enabled(s, e)
    ensures Do(s, e).hist.log == s.hist.log + more
    ensures IsHandlerPanic(s, e) ==> |more| == 1 && more[0].fate == Crashed
    ensures !IsHandlerPanic(s, e) ==> forall i :: 0 <= i < |more| ==> more[i].fate != Crashed
  {
    more := [];
    match e {
      case Task(Advance) => more := LogAdvance(s);
      case Task(Return) => if s.pc.InHandle? || s.pc.InDrain? { more := [Entry(s.pc.msg, Handled)]; }
      case Task(Panic(_)) => if s.pc.InHandle? || s.pc.InDrain? { more := [Entry(s.pc.msg, Crashed)]; }
      case Env(DropTask) =>
        more := LogAll(InFlight(s.pc), Interrupted) + LogAll(s.mail.queue, Dropped);
        LogAllMsgs(s.mail.queue, Dropped);
        LogAllMsgs(InFlight(s.pc), Interrupted);
      case _ =>
    }
  }

  lemma LogAdvance(s: State) returns (more: seq<Entry>)
    requires CanAdvance(s)
    ensures DoAdvance(s).hist.log == s.hist.log + more
    ensures forall i :: 0 <= i < |more| ==> more[i].fate != Crashed
  {
    more := [];
    match s.pc {
      case Drain(aborted) => if aborted && s.mail.queue != [] { more := [Entry(s.mail.queue[0], Purged)]; }
      case DropMailbox(_) =>
        more := LogAll(s.mail.queue, Dropped);
        LogAllMsgs(s.mail.queue, Dropped);
      case _ =>
    }
  }

  lemma CrashStep(s: State, e: Step)
    requires Enabled(s, e)
    ensures Crashes(Do(s, e).hist.log) == Crashes(s.hist.log) + (if IsHandlerPanic(s, e) then 1 else 0)
  {
    hide Do, Enabled;
    var more := LogStep(s, e);
    if IsHandlerPanic(s, e) {
      assert (s.hist.log + more)[..|s.hist.log|] == s.hist.log;
    } else {
      NoCrashAdded(s.hist.log, more);
    }
  }

  /** Exactly one message is consumed by a crash for each handler panic, none for
      panics in `on_start` or `on_stop`. */
  lemma {:induction false} OneCrashPerHandlerPanic(s: State, steps: seq<Step>)
    requires CanRun(s, steps)
    ensures Crashes(Run(s, steps).hist.log) == Crashes(s.hist.log) + HandlerPanics(s, steps)
    decreases |steps|
  {
    hide Do, Enabled, Crashes;
    if steps != [] {
      CrashStep(s, steps[0]);
      OneCrashPerHandlerPanic(Do(s, steps[0]), steps[1..]);
    }
  }

  // ----- When messages are dropped ----------------------------------------------------

  /** The step drops messages that were accepted and never touched: the task is dropped,
      or it ends after a panic that is not followed by a restart. */
  predicate LosesQueue(s: State, e: Step) {
    && s.mail.queue != []
    && (e == Env(DropTask) || (e == Task(Advance) && s.pc.DropMailbox? && s.pc.result.Panicked?))
  }

  predicate LosesSome(s: State, steps: seq<Step>)
    requires CanRun(s, steps)
    decreases |steps|
  {
    steps != [] && (LosesQueue(s, steps[0]) || LosesSome(Do(s, steps[0]), steps[1..]))
  }

  lemma DroppedStep(s: State, e: Step)
    requires MailboxInv(s) && Enabled(s, e)
    ensures Has(Do(s, e).hist.log, Dropped) <==> Has(s.hist.log, Dropped) || LosesQueue(s, e)
  {
    hide Has;
    match e {
      case Env(DropTask) =>
        var interrupted, dropped := LogAll(InFlight(s.pc), Interrupted), LogAll(s.mail.queue, Dropped);
        HasConcat(s.hist.log, interrupted, Dropped);
        HasConcat(s.hist.log + interrupted, dropped, Dropped);
        HasAll(InFlight(s.pc), Interrupted, Dropped);
        HasAll(s.mail.queue, Dropped, Dropped);
      case Task(Advance) => DroppedAdvance(s);
      case Task(Return) => if s.pc.InHandle? || s.pc.InDrain? { OneMore(s.hist.log, Entry(s.pc.msg, Handled)); }
      case Task(Panic(_)) => if s.pc.InHandle? || s.pc.InDrain? { OneMore(s.hist.log, Entry(s.pc.msg, Crashed)); }
      case _ =>
    }
  }

  lemma DroppedAdvance(s: State)
    requires MailboxInv(s) && CanAdvance(s)
    ensures Has(DoAdvance(s).hist.log, Dropped) <==> Has(s.hist.log, Dropped) || LosesQueue(s, Task(Advance))
  {
    hide Has;
    match s.pc {
      case Drain(_) => if s.mail.queue != [] { OneMore(s.hist.log, Entry(s.mail.queue[0], Purged)); }
      case DropMailbox(_) =>
        HasConcat(s.hist.log, LogAll(s.mail.queue, Dropped), Dropped);
        HasAll(s.mail.queue, Dropped, Dropped);
      case _ =>
    }
  }

  lemma HasAll(msgs: seq<Msg>, fate: Fate, other: Fate)
    ensures Has(LogAll(msgs, fate), other) <==> msgs != [] && fate == other
  {
    LogAllMsgs(msgs, fate);
    if msgs != [] {
      assert LogAll(msgs, fate)[0] == Entry(msgs[0], fate);
    }
  }

  lemma {:induction false} DroppedRun(s: State, steps: seq<Step>)
    requires MailboxInv(s) && CanRun(s, steps)
    ensures Has(Run(s, steps).hist.log, Dropped) <==> Has(s.hist.log, Dropped) || LosesSome(s, steps)
    decreases |steps|
  {
    hide Do, Enabled, MailboxInv, Has, LosesQueue;
    if steps != [] {
      DroppedStep(s, steps[0]);
      MailboxStep(s, steps[0]);
      DroppedRun(Do(s, steps[0]), steps[1..]);
    }
  }

  /** Exactly when messages are dropped silently: a run drops an accepted, untouched
      message if and only if messages were still queued when the task was dropped, or
      when it ended after a panic without a restart. */
  lemma DroppedExactlyWhen(init: State, steps: seq<Step>)
    requires Initial(init) && CanRun(init, steps)
    ensures Has(Run(init, steps).hist.log, Dropped) <==> LosesSome(init, steps)
  {
    DroppedRun(init, steps);
  }

  /** After a panic that the supervisor answers with a stop, messages that were
      accepted and never touched are dropped with the mailbox: a run with one crashed
      and one dropped message, no abort anywhere. */
  lemma StoppedActorDropsQueue(init: State) returns (s: State)
    requires Initial(init) && init.mail.capacity == 2
    ensures Reachable(s) && !s.cx.cancel && s.pc == Gone(Some(Panicked(7)))
    ensures s.mail.accepted == [1, 2] && s.hist.log == [Entry(1, Crashed), Entry(2, Dropped)]
  {
    hide Reaches;
    s := FirstDelivery(init);
    s := ThenStep(init, s, Task(Panic(7)));
    s := ThenStep(init, s, Task(Decide(false)));
    s := ThenStep(init, s, Task(Advance));
    s := ThenStep(init, s, Task(Advance));
    assert [2][1..] == [] && LogAll([2], Dropped) == [Entry(2, Dropped)];
    s := ThenStep(init, s, Task(Advance));
    assert Reachable(s);
  }

  lemma FirstDelivery(init: State) returns (s: State)
    requires Initial(init) && init.mail.capacity == 2
    ensures Reaches(init, s) && !s.cx.cancel && s.pc == InHandle(1) && s.hist.log == []
    ensures s.mail.accepted == [1, 2] && s.mail.queue == [2]
  {
    hide Reaches;
    ReachesSelf(init);
    s := ThenStep(init, init, Env(TrySend(1)));
    s := ThenStep(init, s, Env(TrySend(2)));
    assert s.mail.queue == [1, 2] && s.mail.accepted == [1, 2];
    s := ThenStep(init, s, Task(Advance));
    s := ThenStep(init, s, Task(Advance));
    s := ThenStep(init, s, Task(Advance));
    s := ThenStep(init, s, Task(Return));
    s := ThenStep(init, s, Task(Advance));
    s := ThenStep(init, s, Task(Deliver));
  }
}
