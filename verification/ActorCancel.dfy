/** After a cancellation request: how many handlers can still start. */
module ActorCancel {
  import opened ActorModel
  import opened Wrappers
  import ActorMailbox

  /** The incarnation took its `is_aborted` snapshot before the request, and is still
      working through its drain. */
  predicate GracefulDrain(pc: Pc) {
    (pc.CloseMailbox? && !pc.aborted) || (pc.Drain? && !pc.aborted) || pc.InDrain?
  }

  /** The step starts a message handler. */
  predicate StartsHandler(s: State, e: Step) {
    e == Task(Deliver) || (e == Task(Advance) && s.pc == Drain(false) && s.mail.queue != [])
  }

  function Starts(s: State, steps: seq<Step>): nat
    requires CanRun(s, steps)
    decreases |steps|
  {
    if steps == [] then 0
    else (if StartsHandler(s, steps[0]) then 1 else 0) + Starts(Do(s, steps[0]), steps[1..])
  }

  /** How many handlers may still start. */
  function Allowance(s: State): nat {
    if s.pc.PollRecv? || s.pc.LoadStopping? || s.pc.Parked? then 1
    else if GracefulDrain(s.pc) then |s.mail.queue|
    else 0
  }

  lemma AllowanceTaskStep(s: State, a: TaskAction)
    requires TaskEnabled(s, a) && s.cx.cancel
    ensures var s' := DoTask(s, a);
      && s'.cx.cancel && s'.mail.accepted == s.mail.accepted && (GracefulDrain(s'.pc) ==> GracefulDrain(s.pc))
      && (if StartsHandler(s, Task(a)) then 1 else 0) + Allowance(s') <= Allowance(s)
  {
  }

  lemma AllowanceEnvStep(s: State, a: EnvAction)
    requires EnvEnabled(s, a) && s.cx.cancel
    ensures var s' := DoEnv(s, a);
      && s'.cx.cancel && (GracefulDrain(s'.pc) ==> GracefulDrain(s.pc)) && |s'.mail.accepted| >= |s.mail.accepted|
      && Allowance(s') <= Allowance(s) + (if GracefulDrain(s.pc) then |s'.mail.accepted| - |s.mail.accepted| else 0)
  {
  }

  lemma {:induction false} StartsBounded(s: State, steps: seq<Step>)
    requires CanRun(s, steps) && s.cx.cancel
    ensures |Run(s, steps).mail.accepted| >= |s.mail.accepted|
    ensures Starts(s, steps)
         <= Allowance(s) + (if GracefulDrain(s.pc) then |Run(s, steps).mail.accepted| - |s.mail.accepted| else 0)
    decreases |steps|
  {
    hide DoTask, DoEnv, TaskEnabled, EnvEnabled, Allowance;
    if steps != [] {
      match steps[0] {
        case Task(a) => AllowanceTaskStep(s, a);
        case Env(a) => AllowanceEnvStep(s, a);
      }
      StartsBounded(Do(s, steps[0]), steps[1..]);
    }
  }

  /** At most one more handler starts in the whole rest of the run, through all
      restarts, unless the request came after the snapshot. */
  lemma OneMoreHandlerAtMost(s: State, steps: seq<Step>)
    requires CanRun(s, steps) && s.cx.cancel && !GracefulDrain(s.pc)
    ensures Starts(s, steps) <= 1
  {
    StartsBounded(s, steps);
  }

  /** In that case the drain may handle what is queued, and what is still accepted
      until it closes the mailbox; nothing more. */
  lemma LateRequestDrains(s: State, steps: seq<Step>)
    requires CanRun(s, steps) && s.cx.cancel && GracefulDrain(s.pc)
    ensures Starts(s, steps) <= |s.mail.queue| + |Run(s, steps).mail.accepted| - |s.mail.accepted|
  {
    StartsBounded(s, steps);
  }

  /** The bound of one is reached: an abort that lands between the check and the poll
      is followed by one handler. */
  lemma OneMoreHandlerHappens(init: State) returns (s: State, steps: seq<Step>)
    requires Initial(init) && init.mail.capacity >= 1
    ensures Reachable(s) && s.cx.cancel && !GracefulDrain(s.pc) && CanRun(s, steps) && Starts(s, steps) == 1
  {
    hide Reaches;
    ReachesSelf(init);
    s := ThenStep(init, init, Env(TrySend(1)));
    s := ThenStep(init, s, Task(Advance));
    s := ThenStep(init, s, Task(Advance));
    s := ThenStep(init, s, Task(Advance));
    s := ThenStep(init, s, Task(Return));
    s := ThenStep(init, s, Task(Advance));
    s := ThenStep(init, s, Env(RegionCancel));
    assert s.pc == PollRecv && s.mail.queue == [1];
    steps := [Task(Deliver)];
    assert steps[1..] == [];
    assert Reachable(s);
  }

  // ----- The flags themselves ----------------------------------------------------------

  lemma FlagsStep(s: State, e: Step)
    requires Enabled(s, e)
    ensures s.cx.cancel ==> Do(s, e).cx.cancel
    ensures s.cx.reason.Some? ==> Do(s, e).cx.reason == s.cx.reason
    ensures s.cx.cancel == s.cx.reason.Some? ==> Do(s, e).cx.cancel == Do(s, e).cx.reason.Some?
  {
  }

  /** The cancellation flag never falls, and the first reason is kept. */
  lemma {:induction false} CancelIsFinal(s: State, steps: seq<Step>)
    requires CanRun(s, steps) && s.cx.cancel == s.cx.reason.Some?
    ensures var t := Run(s, steps);
      && (s.cx.cancel ==> t.cx.cancel && t.cx.reason == s.cx.reason)
      && t.cx.cancel == t.cx.reason.Some?
    decreases |steps|
  {
    hide Do, Enabled;
    if steps != [] {
      FlagsStep(s, steps[0]);
      CancelIsFinal(Do(s, steps[0]), steps[1..]);
    }
  }

  // ----- What raises the flag ------------------------------------------------------------

  /** The two actions that request a cancellation, and their reasons: the second part of
      an abort() that still finds the context, and the end of the region. */
  function ReasonOf(e: Step): Option<Reason> {
    match e
    case Env(AbortFlags(alive)) => if alive then Some(AbortRequested) else None
    case Env(RegionCancel) => Some(RegionClosed)
    case _ => None
  }

  /** Step `i` is the first that requests a cancellation. */
  ghost predicate FirstRequest(steps: seq<Step>, i: int) {
    0 <= i < |steps| && ReasonOf(steps[i]).Some? && forall j :: 0 <= j < i ==> ReasonOf(steps[j]).None?
  }

  lemma RequestStep(s: State, e: Step)
    requires Enabled(s, e) && s.cx.cancel == s.cx.reason.Some?
    ensures Do(s, e).cx.reason == if s.cx.reason.Some? then s.cx.reason else ReasonOf(e)
    ensures Do(s, e).cx.cancel == Do(s, e).cx.reason.Some?
  {
  }

  lemma {:induction false} RequestsRun(s: State, steps: seq<Step>)
    requires CanRun(s, steps) && s.cx.cancel == s.cx.reason.Some?
    ensures var t := Run(s, steps);
      && t.cx.cancel == t.cx.reason.Some?
      && (s.cx.cancel ==> t.cx.reason == s.cx.reason)
      && (!s.cx.cancel ==> (t.cx.cancel <==> exists i :: FirstRequest(steps, i)))
      && (!s.cx.cancel ==> forall i :: FirstRequest(steps, i) ==> t.cx.reason == ReasonOf(steps[i]))
    decreases |steps|
  {
    hide Do, Enabled, ReasonOf;
    if steps != [] {
      var e, rest := steps[0], steps[1..];
      RequestStep(s, e);
      RequestsRun(Do(s, e), rest);
      assert forall j :: 0 < j < |steps| ==> steps[j] == rest[j - 1];
      if ReasonOf(e).Some? {
        assert FirstRequest(steps, 0);
      } else {
        forall i | FirstRequest(steps, i) ensures FirstRequest(rest, i - 1) {
          assert forall j :: 0 <= j < i - 1 ==> rest[j] == steps[j + 1];
        }
        forall i | FirstRequest(rest, i) ensures FirstRequest(steps, i + 1) {
        }
      }
    }
  }

  /** In every run from a fresh actor the flag is up if and only if some step was the
      flag part of an abort() that found the context, or the end of the region; and the
      reason is that of the first such step. */
  lemma CancelledExactlyWhen(init: State, steps: seq<Step>)
    requires Initial(init) && CanRun(init, steps)
    ensures Run(init, steps).cx.cancel
       <==> exists i :: 0 <= i < |steps| && (steps[i] == Env(AbortFlags(true)) || steps[i] == Env(RegionCancel))
    ensures forall i :: FirstRequest(steps, i) ==>
      Run(init, steps).cx.reason
      == Some(if steps[i] == Env(RegionCancel) then RegionClosed else AbortRequested)
  {
    RequestsRun(init, steps);
    if i :| 0 <= i < |steps| && ReasonOf(steps[i]).Some? {
      var k := FirstOf(steps, i);
    }
    assert forall i :: 0 <= i < |steps| ==>
      (ReasonOf(steps[i]).Some? <==> steps[i] == Env(AbortFlags(true)) || steps[i] == Env(RegionCancel));
  }

  lemma {:induction false} FirstOf(steps: seq<Step>, i: nat) returns (k: nat)
    requires i < |steps| && ReasonOf(steps[i]).Some?
    ensures FirstRequest(steps, k)
  {
    if j :| 0 <= j < i && ReasonOf(steps[j]).Some? {
      k := FirstOf(steps, j);
    } else {
      k := i;
    }
  }

  /** An abort() cannot miss the context while the task is there. */
  lemma AbortFindsContext(s: State, alive: bool)
    requires EnvEnabled(s, AbortFlags(alive)) && !s.pc.Gone?
    ensures alive && DoEnv(s, AbortFlags(alive)).cx.cancel
  {
  }

  // ----- An abort before the first poll -----------------------------------------------------

  predicate Untouched(fate: Fate) {
    fate == Purged || fate == Dropped
  }

  /** The cancellation came before any message was received: no handler is or will be
      called, and what has left the mailbox was purged or dropped with it. */
  ghost predicate EarlyCancel(s: State) {
    && s.cx.cancel
    && !s.pc.PollRecv? && !s.pc.LoadStopping? && !s.pc.Parked? && !s.pc.InHandle? && !GracefulDrain(s.pc)
    && forall i :: 0 <= i < |s.hist.log| ==> Untouched(s.hist.log[i].fate)
  }

  lemma EarlyAdvance(s: State)
    requires EarlyCancel(s) && CanAdvance(s)
    ensures EarlyCancel(DoAdvance(s))
  {
    if s.pc.DropMailbox? { ActorMailbox.LogAllMsgs(s.mail.queue, Dropped); }
  }

  lemma EarlyTask(s: State, a: TaskAction)
    requires EarlyCancel(s) && TaskEnabled(s, a)
    ensures EarlyCancel(DoTask(s, a))
  {
    hide DoAdvance;
    if a == Advance { EarlyAdvance(s); }
  }

  lemma EarlyEnv(s: State, a: EnvAction)
    requires EarlyCancel(s) && EnvEnabled(s, a)
    ensures EarlyCancel(DoEnv(s, a))
  {
    ActorMailbox.LogAllMsgs(s.mail.queue, Dropped);
  }

  lemma {:induction false} EarlyRun(s: State, steps: seq<Step>)
    requires EarlyCancel(s) && CanRun(s, steps)
    ensures EarlyCancel(Run(s, steps)) && Starts(s, steps) == 0
    decreases |steps|
  {
    hide DoTask, DoEnv, TaskEnabled, EnvEnabled, EarlyCancel;
    if steps != [] {
      EarlyStart(s, steps[0]);
      match steps[0] {
        case Task(a) => EarlyTask(s, a);
        case Env(a) => EarlyEnv(s, a);
      }
      EarlyRun(Do(s, steps[0]), steps[1..]);
    }
  }

  lemma EarlyStart(s: State, e: Step)
    requires EarlyCancel(s) && Enabled(s, e)
    ensures !StartsHandler(s, e)
  {
  }

  predicate NoTaskStep(steps: seq<Step>) {
    forall i :: 0 <= i < |steps| ==> steps[i].Env?
  }

  /** Without a step of its own the task stays where it is, or is dropped. */
  lemma {:induction false} OthersFirst(s: State, steps: seq<Step>)
    requires CanRun(s, steps) && NoTaskStep(steps) && (s.pc.CheckStopping? || s.pc.Gone?)
    requires forall i :: 0 <= i < |s.hist.log| ==> s.hist.log[i].fate == Dropped
    ensures var t := Run(s, steps);
      (t.pc.CheckStopping? || t.pc.Gone?) && forall i :: 0 <= i < |t.hist.log| ==> t.hist.log[i].fate == Dropped
    decreases |steps|
  {
    hide DoEnv, EnvEnabled;
    if steps != [] {
      OthersStep(s, steps[0].env);
      OthersFirst(Do(s, steps[0]), steps[1..]);
    }
  }

  lemma OthersStep(s: State, a: EnvAction)
    requires EnvEnabled(s, a) && (s.pc.CheckStopping? || s.pc.Gone?)
    requires forall i :: 0 <= i < |s.hist.log| ==> s.hist.log[i].fate == Dropped
    ensures var t := DoEnv(s, a);
      (t.pc.CheckStopping? || t.pc.Gone?) && forall i :: 0 <= i < |t.hist.log| ==> t.hist.log[i].fate == Dropped
  {
    ActorMailbox.LogAllMsgs(s.mail.queue, Dropped);
  }

  /** An actor that is cancelled before its first poll handles no message, through all
      restarts and whatever its hooks do; and when its task ends with Ok, every message
      it ever accepted has been purged, in order. */
  lemma CancelledBeforeStart(init: State, first: seq<Step>, rest: seq<Step>)
    requires Initial(init) && CanRun(init, first) && NoTaskStep(first) && CanRun(Run(init, first), rest)
    requires exists i :: 0 <= i < |first| && (first[i] == Env(AbortFlags(true)) || first[i] == Env(RegionCancel))
    ensures var t := Run(Run(init, first), rest);
      && Starts(Run(init, first), rest) == 0
      && (forall i :: 0 <= i < |t.hist.log| ==> Untouched(t.hist.log[i].fate))
      && (Outcome(t) == Some(Ok) ==> t.hist.log == LogAll(t.mail.accepted, Purged))
  {
    hide Do, Enabled, Outcome;
    var s := Run(init, first);
    var t := Run(s, rest);
    CancelledExactlyWhen(init, first);
    OthersFirst(init, first);
    EarlyRun(s, rest);
    RunConcat(init, first, rest);
    assert Reaches(init, t) by { assert CanRun(init, first + rest) && Run(init, first + rest) == t; }
    ActorMailbox.MailboxReachable(t);
    if Outcome(t) == Some(Ok) { AllPurged(t); }
  }

  lemma AllPurged(t: State)
    requires Reachable(t) && Outcome(t) == Some(Ok)
    requires forall i :: 0 <= i < |t.hist.log| ==> Untouched(t.hist.log[i].fate)
    ensures t.hist.log == LogAll(t.mail.accepted, Purged)
  {
    hide Reachable;
    ActorMailbox.MailboxReachable(t);
    forall i | 0 <= i < |t.hist.log| ensures t.hist.log[i].fate == Purged {
      assert ActorMailbox.Has(t.hist.log, t.hist.log[i].fate);
    }
    ActorMailbox.AllOneFate(t.hist.log, Purged);
    assert t.mail.accepted == ActorMailbox.Msgs(t.hist.log);
  }
}
