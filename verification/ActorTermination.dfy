/** Every actor that is told to end does end: a bound on the task's actions in every
    interleaving, and no way to get stuck before. Also the bookkeeping of restarts. */
module ActorTermination {
  import opened ActorModel
  import opened Wrappers
  import opened ActorWaking

  /** Cancelled, closed, or without senders: for good. */
  ghost predicate Doomed(s: State) {
    s.cx.cancel || s.mail.closed || s.mail.senders == 0
  }

  /** Told to end, by one of these or by a stop() that is in force. */
  ghost predicate Ending(s: State) {
    Doomed(s) || StopHeld(s)
  }

  /** What an incarnation has still to go through, drawn as a countdown. */
  function Stage(pc: Pc, cell: ActorState): nat {
    match pc
    case StoreCreated => 30
    case Backoff => 29
    case CallFactory => 28
    case CheckStopping => 27
    case StoreRunning => 26
    case BeginOnStart => 25
    case InOnStart => 24
    case InHandle(_) => 23
    case LoadStopping => if cell == Stopping then 20 else 23
    case LoopTop => 22
    case Parked => 22
    case PollRecv => 21
    case StoreStopping => 19
    case SnapshotAborted => 18
    case CloseMailbox(_) => 17
    case InDrain(_) => 16
    case Drain(_) => 15
    case RaiseMask => 14
    case InOnStop => 13
    case LowerMask(_) => 12
    case LoopReturned => 11
    case Unwound(_) => 10
    case SendResult(_) => 9
    case StoreStopped(_) => 8
    case DropMailbox(_) => 7
    case Gone(_) => 0
  }

  /** Restarts left, then the stage, then the queue, in one number. */
  function Work(s: State): nat {
    31 * s.restartsLeft + Stage(s.pc, s.cell) + 3 * |s.mail.queue|
  }

  /** A step of the task that is not just another poll of a suspended hook. */
  predicate IsProgress(e: Step) {
    e.Task? && e.task != Repoll
  }

  function Progress(steps: seq<Step>): nat {
    if steps == [] then 0 else (if IsProgress(steps[0]) then 1 else 0) + Progress(steps[1..])
  }

  lemma DoomedStays(s: State, e: Step)
    requires Enabled(s, e) && Doomed(s)
    ensures Doomed(Do(s, e))
  {
  }

  lemma WorkTaskStep(s: State, a: TaskAction)
    requires TaskEnabled(s, a) && Ending(s) && (a == Decide(true) ==> Doomed(s))
    ensures if a == Repoll then Work(DoTask(s, a)) == Work(s) else Work(DoTask(s, a)) < Work(s)
    ensures DoTask(s, a).mail.accepted == s.mail.accepted
  {
    hide DoAdvance;
    if a == Advance { WorkAdvance(s); }
  }

  lemma WorkAdvance(s: State)
    requires CanAdvance(s) && Ending(s)
    ensures Work(DoAdvance(s)) < Work(s) && DoAdvance(s).mail.accepted == s.mail.accepted
  {
  }

  lemma WorkEnvStep(s: State, a: EnvAction)
    requires EnvEnabled(s, a)
    ensures Work(DoEnv(s, a)) <= Work(s) + 3 * (|DoEnv(s, a).mail.accepted| - |s.mail.accepted|)
    ensures |DoEnv(s, a).mail.accepted| >= |s.mail.accepted|
  {
  }

  lemma EndingStep(s: State, e: Step)
    requires Enabled(s, e) && Ending(s) && (e == Task(Decide(true)) ==> Doomed(s))
    ensures Ending(Do(s, e))
  {
    hide Doomed, StopHeld;
    if Doomed(s) { DoomedStays(s, e); } else { StopHeldStep(s, e); }
  }

  /** No interleaving, of whatever length, lets the task act more often than its work
      on entry and three times per message accepted meanwhile. A stop() counts as long
      as no restart wipes it out; the other reasons to end survive restarts. For a
      cancelled actor the bound depends on the mailbox contract that a cancelled
      `poll_recv` is never pending. */
  lemma {:induction false} EndingTerminates(s: State, steps: seq<Step>)
    requires CanRun(s, steps) && Ending(s) && (Doomed(s) || NoRestart(steps))
    ensures Progress(steps) + Work(Run(s, steps)) <= Work(s) + 3 * (|Run(s, steps).mail.accepted| - |s.mail.accepted|)
    decreases |steps|
  {
    hide Do, Enabled, DoTask, DoEnv, TaskEnabled, EnvEnabled, Work, Doomed, StopHeld;
    if steps != [] {
      var e, s' := steps[0], Do(s, steps[0]);
      if NoRestart(steps) { NoRestartNext(steps); }
      EndingStep(s, e);
      if Doomed(s) { DoomedStays(s, e); }
      WorkStep(s, e);
      EndingTerminates(s', steps[1..]);
    }
  }

  lemma WorkStep(s: State, e: Step)
    requires Enabled(s, e) && Ending(s) && (e == Task(Decide(true)) ==> Doomed(s))
    ensures (if IsProgress(e) then 1 else 0) + Work(Do(s, e))
         <= Work(s) + 3 * (|Do(s, e).mail.accepted| - |s.mail.accepted|)
  {
    hide DoTask, DoEnv, TaskEnabled, EnvEnabled, Work, Ending, Doomed;
    match e {
      case Task(a) => WorkTaskStep(s, a);
      case Env(a) => WorkEnvStep(s, a);
    }
  }

  ghost predicate CanProgress(s: State) {
    exists a :: a != Repoll && TaskEnabled(s, a)
  }

  /** And the task never gets stuck on the way: until it is gone it can act, or it is
      parked and a stop() or abort() under way still owes it the wake. This depends on
      the same contract: a poll that stays pending under cancellation (because a mask
      hides the request, say) could be parked with no wake to come. */
  lemma EndingNotStuck(s: State)
    requires Reachable(s) && Ending(s) && !s.pc.Gone?
    ensures CanProgress(s) || (s.pc == Parked && s.signals.wakesDue + s.signals.abortsDue > 0)
  {
    hide Reachable;
    match s.pc {
      case Parked =>
        if s.signals.notified {
          assert TaskEnabled(s, Advance);
        } else {
          NoLostStop(s);
        }
      case PollRecv =>
        assert TaskEnabled(s, Deliver) || TaskEnabled(s, Disconnect)
            || TaskEnabled(s, SeeCancel) || TaskEnabled(s, Pend);
      case Unwound(_) => assert TaskEnabled(s, Decide(false));
      case InOnStart => assert TaskEnabled(s, Return);
      case InHandle(_) => assert TaskEnabled(s, Return);
      case InDrain(_) => assert TaskEnabled(s, Return);
      case InOnStop => assert TaskEnabled(s, Return);
      case Gone(_) =>
      case _ => assert TaskEnabled(s, Advance);
    }
  }

  // ----- Restarts --------------------------------------------------------------------

  function RestartPending(pc: Pc): nat {
    if pc.StoreCreated? || pc.Backoff? || pc.CallFactory? then 1 else 0
  }

  /** The last call of the factory has made an incarnation that has panicked. */
  predicate LastFailed(s: State) {
    || s.pc.Unwound? || (s.pc.LowerMask? && s.pc.panic.Some?) || RestartPending(s.pc) == 1
    || (Outcome(s).Some? && Outcome(s).value.Panicked?)
  }

  ghost predicate RestartsInv(s: State, granted: nat) {
    && s.hist.factoryCalls + s.restartsLeft + RestartPending(s.pc) == 1 + granted
    && |s.hist.past| + 1 == s.hist.factoryCalls
    && (s.pc != Gone(None) ==> |s.hist.panics| == |s.hist.past| + (if LastFailed(s) then 1 else 0))
    && (LastFailed(s) ==> s.hist.panics != [])
    && (s.pc.Unwound? ==> s.pc.payload == s.hist.panics[|s.hist.panics| - 1])
    && (s.pc.LowerMask? && s.pc.panic.Some? ==> s.pc.panic.value == s.hist.panics[|s.hist.panics| - 1])
    && (Outcome(s).Some? && Outcome(s).value.Panicked? ==>
          Outcome(s).value.payload == s.hist.panics[|s.hist.panics| - 1])
  }

  lemma RestartsTask(s: State, granted: nat, a: TaskAction)
    requires RestartsInv(s, granted) && TaskEnabled(s, a)
    ensures RestartsInv(DoTask(s, a), granted)
  {
    hide DoAdvance;
    if a == Advance { RestartsAdvance(s, granted); }
  }

  lemma RestartsAdvance(s: State, granted: nat)
    requires RestartsInv(s, granted) && CanAdvance(s)
    ensures RestartsInv(DoAdvance(s), granted)
  {
  }

  lemma RestartsEnv(s: State, granted: nat, a: EnvAction)
    requires RestartsInv(s, granted) && EnvEnabled(s, a) && a != DropTask
    ensures RestartsInv(DoEnv(s, a), granted)
  {
  }

  lemma {:induction false} RestartsRun(s: State, granted: nat, steps: seq<Step>)
    requires CanRun(s, steps) && (RestartsInv(s, granted) || s.pc == Gone(None))
    ensures Run(s, steps).pc == Gone(None) || RestartsInv(Run(s, steps), granted)
    decreases |steps|
  {
    hide Do, Enabled, RestartsInv;
    if steps != [] {
      if s.pc == Gone(None) {
        GoneStays(s, steps[0]);
      } else {
        RestartsStep(s, granted, steps[0]);
      }
      RestartsRun(Do(s, steps[0]), granted, steps[1..]);
    }
  }

  lemma RestartsStep(s: State, granted: nat, e: Step)
    requires RestartsInv(s, granted) && Enabled(s, e)
    ensures Do(s, e).pc == Gone(None) || RestartsInv(Do(s, e), granted)
  {
    hide RestartsInv, DoTask, TaskEnabled;
    match e {
      case Task(a) => RestartsTask(s, granted, a);
      case Env(a) => if a != DropTask { RestartsEnv(s, granted, a); }
    }
  }

  lemma GoneStays(s: State, e: Step)
    requires Enabled(s, e) && s.pc.Gone?
    ensures Do(s, e).pc == s.pc
  {
  }

  /** The factory is called once and then once per restart, never more often than the
      supervisor's grants allow; every failed incarnation panicked exactly once; the
      result is Ok exactly when the last incarnation did not panic, and otherwise it
      carries the payload of the last panic. */
  lemma RestartBookkeeping(init: State, steps: seq<Step>)
    requires Initial(init) && CanRun(init, steps) && Outcome(Run(init, steps)).Some?
    ensures var s := Run(init, steps);
      var restarts := init.restartsLeft - s.restartsLeft;
      && restarts >= 0 && s.hist.factoryCalls == 1 + restarts && |s.hist.past| == restarts
      && (Outcome(s) == Some(Ok) <==> |s.hist.panics| == restarts)
      && (Outcome(s) == Some(Ok) || (|s.hist.panics| == restarts + 1
            && Outcome(s) == Some(Panicked(s.hist.panics[restarts]))))
  {
    RestartsRun(init, init.restartsLeft, steps);
  }

  lemma OneRestart(init: State, s: State) returns (t: State)
    requires Reaches(init, s) && s.pc == CheckStopping && s.cell != Stopping && s.restartsLeft > 0
    ensures Reaches(init, t) && t.pc == CheckStopping && t.cell == Created && t.restartsLeft == s.restartsLeft - 1
    ensures t.hist.factoryCalls == s.hist.factoryCalls + 1 && |t.hist.panics| == |s.hist.panics| + 1
  {
    hide Reaches;
    t := ThenStep(init, s, Task(Advance));
    t := ThenStep(init, t, Task(Advance));
    t := ThenStep(init, t, Task(Advance));
    t := ThenStep(init, t, Task(Panic(0)));
    t := ThenStep(init, t, Task(Decide(true)));
    t := ThenStep(init, t, Task(Advance));
    t := ThenStep(init, t, Task(Advance));
    t := ThenStep(init, t, Task(Advance));
  }

  /** Every restart that the supervisor has to give can be used: a run in which one
      incarnation after the other panics in `on_start`. */
  lemma {:induction false} AllRestartsHappen(init: State, s: State) returns (t: State)
    requires Reaches(init, s) && s.pc == CheckStopping && s.cell != Stopping
    ensures Reaches(init, t) && t.pc == CheckStopping && t.restartsLeft == 0
    ensures t.hist.factoryCalls == s.hist.factoryCalls + s.restartsLeft
    ensures |t.hist.panics| == |s.hist.panics| + s.restartsLeft
    decreases s.restartsLeft
  {
    hide Reaches;
    t := s;
    if s.restartsLeft > 0 {
      t := OneRestart(init, s);
      t := AllRestartsHappen(init, t);
    }
  }
}
