/** No lost stop: the interplay of `poll_recv`, the load of the state cell, and the
    two or three separate actions of stop() and abort(). */
module ActorWaking {
  import opened ActorModel

  /** Nothing that a parked task would have to react to. */
  ghost predicate Idle(s: State) {
    s.mail.queue == [] && s.mail.senders > 0 && !s.mail.closed && !s.cx.cancel && s.cell != Stopping
  }

  /** Between registering the waker and being polled again a wake is pending or the
      waker is in place; and a parked task without a pending wake is idle, unless a
      stop() or abort() is still between two of its actions. */
  ghost predicate WakingInv(s: State) {
    && (s.pc.LoadStopping? || s.pc.Parked? ==> s.signals.waker || s.signals.notified)
    && ((s.pc.LoadStopping? || s.pc.Parked?) && !s.signals.notified ==>
          && s.mail.queue == [] && s.mail.senders > 0 && !s.mail.closed
          && (s.cx.cancel ==> s.signals.wakesDue > 0))
    && (s.pc.Parked? && !s.signals.notified && s.cell == Stopping ==> s.signals.wakesDue > 0 || s.signals.abortsDue > 0)
  }

  lemma WakingTaskStep(s: State, a: TaskAction)
    requires WakingInv(s) && TaskEnabled(s, a)
    ensures WakingInv(DoTask(s, a))
  {
  }

  lemma WakingEnvStep(s: State, a: EnvAction)
    requires WakingInv(s) && EnvEnabled(s, a)
    ensures WakingInv(DoEnv(s, a))
  {
  }

  lemma {:induction false} WakingRun(s: State, steps: seq<Step>)
    requires WakingInv(s) && CanRun(s, steps)
    ensures WakingInv(Run(s, steps))
    decreases |steps|
  {
    hide DoTask, DoEnv, TaskEnabled, EnvEnabled, WakingInv;
    if steps != [] {
      match steps[0] {
        case Task(a) => WakingTaskStep(s, a);
        case Env(a) => WakingEnvStep(s, a);
      }
      WakingRun(Do(s, steps[0]), steps[1..]);
    }
  }

  /** In every reachable state: a task that is parked while the cell says Stopping has
      a pending wake, or the stopper is still between its actions; and a task that is
      parked with no wake pending and no stopper under way has nothing to do. */
  lemma NoLostStop(s: State)
    requires Reachable(s) && s.pc == Parked
    ensures s.cell == Stopping ==> s.signals.notified || s.signals.wakesDue > 0 || s.signals.abortsDue > 0
    ensures !s.signals.notified && s.signals.wakesDue == 0 && s.signals.abortsDue == 0 ==> Idle(s)
  {
    var init :| Initial(init) && Reaches(init, s);
    var steps :| CanRun(init, steps) && Run(init, steps) == s;
    WakingRun(init, steps);
  }

  /** The wake that a stopper owes is enough: once it is done, the parked task can be
      polled again. */
  lemma OwedWakeArrives(s: State)
    requires Reachable(s) && s.pc == Parked && s.signals.wakesDue > 0
    ensures TaskEnabled(DoEnv(s, WakeReceiver), Advance)
  {
    var init :| Initial(init) && Reaches(init, s);
    var steps :| CanRun(init, steps) && Run(init, steps) == s;
    WakingRun(init, steps);
  }

  // ----- The three windows in which a stop is overwritten ----------------------------

  /** The program points at which the actor's own store overwrites a stop(). */
  predicate InWindow(pc: Pc) {
    pc.StoreRunning? || pc.StoreCreated? || pc.StoreStopped?
  }

  /** Stopping leaves the cell only through one of these stores. */
  lemma StopOverwrittenOnlyInWindow(s: State, e: Step)
    requires Enabled(s, e) && s.cell == Stopping
    ensures Do(s, e).cell != Stopping <==> InWindow(s.pc) && e == Task(Advance)
  {
  }

  /** A stop() that lands between the load and the store of the start check is lost:
      a run in which stop() has returned and the actor is parked with the cell at
      Running, waiting for ever if nobody sends. */
  lemma StopLostInStartWindow(init: State) returns (s: State)
    requires Initial(init)
    ensures Reachable(s) && s.pc == Parked && s.cell == Running
    ensures !s.signals.notified && s.signals.wakesDue == 0 && s.signals.abortsDue == 0
  {
    hide Reaches;
    ReachesSelf(init);
    s := ThenStep(init, init, Task(Advance));
    s := ThenStep(init, s, Env(StopStore));
    s := ThenStep(init, s, Env(WakeReceiver));
    s := ThenStep(init, s, Task(Advance));
    s := ThenStep(init, s, Task(Advance));
    s := ThenStep(init, s, Task(Return));
    s := ThenStep(init, s, Task(Advance));
    s := ThenStep(init, s, Task(Pend));
    s := ThenStep(init, s, Task(Advance));
    assert Reachable(s);
  }

  /** The stop is in force: the cell says Stopping and the task stands at no store that
      overwrites it, or the task is over. */
  ghost predicate StopHeld(s: State) {
    (s.cell == Stopping && !InWindow(s.pc)) || s.pc.StoreStopped? || s.pc.DropMailbox? || s.pc.Gone?
  }

  /** A stop() outside the three windows takes hold, on a fresh actor as well. */
  lemma StopTakesHold(s: State)
    requires !InWindow(s.pc) || s.pc.StoreStopped?
    ensures StopHeld(DoEnv(s, StopStore)) && StopHeld(DoEnv(s, AbortStore))
    ensures DoEnv(s, StopStore).signals.wakesDue == s.signals.wakesDue + 1
    ensures DoEnv(s, AbortStore).signals.abortsDue == s.signals.abortsDue + 1
  {
  }

  predicate NoRestart(steps: seq<Step>) {
    forall i :: 0 <= i < |steps| ==> steps[i] != Task(Decide(true))
  }

  lemma NoRestartNext(steps: seq<Step>)
    requires steps != [] && NoRestart(steps)
    ensures steps[0] != Task(Decide(true)) && NoRestart(steps[1..])
  {
    forall i | 0 <= i < |steps[1..]| ensures steps[1..][i] != Task(Decide(true)) {
      assert steps[1..][i] == steps[i + 1];
    }
  }

  lemma StopHeldStep(s: State, e: Step)
    requires StopHeld(s) && Enabled(s, e) && e != Task(Decide(true))
    ensures StopHeld(Do(s, e))
  {
  }

  /** A stop() that is in force stays in force, in every interleaving without a restart. */
  lemma {:induction false} StopStays(s: State, steps: seq<Step>)
    requires StopHeld(s) && CanRun(s, steps) && NoRestart(steps)
    ensures StopHeld(Run(s, steps))
    decreases |steps|
  {
    hide Do, Enabled, StopHeld;
    if steps != [] {
      StopHeldStep(s, steps[0]);
      NoRestartNext(steps);
      StopStays(Do(s, steps[0]), steps[1..]);
    }
  }

  // ----- The state cell, phase by phase ------------------------------------------------

  /** What the cell can say where. Stopping stands beside the value of the phase wherever
      a stop() or an abort() may have come in between. */
  ghost predicate CellFits(s: State) {
    match s.pc
    case CheckStopping | StoreRunning | Backoff | CallFactory => s.cell == Created || s.cell == Stopping
    case BeginOnStart | InOnStart | LoopTop | PollRecv | LoadStopping | Parked | InHandle(_) | StoreStopping =>
      s.cell == Running || s.cell == Stopping
    case SnapshotAborted | CloseMailbox(_) | Drain(_) | InDrain(_) => s.cell == Stopping
    case RaiseMask | InOnStop | LowerMask(_) | LoopReturned => s.cell == Stopping
    case Unwound(_) | StoreCreated | SendResult(_) | StoreStopped(_) => s.cell == Running || s.cell == Stopping
    case DropMailbox(_) => s.cell == Stopped || s.cell == Stopping
    case Gone(outcome) => outcome.Some? ==> s.cell == Stopped || s.cell == Stopping
  }

  /** Without the other parties, the cell says exactly what the phase is. */
  ghost predicate CellUndisturbed(s: State) {
    match s.pc
    case CheckStopping | StoreRunning | Backoff | CallFactory => s.cell == Created
    case BeginOnStart | InOnStart | LoopTop | PollRecv | LoadStopping | Parked | InHandle(_) | StoreStopping =>
      s.cell == Running
    case DropMailbox(_) => s.cell == Stopped
    case Gone(outcome) => outcome.Some? ==> s.cell == Stopped
    case _ => CellFits(s)
  }

  /** The step stores Stopping from outside the task. */
  predicate Asks(s: State, e: Step) {
    e == Env(StopStore) || e == Env(AbortStore) || (e == Env(DropJoin) && !s.handle.completed && s.handle.slot == Empty)
  }

  lemma CellStep(s: State, e: Step)
    requires Enabled(s, e) && CellFits(s)
    ensures CellFits(Do(s, e))
    ensures CellUndisturbed(s) && !Asks(s, e) ==> CellUndisturbed(Do(s, e))
    ensures Asks(s, e) ==> Do(s, e).cell == Stopping
  {
    hide DoTask, DoEnv, TaskEnabled, EnvEnabled, CellFits, CellUndisturbed;
    match e {
      case Task(a) => CellTask(s, a);
      case Env(a) => CellEnv(s, a);
    }
  }

  lemma CellTask(s: State, a: TaskAction)
    requires TaskEnabled(s, a) && CellFits(s)
    ensures CellFits(DoTask(s, a)) && (CellUndisturbed(s) ==> CellUndisturbed(DoTask(s, a)))
  {
  }

  lemma CellEnv(s: State, a: EnvAction)
    requires EnvEnabled(s, a) && CellFits(s)
    ensures CellFits(DoEnv(s, a))
    ensures CellUndisturbed(s) && !Asks(s, Env(a)) ==> CellUndisturbed(DoEnv(s, a))
    ensures Asks(s, Env(a)) ==> DoEnv(s, a).cell == Stopping
  {
  }

  ghost predicate NobodyAsks(s: State, steps: seq<Step>)
    requires CanRun(s, steps)
    decreases |steps|
  {
    steps == [] || (!Asks(s, steps[0]) && NobodyAsks(Do(s, steps[0]), steps[1..]))
  }

  lemma {:induction false} CellRun(s: State, steps: seq<Step>)
    requires CanRun(s, steps) && CellFits(s)
    ensures CellFits(Run(s, steps))
    ensures CellUndisturbed(s) && NobodyAsks(s, steps) ==> CellUndisturbed(Run(s, steps))
    decreases |steps|
  {
    hide Do, Enabled, CellFits, CellUndisturbed, Asks;
    if steps != [] {
      CellStep(s, steps[0]);
      CellRun(Do(s, steps[0]), steps[1..]);
    }
  }

  /** In every run the cell says the phase of the task, or Stopping; and it says exactly
      the phase when nobody has asked the actor to stop. */
  lemma CellByPhase(init: State, steps: seq<Step>)
    requires Initial(init) && CanRun(init, steps)
    ensures CellFits(Run(init, steps))
    ensures NobodyAsks(init, steps) ==> CellUndisturbed(Run(init, steps))
  {
    CellRun(init, steps);
  }

  // ----- When the receive loop goes on and when it ends -------------------------------------

  /** The loop ends only for a reason: a cancellation, a closed mailbox, no senders, or a
      stop. */
  lemma LoopEndsForAReason(s: State, e: Step)
    requires Enabled(s, e) && s.pc != StoreStopping && Do(s, e).pc == StoreStopping
    ensures s.cx.cancel || s.mail.closed || s.mail.senders == 0 || s.cell == Stopping
  {
  }

  /** A queued message is received next, whatever the cell says, unless the actor is
      cancelled. */
  lemma QueuedIsReceived(s: State, a: TaskAction)
    requires s.pc == PollRecv && s.mail.queue != [] && !s.cx.cancel
    ensures TaskEnabled(s, a) <==> a == Deliver
    ensures DoTask(s, Deliver).pc == InHandle(s.mail.queue[0])
    ensures DoTask(s, Deliver).mail.queue == s.mail.queue[1..]
  {
  }

  /** How often a task with nothing to do can still act on its own. */
  function Settling(s: State): nat {
    (if s.signals.notified then 3 else 0) + (if s.pc.PollRecv? then 2 else if s.pc.LoadStopping? then 1 else 0)
  }

  ghost predicate InLoop(s: State) {
    Idle(s) && (s.pc.PollRecv? || s.pc.LoadStopping? || s.pc.Parked?)
  }

  lemma SettlingStep(s: State, a: TaskAction)
    requires InLoop(s) && TaskEnabled(s, a)
    ensures InLoop(DoTask(s, a)) && Settling(DoTask(s, a)) < Settling(s)
  {
  }

  /** No busy loop: with nothing to do, and left alone, the task comes to rest after at
      most five actions. */
  lemma {:induction false} IdleSettles(s: State, steps: seq<Step>)
    requires CanRun(s, steps) && InLoop(s) && forall i :: 0 <= i < |steps| ==> steps[i].Task?
    ensures |steps| <= Settling(s) <= 5 && InLoop(Run(s, steps))
    decreases |steps|
  {
    hide DoTask, TaskEnabled, InLoop, Settling;
    SettlingBound(s);
    if steps != [] {
      SettlingStep(s, steps[0].task);
      IdleSettles(Do(s, steps[0]), steps[1..]);
    }
  }

  lemma SettlingBound(s: State)
    ensures Settling(s) <= 5
  {
  }

  // ----- What is owed ---------------------------------------------------------------------

  /** What a step adds to the reservations, to the senders and to the owed wakes. */
  datatype Owed = Owed(reserved: int, senders: int, wakes: int)

  function Change(e: Step): Owed {
    match e
    case Env(Reserve) => Owed(1, 0, 0)
    case Env(Commit(_)) => Owed(-1, 0, 0)
    case Env(Abandon) => Owed(-1, 0, 0)
    case Env(CloneSender) => Owed(0, 1, 0)
    case Env(DropSender) => Owed(0, -1, 0)
    case Env(StopStore) => Owed(0, 0, 1)
    case Env(AbortFlags(_)) => Owed(0, 0, 1)
    case Env(WakeReceiver) => Owed(0, 0, -1)
    case _ => Owed(0, 0, 0)
  }

  function Changes(steps: seq<Step>): Owed {
    if steps == [] then Owed(0, 0, 0)
    else
      var c, rest := Change(steps[0]), Changes(steps[1..]);
      Owed(c.reserved + rest.reserved, c.senders + rest.senders, c.wakes + rest.wakes)
  }

  lemma BalanceStep(s: State, e: Step)
    requires Enabled(s, e)
    ensures var t := Do(s, e);
      Change(e) == Owed(t.mail.reserved - s.mail.reserved, t.mail.senders - s.mail.senders,
                        t.signals.wakesDue - s.signals.wakesDue)
  {
  }

  /** Reservations, senders and owed wakes are counted exactly, through every run. */
  lemma {:induction false} Balances(s: State, steps: seq<Step>)
    requires CanRun(s, steps)
    ensures var t := Run(s, steps);
      Changes(steps) == Owed(t.mail.reserved - s.mail.reserved, t.mail.senders - s.mail.senders,
                             t.signals.wakesDue - s.signals.wakesDue)
    decreases |steps|
  {
    hide Do, Enabled, Change;
    if steps != [] {
      BalanceStep(s, steps[0]);
      Balances(Do(s, steps[0]), steps[1..]);
    }
  }

  /** The step wakes the receiver if a waker is registered: a wake_receiver call, an
      accepted message, the loss of the last sender. */
  predicate Wakes(s: State, e: Step) {
    || e == Env(WakeReceiver) || (e == Env(DropSender) && s.mail.senders == 1)
    || (Enabled(s, e) && |Do(s, e).mail.accepted| > |s.mail.accepted|)
  }

  /** The wake protocol, signal by signal: only a pending poll registers the waker, a wake
      uses it up, and only the next poll of the task serves the wake. */
  lemma WakesExactly(s: State, e: Step)
    requires Enabled(s, e)
    ensures Do(s, e).signals.waker <==> e == Task(Pend) || (s.signals.waker && !Wakes(s, e))
    ensures Do(s, e).signals.notified
       <==> (s.signals.waker && Wakes(s, e)) || e == Env(RegionCancel)
            || (s.signals.notified && e != Task(Repoll) && !(e == Task(Advance) && s.pc == Parked))
  {
  }
}
