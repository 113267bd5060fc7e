/** The actor task as the program it is: `run_actor_loop` and `run_supervised_loop`
    over fields that every party updates in place. Whatever a schedule lets the hooks,
    the supervisor and the other parties do, the execution is a run of the state
    machine, so that everything proved of all runs holds of this program. */
module ActorRuntime {
  import opened ActorModel
  import opened Wrappers
  import ActorMailbox
  import ActorHooks

  /** What comes next: an action of another party, or the outcome of something the
      task waits for. */
  datatype Event = Other(action: EnvAction) | Own(outcome: TaskAction)

  /** How a piece of the task's code ends: normally, by a panic, or not at all,
      because the schedule ends or the task is dropped. */
  datatype Flow = Done | Unwinding(payload: Payload) | Left {
    predicate IsFailure() { !Done? }
    function PropagateFailure(): Flow { this }
  }

  datatype Received = Message(msg: Msg) | Disconnected | Cancelled

  /** Whether the task is between two awaits, at an await, or over. */
  datatype Position = Busy | Waiting | Over

  predicate AtHook(pc: Pc) {
    InHook(pc) && pc != Backoff
  }

  function Returned(pc: Pc): Pc
    requires AtHook(pc)
  {
    match pc
    case InOnStart => LoopTop
    case InHandle(_) => LoopTop
    case InDrain(_) => Drain(false)
    case InOnStop => LowerMask(None)
  }

  function Panicking(pc: Pc, p: Payload): Pc {
    if pc == InOnStop then LowerMask(Some(p)) else Unwound(p)
  }

  /** Between the creation of the mask guard and its drop. */
  predicate Guarded(pc: Pc) {
    pc.InOnStop? || pc.LowerMask?
  }

  /** The value the task's next store gives to the state cell. */
  function StoredAt(pc: Pc): Option<ActorState> {
    match pc
    case StoreRunning => Some(Running)
    case StoreStopping => Some(Stopping)
    case StoreCreated => Some(Created)
    case StoreStopped(_) => Some(Stopped)
    case _ => None
  }

  function AfterStore(pc: Pc): Pc
    requires StoredAt(pc).Some?
  {
    match pc
    case StoreRunning => BeginOnStart
    case StoreStopping => SnapshotAborted
    case StoreCreated => Backoff
    case StoreStopped(result) => DropMailbox(result)
  }

  /** What the task and everybody else share, the schedule that is still to come, and
      the run of the state machine that the execution so far amounts to. */
  class Runtime {
    var cell: ActorState
    var mail: Mailbox
    var signals: Signals
    var cx: CxInner
    var restartsLeft: nat
    var handle: Handle
    var maskGuard: bool        // an OnStopMaskGuard is alive
    var schedule: seq<Event>
    ghost var pc: Pc
    ghost var hist: History
    ghost var trace: seq<Step>
    ghost const start: State

    ghost function Now(): State
      reads this
    {
      State(cell, mail, signals, cx, pc, restartsLeft, handle, hist)
    }

    /** The execution so far is a run of the state machine from a fresh actor. */
    ghost predicate Valid()
      reads this
    {
      && Initial(start) && CanRun(start, trace) && Run(start, trace) == Now()
      && maskGuard == Guarded(pc)
    }

    constructor (capacity: nat, senders: nat, mask: nat, restarts: nat, schedule: seq<Event>)
      requires senders >= 1
      ensures Valid() && pc == CheckStopping && this.schedule == schedule
      ensures mail.capacity == capacity && mail.senders == senders && cx.mask == mask && restartsLeft == restarts
    {
      cell, mail, signals := Created, Mailbox([], 0, capacity, false, senders, []), Signals(false, false, 0, 0);
      cx, restartsLeft, handle := CxInner(false, None, mask), restarts, Handle(Empty, true, false, false, []);
      maskGuard := false;
      this.schedule, pc, hist, trace := schedule, CheckStopping, History([], [], [], [], 1), [];
      start := State(Created, Mailbox([], 0, capacity, false, senders, []), Signals(false, false, 0, 0),
                     CxInner(false, None, mask), CheckStopping, restarts, Handle(Empty, true, false, false, []),
                     History([], [], [], [], 1));
    }

    /** The fields now stand where step `e` takes the machine. */
    ghost predicate Shows(after: State)
      reads this
    {
      && cell == after.cell && mail == after.mail && signals == after.signals && cx == after.cx
      && restartsLeft == after.restartsLeft && handle == after.handle
    }

    ghost method Follow(before: State, e: Step)
      requires Initial(start) && CanRun(start, trace) && Run(start, trace) == before
      requires Enabled(before, e) && Shows(Do(before, e))
      requires maskGuard == Guarded(Do(before, e).pc)
      modifies this`pc, this`hist, this`trace
      ensures Valid() && Now() == Do(before, e) && trace == old(trace) + [e]
    {
      hide Do, Enabled;
      assert [e][1..] == [];
      RunConcat(start, trace, [e]);
      trace, pc, hist := trace + [e], Do(before, e).pc, Do(before, e).hist;
    }

    // ----- The other parties -----------------------------------------------------

    method WakeReceiver()
      modifies this`signals
      ensures signals == Wake(old(signals))
    {
      if signals.waker {
        signals := signals.(waker := false, notified := true);
      }
    }

    predicate Can(a: EnvAction, at: Position)
      reads this
    {
      match a
      case TrySend(_) => mail.senders > 0
      case Reserve => mail.senders > 0 && !mail.closed && HasRoom(mail)
      case Commit(_) => mail.reserved > 0
      case Abandon => mail.reserved > 0
      case CloneSender => mail.senders > 0
      case DropSender => mail.senders > 1 || (mail.senders == 1 && mail.reserved == 0)
      case StopStore => true
      case AbortStore => true
      case AbortFlags(alive) => signals.abortsDue > 0 && (alive || at == Over)
      case WakeReceiver => signals.wakesDue > 0
      case RegionCancel => true
      case Join => handle.owned && !handle.joining
      case PollJoin => handle.joining
      case DropJoin => handle.joining
      case DropHandle => handle.owned && !handle.joining
      case DropTask => at == Waiting
    }

    /** A message enters the queue. */
    method Accept(m: Msg)
      modifies this`mail, this`signals
      ensures mail == old(mail).(queue := old(mail).queue + [m], accepted := old(mail).accepted + [m])
      ensures signals == Wake(old(signals))
    {
      mail := mail.(queue := mail.queue + [m], accepted := mail.accepted + [m]);
      WakeReceiver();
    }

    /** `cancel_requested`, and the reason unless there is one. */
    method RequestCancel(reason: Reason)
      modifies this`cx
      ensures cx == ActorModel.RequestCancel(old(cx), reason)
    {
      cx := cx.(cancel := true);
      if cx.reason.None? {
        cx := cx.(reason := Some(reason));
      }
    }

    method PollJoin()
      modifies this`handle
      ensures handle == DoPollJoin(old(handle), cx.reason)
    {
      if handle.completed {
        handle := handle.(outputs := handle.outputs + [PolledAfterCompletion]);
      } else if handle.slot.Full? {
        var result := handle.slot.result;
        handle := handle.(slot := Taken, completed := true, outputs := handle.outputs + [Joined(result)]);
      } else if handle.slot != Empty {
        handle := handle.(completed := true, outputs := handle.outputs + [JoinCancelled(cx.reason)]);
      }
    }

    /** `Drop` of the mask guard. */
    method DropMaskGuard()
      requires maskGuard
      modifies this`cx, this`maskGuard
      ensures !maskGuard && cx == old(cx).(mask := if old(cx).mask == 0 then 0 else old(cx).mask - 1)
    {
      if cx.mask > 0 {
        cx := cx.(mask := cx.mask - 1);
      }
      maskGuard := false;
    }

    /** One action of another party. */
    method Act(a: EnvAction, at: Position)
      requires Valid() && Can(a, at)
      requires at == Waiting ==> Suspended(Now())
      requires at == Over ==> pc.Gone?
      modifies this
      ensures Valid() && old(trace) <= trace && Now() == DoEnv(old(Now()), a) && schedule == old(schedule)
    {
      if a.TrySend? || a.Reserve? || a.Commit? || a.Abandon? || a.CloneSender? || a.DropSender? {
        ActOnMailbox(a, at);
      } else if a.Join? || a.PollJoin? || a.DropJoin? || a.DropHandle? {
        ActOnHandle(a, at);
      } else if a.RegionCancel? || a.DropTask? {
        ActAsRuntime(a, at);
      } else {
        ActAsStopper(a, at);
      }
    }

    method ActOnMailbox(a: EnvAction, at: Position)
      requires a.TrySend? || a.Reserve? || a.Commit? || a.Abandon? || a.CloneSender? || a.DropSender?
      requires Valid() && Can(a, at)
      requires at == Waiting ==> Suspended(Now())
      requires at == Over ==> pc.Gone?
      modifies this
      ensures Valid() && old(trace) <= trace && Now() == DoEnv(old(Now()), a) && schedule == old(schedule)
    {
      hide CanRun, Run, Initial;
      ghost var before := Now();
      match a {
        case TrySend(m) =>
          if !mail.closed && HasRoom(mail) {
            Accept(m);
          }
        case Reserve => mail := mail.(reserved := mail.reserved + 1);
        case Commit(m) =>
          mail := mail.(reserved := mail.reserved - 1);
          if !mail.closed {
            Accept(m);
          }
        case Abandon => mail := mail.(reserved := mail.reserved - 1);
        case CloneSender => mail := mail.(senders := mail.senders + 1);
        case DropSender =>
          mail := mail.(senders := mail.senders - 1);
          if mail.senders == 0 {
            WakeReceiver();
          }
      }
      Follow(before, Env(a));
    }

    method ActOnHandle(a: EnvAction, at: Position)
      requires a.Join? || a.PollJoin? || a.DropJoin? || a.DropHandle?
      requires Valid() && Can(a, at)
      requires at == Waiting ==> Suspended(Now())
      requires at == Over ==> pc.Gone?
      modifies this
      ensures Valid() && old(trace) <= trace && Now() == DoEnv(old(Now()), a) && schedule == old(schedule)
    {
      hide CanRun, Run, Initial;
      ghost var before := Now();
      match a {
        case Join => handle := handle.(joining := true);
        case PollJoin => PollJoin();
        case DropJoin =>
          handle := handle.(joining := false);
          if !handle.completed && handle.slot == Empty {
            AbortStore();
          }
        case DropHandle => handle := handle.(owned := false, slot := Closed);
      }
      Follow(before, Env(a));
    }

    /** The parts of stop() and of abort(). */
    method ActAsStopper(a: EnvAction, at: Position)
      requires a.StopStore? || a.AbortStore? || a.AbortFlags? || a.WakeReceiver?
      requires Valid() && Can(a, at)
      requires at == Waiting ==> Suspended(Now())
      requires at == Over ==> pc.Gone?
      modifies this
      ensures Valid() && old(trace) <= trace && Now() == DoEnv(old(Now()), a) && schedule == old(schedule)
    {
      hide CanRun, Run, Initial;
      ghost var before := Now();
      match a {
        case StopStore =>
          cell := Stopping;
          signals := signals.(wakesDue := signals.wakesDue + 1);
        case AbortStore => AbortStore();
        case AbortFlags(alive) =>
          if alive {
            RequestCancel(AbortRequested);
          }
          signals := signals.(abortsDue := signals.abortsDue - 1, wakesDue := signals.wakesDue + 1);
        case WakeReceiver =>
          signals := signals.(wakesDue := signals.wakesDue - 1);
          WakeReceiver();
      }
      Follow(before, Env(a));
    }

    /** The cancellation of the region, and the runtime that drops the task. */
    method ActAsRuntime(a: EnvAction, at: Position)
      requires a.RegionCancel? || a.DropTask?
      requires Valid() && Can(a, at)
      requires at == Waiting ==> Suspended(Now())
      requires at == Over ==> pc.Gone?
      modifies this
      ensures Valid() && old(trace) <= trace && Now() == DoEnv(old(Now()), a) && schedule == old(schedule)
    {
      hide CanRun, Run, Initial;
      ghost var before := Now();
      match a {
        case RegionCancel =>
          RequestCancel(RegionClosed);
          signals := signals.(notified := true);
        case DropTask =>
          if maskGuard {
            DropMaskGuard();
          }
          mail := mail.(closed := true, queue := []);
          if handle.slot == Empty {
            handle := handle.(slot := Closed);
          }
      }
      Follow(before, Env(a));
    }

    method AbortStore()
      modifies this`cell, this`signals
      ensures cell == Stopping && signals == old(signals).(abortsDue := old(signals).abortsDue + 1)
    {
      cell := Stopping;
      signals := signals.(abortsDue := signals.abortsDue + 1);
    }

    /** Everything the other parties do before the task acts again. */
    method Interleave(at: Position) returns (f: Flow)
      requires Valid()
      requires at == Waiting ==> Suspended(Now())
      requires at == Over ==> pc.Gone?
      modifies this
      ensures Valid() && old(trace) <= trace && |schedule| <= old(|schedule|)
      ensures f.Done? || (f == Left && at == Waiting)
      ensures f.Done? ==> pc == old(pc) && (schedule == [] || schedule[0].Own?)
      ensures restartsLeft == old(restartsLeft) && (|schedule| == old(|schedule|) ==> Now() == old(Now()))
      ensures f == Left ==> pc.Gone?
    {
      hide CanRun, Run, Initial;
      while schedule != [] && schedule[0].Other?
        invariant Valid() && old(trace) <= trace && |schedule| <= old(|schedule|) && pc == old(pc) && hist == old(hist)
        invariant restartsLeft == old(restartsLeft) && (|schedule| == old(|schedule|) ==> Now() == old(Now()))
        decreases |schedule|
      {
        var a := schedule[0].action;
        schedule := schedule[1..];
        if Can(a, at) {
          Act(a, at);
          if a == DropTask {
            return Left;
          }
        }
      }
      return Done;
    }

    // ----- run_actor_loop ----------------------------------------------------------

    /** One poll after the other of a hook or handler, until it returns or panics. */
    method Await() returns (f: Flow)
      requires Valid() && AtHook(pc)
      modifies this
      ensures Valid() && old(trace) <= trace && restartsLeft == old(restartsLeft)
      ensures f.Done? ==> pc == Returned(old(pc)) && |schedule| < old(|schedule|)
      ensures f.Unwinding? ==> pc == Panicking(old(pc), f.payload) && |schedule| < old(|schedule|)
      ensures f == Left ==> schedule == [] || pc.Gone?
    {
      hide CanRun, Run, Initial;
      while true
        invariant Valid() && old(trace) <= trace && restartsLeft == old(restartsLeft) && pc == old(pc)
        invariant maskGuard == old(maskGuard) && |schedule| <= old(|schedule|)
        decreases |schedule|
      {
        :- Interleave(Waiting);
        if schedule == [] { return Left; }
        var outcome := schedule[0].outcome;
        schedule := schedule[1..];
        ghost var before := Now();
        match outcome {
          case Return =>
            Follow(before, Task(Return));
            return Done;
          case Panic(p) =>
            Follow(before, Task(Panic(p)));
            return Unwinding(p);
          case Repoll =>
            signals := signals.(notified := false);
            Follow(before, Task(Repoll));
          case _ =>
        }
      }
    }

    /** `poll_recv`: None while it is pending. */
    method PollRecvOnce() returns (r: Option<Received>)
      requires Valid() && pc == PollRecv
      modifies this
      ensures Valid() && old(trace) <= trace && restartsLeft == old(restartsLeft) && |schedule| <= old(|schedule|)
      ensures |schedule| == old(|schedule|) ==> signals.notified == old(signals.notified)
      ensures pc == match r case None => LoadStopping case Some(Message(m)) => InHandle(m) case _ => StoreStopping
    {
      hide CanRun, Run, Initial;
      var _ := Interleave(Busy);
      ghost var before := Now();
      var idle := mail.queue == [] && !mail.closed && mail.senders > 0;
      if cx.cancel && (idle || (schedule != [] && schedule[0] == Own(SeeCancel))) {
        Follow(before, Task(SeeCancel));
        return Some(Cancelled);
      }
      if mail.queue != [] {
        var m := mail.queue[0];
        mail := mail.(queue := mail.queue[1..]);
        Follow(before, Task(Deliver));
        return Some(Message(m));
      }
      if !idle {
        Follow(before, Task(Disconnect));
        return Some(Disconnected);
      }
      signals := signals.(waker := true);
      Follow(before, Task(Pend));
      return None;
    }

    /** The `poll_fn` of the receive loop, polled until it is ready. */
    method Receive() returns (f: Flow, r: Received)
      requires Valid() && pc == PollRecv
      modifies this
      ensures Valid() && old(trace) <= trace && restartsLeft == old(restartsLeft)
      ensures !f.Unwinding? && |schedule| <= old(|schedule|)
      ensures f.Done? ==> pc == if r.Message? then InHandle(r.msg) else StoreStopping
      ensures f == Left ==> schedule == [] || pc.Gone?
    {
      hide CanRun, Run, Initial;
      f, r := Done, Disconnected;
      while true
        invariant Valid() && old(trace) <= trace && restartsLeft == old(restartsLeft) && pc == PollRecv
        invariant f == Done && |schedule| <= old(|schedule|)
        decreases |schedule|, signals.notified
      {
        var ready := PollRecvOnce();
        if ready.Some? {
          return Done, ready.value;
        }
        // pending: has a graceful stop been requested?
        f := Interleave(Busy);
        var stopped := cell == Stopping;
        Pass();
        if stopped {
          return Done, Disconnected;
        }
        f := Park();
        if !f.Done? { return; }
      }
    }

    /** The task sleeps until a wake arrives. */
    method Park() returns (f: Flow)
      requires Valid() && pc == Parked
      modifies this
      ensures Valid() && old(trace) <= trace && restartsLeft == old(restartsLeft)
      ensures !f.Unwinding? && |schedule| <= old(|schedule|)
      ensures f.Done? ==> pc == PollRecv && !signals.notified && (|schedule| < old(|schedule|) || old(signals.notified))
      ensures f == Left ==> schedule == [] || pc.Gone?
    {
      hide CanRun, Run, Initial;
      f := Interleave(Waiting);
      while f.Done? && !signals.notified && schedule != []
        invariant Valid() && old(trace) <= trace && restartsLeft == old(restartsLeft)
        invariant !f.Unwinding? && |schedule| <= old(|schedule|)
        invariant f == Left ==> schedule == [] || pc.Gone?
        invariant f.Done? ==> pc == Parked && (|schedule| < old(|schedule|) || Now() == old(Now()))
        decreases |schedule|
      {
        schedule := schedule[1..];
        f := Interleave(Waiting);
      }
      if !f.Done? { return; }
      if !signals.notified { return Left; }
      ghost var before := Now();
      signals := signals.(notified := false);
      Follow(before, Task(Advance));
    }

    /** An atomic action of the task that changes no field. */
    ghost method Pass()
      requires Valid() && CanAdvance(Now()) && Shows(DoAdvance(Now()))
      requires Guarded(DoAdvance(Now()).pc) == Guarded(pc)
      modifies this`pc, this`hist, this`trace
      ensures Valid() && old(trace) <= trace && Now() == DoAdvance(old(Now()))
    {
      Follow(Now(), Task(Advance));
    }

    /** `ActorStateCell::store` by the task itself. */
    method Store(state: ActorState)
      requires Valid() && StoredAt(pc) == Some(state)
      modifies this
      ensures Valid() && old(trace) <= trace && restartsLeft == old(restartsLeft)
      ensures |schedule| <= old(|schedule|) && pc == AfterStore(old(pc))
    {
      hide CanRun, Run, Initial;
      var _ := Interleave(Busy);
      ghost var before := Now();
      cell := state;
      Follow(before, Task(Advance));
    }

    method RunActorLoop() returns (f: Flow)
      requires Valid() && pc == CheckStopping
      modifies this
      ensures Valid() && old(trace) <= trace && restartsLeft == old(restartsLeft)
      ensures f.Done? ==> pc == LoopReturned
      ensures f.Unwinding? ==> pc == Unwound(f.payload)
      ensures f == Left ==> schedule == [] || pc.Gone?
    {
      hide CanRun, Run, Initial;
      Initialize();
      :- Await();
      :- MessageLoop();
      var isAborted := SealMailbox();
      :- DrainMailbox(isAborted);
      f := CleanUp();
    }

    /** Honours a stop() that came before the start; then `on_start` is called. */
    method Initialize()
      requires Valid() && pc == CheckStopping
      modifies this
      ensures Valid() && old(trace) <= trace && restartsLeft == old(restartsLeft) && pc == InOnStart
    {
      hide CanRun, Run, Initial;
      var _ := Interleave(Busy);
      var stopped := cell == Stopping;
      Pass();
      if !stopped {
        Store(Running);
      }
      var _ := Interleave(Busy);
      Pass();
    }

    method MessageLoop() returns (f: Flow)
      requires Valid() && pc == LoopTop
      modifies this
      ensures Valid() && old(trace) <= trace && restartsLeft == old(restartsLeft)
      ensures f.Done? ==> pc == StoreStopping
      ensures f.Unwinding? ==> pc == Unwound(f.payload)
      ensures f == Left ==> schedule == [] || pc.Gone?
    {
      hide CanRun, Run, Initial;
      while true
        invariant Valid() && old(trace) <= trace && restartsLeft == old(restartsLeft) && pc == LoopTop
        decreases |schedule|
      {
        f := Interleave(Busy);
        var cancelled := cx.cancel;
        Pass();
        if cancelled { break; }
        var r: Received;
        r :- Receive();
        match r {
          case Message(_) => :- Await();
          case Disconnected => break;
          case Cancelled => break;
        }
      }
      f := Done;
    }

    /** The end of the receive loop: takes the snapshot and seals the mailbox. */
    method SealMailbox() returns (isAborted: bool)
      requires Valid() && pc == StoreStopping
      modifies this
      ensures Valid() && old(trace) <= trace && restartsLeft == old(restartsLeft) && pc == Drain(isAborted)
    {
      hide CanRun, Run, Initial;
      Store(Stopping);
      var _ := Interleave(Busy);
      isAborted := cx.cancel;
      Pass();
      var _ := Interleave(Busy);
      ghost var before := Now();
      mail := mail.(closed := true);
      Follow(before, Task(Advance));
      var _ := Interleave(Busy);
    }

    /** Handles what is left in the mailbox, or drops it on an abort. */
    method DrainMailbox(isAborted: bool) returns (f: Flow)
      requires Valid() && pc == Drain(isAborted)
      modifies this
      ensures Valid() && old(trace) <= trace && restartsLeft == old(restartsLeft)
      ensures f.Done? ==> pc == RaiseMask
      ensures f.Unwinding? ==> pc == Unwound(f.payload)
      ensures f == Left ==> schedule == [] || pc.Gone?
    {
      hide CanRun, Run, Initial;
      while mail.queue != []
        invariant Valid() && old(trace) <= trace && restartsLeft == old(restartsLeft) && pc == Drain(isAborted)
        decreases |schedule|, |mail.queue|
      {
        TakeOne(isAborted);
        if !isAborted {
          :- Await();
        }
        f := Interleave(Busy);
      }
      Pass();
      f := Done;
    }

    method TakeOne(isAborted: bool)
      requires Valid() && pc == Drain(isAborted) && mail.queue != []
      modifies this
      ensures Valid() && old(trace) <= trace && restartsLeft == old(restartsLeft) && schedule == old(schedule)
      ensures mail.queue == old(mail.queue)[1..]
      ensures pc == if isAborted then Drain(true) else InDrain(old(mail.queue)[0])
    {
      hide CanRun, Run, Initial;
      ghost var before := Now();
      mail := mail.(queue := mail.queue[1..]);
      Follow(before, Task(Advance));
    }

    /** Calls `on_stop` under the mask, which its guard lowers also on unwinding. */
    method CleanUp() returns (f: Flow)
      requires Valid() && pc == RaiseMask
      modifies this
      ensures Valid() && old(trace) <= trace && restartsLeft == old(restartsLeft)
      ensures f.Done? ==> pc == LoopReturned
      ensures f.Unwinding? ==> pc == Unwound(f.payload)
      ensures f == Left ==> schedule == [] || pc.Gone?
    {
      hide CanRun, Run, Initial;
      NewMaskGuard();
      f := Await();
      if f != Left {
        DropGuard();
      }
    }

    method NewMaskGuard()
      requires Valid() && pc == RaiseMask
      modifies this
      ensures Valid() && old(trace) <= trace && restartsLeft == old(restartsLeft) && pc == InOnStop
    {
      hide CanRun, Run, Initial;
      var _ := Interleave(Busy);
      ghost var before := Now();
      cx := cx.(mask := cx.mask + 1);
      maskGuard := true;
      Follow(before, Task(Advance));
    }

    method DropGuard()
      requires Valid() && pc.LowerMask?
      modifies this
      ensures Valid() && old(trace) <= trace && restartsLeft == old(restartsLeft)
      ensures pc == match old(pc) case LowerMask(Some(p)) => Unwound(p) case _ => LoopReturned
    {
      hide CanRun, Run, Initial;
      var _ := Interleave(Busy);
      ghost var before := Now();
      DropMaskGuard();
      Follow(before, Task(Advance));
    }

    // ----- run_supervised_loop -------------------------------------------------------

    /** The supervisor grants a restart only from its budget. */
    method OnFailure() returns (restart: bool)
      requires Valid() && pc.Unwound?
      modifies this
      ensures Valid() && old(trace) <= trace && restartsLeft == old(restartsLeft) - (if restart then 1 else 0)
      ensures pc == if restart then StoreCreated else SendResult(Panicked(old(pc).payload))
    {
      hide CanRun, Run, Initial;
      var _ := Interleave(Busy);
      restart := restartsLeft > 0 && schedule != [] && schedule[0] == Own(Decide(true));
      ghost var before := Now();
      if restart {
        restartsLeft := restartsLeft - 1;
      }
      Follow(before, Task(Decide(restart)));
    }

    /** The sleep of the backoff. */
    method Sleep() returns (f: Flow)
      requires Valid() && pc == Backoff
      modifies this
      ensures Valid() && old(trace) <= trace && !f.Unwinding?
      ensures f.Done? ==> pc == CallFactory && restartsLeft == old(restartsLeft)
      ensures f == Left ==> schedule == [] || pc.Gone?
    {
      hide CanRun, Run, Initial;
      f := Interleave(Waiting);
      while f.Done? && schedule != [] && schedule[0] == Own(Repoll)
        invariant Valid() && old(trace) <= trace && !f.Unwinding?
        invariant f.Done? ==> pc == Backoff && restartsLeft == old(restartsLeft)
        invariant f == Left ==> schedule == [] || pc.Gone?
        decreases |schedule|
      {
        schedule := schedule[1..];
        ghost var before := Now();
        signals := signals.(notified := false);
        Follow(before, Task(Repoll));
        f := Interleave(Waiting);
      }
      if f.Done? { Pass(); }
    }

    /** Resets the state cell, sleeps through the backoff, and makes the next actor. */
    method Restart() returns (f: Flow)
      requires Valid() && pc == StoreCreated
      modifies this
      ensures Valid() && old(trace) <= trace && !f.Unwinding?
      ensures f.Done? ==> pc == CheckStopping && restartsLeft == old(restartsLeft)
      ensures f == Left ==> schedule == [] || pc.Gone?
    {
      hide CanRun, Run, Initial;
      Store(Created);
      f := Sleep();
      if f.Done? {
        var _ := Interleave(Busy);
        Pass();
      }
    }

    method RunSupervisedLoop() returns (f: Flow, result: Result)
      requires Valid() && pc == CheckStopping
      modifies this
      ensures Valid() && old(trace) <= trace && !f.Unwinding?
      ensures f.Done? ==> pc == SendResult(result)
      ensures f == Left ==> schedule == [] || pc.Gone?
    {
      hide CanRun, Run, Initial;
      result := Ok;
      while true
        invariant Valid() && old(trace) <= trace && pc == CheckStopping
        decreases restartsLeft
      {
        f := RunActorLoop();
        match f {
          case Done =>
            var _ := Interleave(Busy);
            Pass();
            return Done, Ok;
          case Left => return;
          case Unwinding(p) =>
            var restart := OnFailure();
            if !restart {
              return Done, Panicked(p);
            }
            f := Restart();
            if !f.Done? { return; }
        }
      }
    }

    /** The end of the wrapped future: sends the result, then stores Stopped; the
        mailbox goes with the cell. */
    method Finish(result: Result)
      requires Valid() && pc == SendResult(result)
      modifies this
      ensures Valid() && old(trace) <= trace && pc == Gone(Some(result))
    {
      hide CanRun, Run, Initial;
      Send(result);
      Store(Stopped);
      var _ := Interleave(Busy);
      ghost var before := Now();
      mail := mail.(closed := true, queue := []);
      Follow(before, Task(Advance));
    }

    /** The result goes into the channel, unless nobody holds the other end. */
    method Send(result: Result)
      requires Valid() && pc == SendResult(result)
      modifies this
      ensures Valid() && old(trace) <= trace && pc == StoreStopped(result)
    {
      hide CanRun, Run, Initial;
      var _ := Interleave(Busy);
      ghost var before := Now();
      handle := handle.(slot := if handle.owned then Full(result) else Closed);
      Follow(before, Task(Advance));
    }

    /** What the others still do when the task is over. */
    method Afterwards()
      requires Valid() && (pc.Gone? || schedule == [])
      modifies this
      ensures Valid() && old(trace) <= trace && schedule == []
    {
      hide CanRun, Run, Initial;
      while schedule != []
        invariant Valid() && old(trace) <= trace && (pc.Gone? || schedule == [])
        decreases |schedule|
      {
        var _ := Interleave(Over);
        if schedule != [] {
          schedule := schedule[1..];
        }
      }
    }

    /** The whole life of the actor under any schedule. */
    method RunTask()
      requires Valid() && pc == CheckStopping
      modifies this
      ensures Valid() && old(trace) <= trace && schedule == [] && Reachable(Now())
      ensures Outcome(Now()) == Some(Ok) && !cx.cancel && hist.panics == [] ==>
        hist.log == LogAll(mail.accepted, Handled)
      ensures mail.accepted == ActorMailbox.Msgs(hist.log) + InFlight(pc) + mail.queue
      ensures forall k :: 0 <= k < |hist.past| ==> ActorHooks.Begun(hist.past[k]) || ActorHooks.Ended(hist.past[k])
      ensures pc.Gone? ==> cx.mask == start.cx.mask
    {
      hide CanRun, Run, Initial, LogAll, ActorMailbox.Msgs, ActorHooks.Begun, ActorHooks.Ended;
      var f, result := RunSupervisedLoop();
      if f.Done? {
        Finish(result);
      }
      Afterwards();
      assert Reaches(start, Now());
      ActorMailbox.EveryMessageAccounted(Now());
      if Outcome(Now()) == Some(Ok) && !cx.cancel && hist.panics == [] {
        ActorMailbox.NoSilentDrops(Now());
      }
      ActorHooks.HooksSymmetric(Now());
      ActorHooks.MaskBalanced(start, trace);
    }
  }
}
