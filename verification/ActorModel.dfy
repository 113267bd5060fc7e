/** The actor runtime as a state machine: one actor task, and senders, stoppers,
    aborters and a joiner that may move between any two of its atomic actions.

    The channels, the scheduler and the supervisor appear as contracts:
    a mailbox is a bounded queue that refuses everything once it is closed;
    `poll_recv` gives the head if there is one, else Disconnected if the mailbox is
    closed or has no senders, else it registers a waker and is pending, and under
    cancellation it may answer Cancelled instead and is never pending; a wake that
    arrives while the task is polled makes it be polled again; a region that cancels
    the task schedules it, which is one more wake; the supervisor grants at most a
    fixed number of restarts. */
module ActorModel {
  import opened Wrappers

  type Msg = int
  type Payload = int

  datatype ActorState = Created | Running | Stopping | Stopped

  /** `Ok` stands for the final actor. */
  datatype Result = Ok | Panicked(payload: Payload)

  datatype Reason = AbortRequested | RegionClosed

  /** What became of an accepted message. */
  datatype Fate =
    | Handled      // its handler returned
    | Crashed      // its handler panicked
    | Purged       // dropped by the drain of an aborted actor
    | Interrupted  // the task was dropped while its handler was suspended
    | Dropped      // still queued when the mailbox itself was dropped

  datatype Entry = Entry(msg: Msg, fate: Fate)

  /** The calls of hooks and handlers that one incarnation has made. */
  datatype Call = OnStart | HandleMsg(msg: Msg) | OnStop

  /** Where the actor task is. The names follow `run_actor_loop`, then
      `run_supervised_loop`, then the wrapper of the spawn functions. */
  datatype Pc =
    | CheckStopping                     // load of the state cell
    | StoreRunning
    | BeginOnStart
    | InOnStart
    | LoopTop                           // the cancellation check
    | PollRecv
    | LoadStopping                      // poll_recv was pending
    | Parked
    | InHandle(msg: Msg)
    | StoreStopping
    | SnapshotAborted
    | CloseMailbox(aborted: bool)
    | Drain(aborted: bool)
    | InDrain(msg: Msg)
    | RaiseMask
    | InOnStop
    | LowerMask(panic: Option<Payload>)
    | LoopReturned
    | Unwound(payload: Payload)         // caught by CatchUnwind
    | StoreCreated
    | Backoff
    | CallFactory
    | SendResult(result: Result)
    | StoreStopped(result: Result)
    | DropMailbox(result: Result)
    | Gone(outcome: Option<Result>)     // None: the task was dropped on the way

  /** The one-shot channel of the result. */
  datatype Slot = Empty | Full(result: Result) | Taken | Closed

  datatype JoinOutput = Joined(result: Result) | JoinCancelled(reason: Option<Reason>) | PolledAfterCompletion

  /** The bounded mailbox, and everything it has ever accepted. */
  datatype Mailbox = Mailbox(
    queue: seq<Msg>, reserved: nat, capacity: nat, closed: bool, senders: nat, accepted: seq<Msg>)

  /** The registered waker, the wake that the scheduler has not yet served, the
      wake_receiver calls that stop() and abort() still owe, and the abort() calls
      that have stored Stopping but not yet set the flags. */
  datatype Signals = Signals(waker: bool, notified: bool, wakesDue: nat, abortsDue: nat)

  datatype CxInner = CxInner(cancel: bool, reason: Option<Reason>, mask: nat)

  /** The handle: result channel, completion latch, live join future; and what the
      join futures have returned. */
  datatype Handle = Handle(slot: Slot, owned: bool, completed: bool, joining: bool, outputs: seq<JoinOutput>)

  /** What has happened: messages consumed, calls of this and of earlier incarnations,
      panics, and calls of the factory (the first actor counts as one). */
  datatype History = History(
    log: seq<Entry>, calls: seq<Call>, past: seq<seq<Call>>, panics: seq<Payload>, factoryCalls: nat)

  datatype State = State(
    cell: ActorState, mail: Mailbox, signals: Signals, cx: CxInner,
    pc: Pc, restartsLeft: nat, handle: Handle, hist: History)

  ghost predicate Initial(s: State) {
    && s.cell == Created && s.pc == CheckStopping
    && s.mail == Mailbox([], 0, s.mail.capacity, false, s.mail.senders, []) && s.mail.senders >= 1
    && s.signals == Signals(false, false, 0, 0)
    && s.cx == CxInner(false, None, s.cx.mask)
    && s.handle == Handle(Empty, true, false, false, [])
    && s.hist == History([], [], [], [], 1)
  }

  // ----- The mailbox -------------------------------------------------------------

  function Wake(w: Signals): Signals {
    if w.waker then w.(waker := false, notified := true) else w
  }

  predicate HasRoom(m: Mailbox) {
    |m.queue| + m.reserved < m.capacity
  }

  function Accept(s: State, m: Msg): State {
    s.(mail := s.mail.(queue := s.mail.queue + [m], accepted := s.mail.accepted + [m]), signals := Wake(s.signals))
  }

  function Take(m: Mailbox): Mailbox
    requires m.queue != []
  {
    m.(queue := m.queue[1..])
  }

  function Logged(h: History, m: Msg, fate: Fate): History {
    h.(log := h.log + [Entry(m, fate)])
  }

  function Called(h: History, c: Call): History {
    h.(calls := h.calls + [c])
  }

  function LogAll(msgs: seq<Msg>, fate: Fate): seq<Entry> {
    if msgs == [] then [] else [Entry(msgs[0], fate)] + LogAll(msgs[1..], fate)
  }

  // ----- The actor task ------------------------------------------------------------

  /** Suspended inside a hook, a handler or the backoff: the task is polled again
      without moving on, or dropped. */
  predicate InHook(pc: Pc) {
    pc.InOnStart? || pc.InHandle? || pc.InDrain? || pc.InOnStop? || pc.Backoff?
  }

  datatype TaskAction =
    | Advance                   // the only way on from here
    | Deliver                   // poll_recv gives the head
    | Disconnect                // poll_recv answers Disconnected
    | SeeCancel                 // poll_recv answers Cancelled
    | Pend                      // poll_recv registers the waker
    | Return                    // a hook or handler returns
    | Panic(payload: Payload)   // a hook or handler panics
    | Repoll                    // a suspended hook is polled again
    | Decide(restart: bool)     // the supervisor's decision

  predicate CanAdvance(s: State) {
    match s.pc
    case PollRecv | InOnStart | InHandle(_) | InDrain(_) | InOnStop | Unwound(_) | Gone(_) => false
    case Parked => s.signals.notified
    case _ => true
  }

  function DoAdvance(s: State): State
    requires CanAdvance(s)
  {
    match s.pc
    case CheckStopping => s.(pc := if s.cell != Stopping then StoreRunning else BeginOnStart)
    case StoreRunning => s.(cell := Running, pc := BeginOnStart)
    case BeginOnStart => s.(pc := InOnStart, hist := Called(s.hist, OnStart))
    case LoopTop => s.(pc := if s.cx.cancel then StoreStopping else PollRecv)
    case LoadStopping => s.(pc := if s.cell == Stopping then StoreStopping else Parked)
    case Parked => s.(pc := PollRecv, signals := s.signals.(notified := false))
    case StoreStopping => s.(cell := Stopping, pc := SnapshotAborted)
    case SnapshotAborted => s.(pc := CloseMailbox(s.cx.cancel))
    case CloseMailbox(aborted) => s.(mail := s.mail.(closed := true), pc := Drain(aborted))
    case Drain(aborted) =>
      if s.mail.queue == [] then s.(pc := RaiseMask)
      else
        var m := s.mail.queue[0];
        if aborted then s.(mail := Take(s.mail), hist := Logged(s.hist, m, Purged))
        else s.(mail := Take(s.mail), pc := InDrain(m), hist := Called(s.hist, HandleMsg(m)))
    case RaiseMask => s.(cx := s.cx.(mask := s.cx.mask + 1), pc := InOnStop, hist := Called(s.hist, OnStop))
    case LowerMask(panic) =>
      s.(cx := s.cx.(mask := if s.cx.mask == 0 then 0 else s.cx.mask - 1),
         pc := if panic.Some? then Unwound(panic.value) else LoopReturned)
    case LoopReturned => s.(pc := SendResult(Ok))
    case StoreCreated => s.(cell := Created, pc := Backoff)
    case Backoff => s.(pc := CallFactory)
    case CallFactory =>
      s.(hist := s.hist.(factoryCalls := s.hist.factoryCalls + 1, past := s.hist.past + [s.hist.calls], calls := []),
         pc := CheckStopping)
    case SendResult(result) =>
      s.(handle := s.handle.(slot := if s.handle.owned then Full(result) else Closed), pc := StoreStopped(result))
    case StoreStopped(result) => s.(cell := Stopped, pc := DropMailbox(result))
    case DropMailbox(result) =>
      s.(mail := s.mail.(closed := true, queue := []),
         hist := s.hist.(log := s.hist.log + LogAll(s.mail.queue, Dropped)), pc := Gone(Some(result)))
    case _ => s
  }

  predicate TaskEnabled(s: State, a: TaskAction) {
    match a
    case Advance => CanAdvance(s)
    case Deliver => s.pc == PollRecv && s.mail.queue != []
    case Disconnect => s.pc == PollRecv && s.mail.queue == [] && (s.mail.closed || s.mail.senders == 0)
    case SeeCancel => s.pc == PollRecv && s.cx.cancel
    case Pend => s.pc == PollRecv && s.mail.queue == [] && !s.mail.closed && s.mail.senders > 0 && !s.cx.cancel
    case Return => InHook(s.pc) && s.pc != Backoff
    case Panic(_) => InHook(s.pc) && s.pc != Backoff
    case Repoll => InHook(s.pc)
    case Decide(restart) => s.pc.Unwound? && (restart ==> s.restartsLeft > 0)
  }

  function DoTask(s: State, a: TaskAction): State
    requires TaskEnabled(s, a)
  {
    match a
    case Advance => DoAdvance(s)
    case Deliver =>
      var m := s.mail.queue[0];
      s.(mail := Take(s.mail), pc := InHandle(m), hist := Called(s.hist, HandleMsg(m)))
    case Disconnect => s.(pc := StoreStopping)
    case SeeCancel => s.(pc := StoreStopping)
    case Pend => s.(signals := s.signals.(waker := true), pc := LoadStopping)
    case Return => DoReturn(s)
    case Panic(p) => DoPanic(s, p)
    case Repoll => s.(signals := s.signals.(notified := false))
    case Decide(restart) =>
      if restart then s.(restartsLeft := s.restartsLeft - 1, pc := StoreCreated)
      else s.(pc := SendResult(Panicked(s.pc.payload)))
  }

  function DoReturn(s: State): State
    requires InHook(s.pc) && s.pc != Backoff
  {
    match s.pc
    case InOnStart => s.(pc := LoopTop)
    case InHandle(m) => s.(pc := LoopTop, hist := Logged(s.hist, m, Handled))
    case InDrain(m) => s.(pc := Drain(false), hist := Logged(s.hist, m, Handled))
    case InOnStop => s.(pc := LowerMask(None))
  }

  function DoPanic(s: State, p: Payload): State
    requires InHook(s.pc) && s.pc != Backoff
  {
    var hist := s.hist.(panics := s.hist.panics + [p]);
    match s.pc
    case InOnStart => s.(pc := Unwound(p), hist := hist)
    case InHandle(m) => s.(pc := Unwound(p), hist := Logged(hist, m, Crashed))
    case InDrain(m) => s.(pc := Unwound(p), hist := Logged(hist, m, Crashed))
    case InOnStop => s.(pc := LowerMask(Some(p)), hist := hist)
  }

  // ----- Everybody else --------------------------------------------------------------

  datatype EnvAction =
    | TrySend(msg: Msg)
    | Reserve
    | Commit(msg: Msg)
    | Abandon
    | CloneSender
    | DropSender
    | StopStore                 // first half of stop()
    | AbortStore                // first third of abort()
    | AbortFlags(alive: bool)   // second third; the context may be gone with the task
    | WakeReceiver              // last part of stop() and of abort()
    | RegionCancel
    | Join
    | PollJoin
    | DropJoin
    | DropHandle
    | DropTask                  // the runtime drops the suspended task

  predicate EnvEnabled(s: State, a: EnvAction) {
    match a
    case TrySend(_) => s.mail.senders > 0
    case Reserve => s.mail.senders > 0 && !s.mail.closed && HasRoom(s.mail)
    case Commit(_) => s.mail.reserved > 0
    case Abandon => s.mail.reserved > 0
    case CloneSender => s.mail.senders > 0
    case DropSender => s.mail.senders > 1 || (s.mail.senders == 1 && s.mail.reserved == 0)
    case StopStore => true
    case AbortStore => true
    case AbortFlags(alive) => s.signals.abortsDue > 0 && (alive || s.pc.Gone?)
    case WakeReceiver => s.signals.wakesDue > 0
    case RegionCancel => true
    case Join => s.handle.owned && !s.handle.joining
    case PollJoin => s.handle.joining
    case DropJoin => s.handle.joining
    case DropHandle => s.handle.owned && !s.handle.joining
    case DropTask => Suspended(s)
  }

  /** The task waits at an await, or was never polled: where it can be dropped. */
  predicate Suspended(s: State) {
    InHook(s.pc) || s.pc.Parked? || (s.pc.CheckStopping? && s.hist.factoryCalls == 1)
  }

  function DoEnv(s: State, a: EnvAction): State
    requires EnvEnabled(s, a)
  {
    match a
    case TrySend(m) => if s.mail.closed || !HasRoom(s.mail) then s else Accept(s, m)
    case Reserve => s.(mail := s.mail.(reserved := s.mail.reserved + 1))
    case Commit(m) =>
      var s := s.(mail := s.mail.(reserved := s.mail.reserved - 1));
      if s.mail.closed then s else Accept(s, m)
    case Abandon => s.(mail := s.mail.(reserved := s.mail.reserved - 1))
    case CloneSender => s.(mail := s.mail.(senders := s.mail.senders + 1))
    case DropSender =>
      var last := s.mail.senders == 1;
      s.(mail := s.mail.(senders := s.mail.senders - 1), signals := if last then Wake(s.signals) else s.signals)
    case StopStore => s.(cell := Stopping, signals := s.signals.(wakesDue := s.signals.wakesDue + 1))
    case AbortStore => DoAbortStore(s)
    case AbortFlags(alive) =>
      var w := s.signals;
      s.(signals := w.(abortsDue := w.abortsDue - 1, wakesDue := w.wakesDue + 1),
         cx := if alive then RequestCancel(s.cx, AbortRequested) else s.cx)
    case WakeReceiver => s.(signals := Wake(s.signals.(wakesDue := s.signals.wakesDue - 1)))
    case RegionCancel => s.(cx := RequestCancel(s.cx, RegionClosed), signals := s.signals.(notified := true))
    case Join => s.(handle := s.handle.(joining := true))
    case PollJoin => s.(handle := DoPollJoin(s.handle, s.cx.reason))
    case DropJoin =>
      var after := s.(handle := s.handle.(joining := false));
      if !s.handle.completed && !ReceiverFinished(s.handle) then DoAbortStore(after) else after
    case DropHandle => s.(handle := s.handle.(owned := false, slot := Closed))
    case DropTask => DoDropTask(s)
  }

  function DoAbortStore(s: State): State {
    s.(cell := Stopping, signals := s.signals.(abortsDue := s.signals.abortsDue + 1))
  }

  function RequestCancel(cx: CxInner, reason: Reason): CxInner {
    cx.(cancel := true, reason := if cx.reason.None? then Some(reason) else cx.reason)
  }

  /** A result is available, or none will ever come. */
  predicate ReceiverFinished(h: Handle) {
    h.slot != Empty
  }

  function DoPollJoin(h: Handle, reason: Option<Reason>): Handle {
    if h.completed then h.(outputs := h.outputs + [PolledAfterCompletion])
    else
      match h.slot
      case Full(result) => h.(slot := Taken, completed := true, outputs := h.outputs + [Joined(result)])
      case Empty => h
      case _ => h.(completed := true, outputs := h.outputs + [JoinCancelled(reason)])
  }

  function InFlight(pc: Pc): seq<Msg> {
    if pc.InHandle? || pc.InDrain? then [pc.msg] else []
  }

  function DoDropTask(s: State): State {
    s.(mail := s.mail.(closed := true, queue := []), pc := Gone(None),
       hist := s.hist.(log := s.hist.log + LogAll(InFlight(s.pc), Interrupted) + LogAll(s.mail.queue, Dropped)),
       cx := s.cx.(mask := if s.pc.InOnStop? && s.cx.mask > 0 then s.cx.mask - 1 else s.cx.mask),
       handle := s.handle.(slot := if s.handle.slot == Empty then Closed else s.handle.slot))
  }

  // ----- Runs ------------------------------------------------------------------------

  datatype Step = Task(task: TaskAction) | Env(env: EnvAction)

  predicate Enabled(s: State, e: Step) {
    match e
    case Task(a) => TaskEnabled(s, a)
    case Env(a) => EnvEnabled(s, a)
  }

  function Do(s: State, e: Step): State
    requires Enabled(s, e)
  {
    match e
    case Task(a) => DoTask(s, a)
    case Env(a) => DoEnv(s, a)
  }

  predicate CanRun(s: State, steps: seq<Step>)
    decreases |steps|
  {
    steps == [] || (Enabled(s, steps[0]) && CanRun(Do(s, steps[0]), steps[1..]))
  }

  function Run(s: State, steps: seq<Step>): State
    requires CanRun(s, steps)
    decreases |steps|
  {
    if steps == [] then s else Run(Do(s, steps[0]), steps[1..])
  }

  ghost predicate Reaches(s: State, t: State) {
    exists steps :: CanRun(s, steps) && Run(s, steps) == t
  }

  /** States that some interleaving reaches from a fresh actor. */
  ghost predicate Reachable(s: State) {
    exists init :: Initial(init) && Reaches(init, s)
  }

  /** The result the task has arrived at. */
  function Outcome(s: State): Option<Result> {
    match s.pc
    case SendResult(r) => Some(r)
    case StoreStopped(r) => Some(r)
    case DropMailbox(r) => Some(r)
    case Gone(r) => r
    case _ => None
  }

  /** Longer runs in pieces. */
  lemma {:induction false} RunConcat(s: State, first: seq<Step>, rest: seq<Step>)
    requires CanRun(s, first)
    ensures CanRun(s, first + rest) <==> CanRun(Run(s, first), rest)
    ensures CanRun(s, first + rest) ==> Run(s, first + rest) == Run(Run(s, first), rest)
    decreases |first|
  {
    hide Do, Enabled;
    if first == [] {
      assert first + rest == rest;
    } else {
      assert (first + rest)[1..] == first[1..] + rest;
      RunConcat(Do(s, first[0]), first[1..], rest);
    }
  }

  lemma ReachesSelf(s: State)
    ensures Reaches(s, s)
  {
    assert CanRun(s, []) && Run(s, []) == s;
  }

  /** Extends a run by one step. */
  lemma ThenStep(s: State, t: State, e: Step) returns (u: State)
    requires Reaches(s, t) && Enabled(t, e)
    ensures u == Do(t, e) && Reaches(s, u)
  {
    hide Do, Enabled;
    var steps :| CanRun(s, steps) && Run(s, steps) == t;
    assert [e][1..] == [];
    RunConcat(s, steps, [e]);
    u := Run(s, steps + [e]);
  }
}
