/** The calls of hooks and handlers, and the cancellation mask around `on_stop`. */
module ActorHooks {
  import opened ActorModel
  import opened Wrappers

  predicate AllHandle(calls: seq<Call>) {
    forall i :: 0 <= i < |calls| ==> calls[i].HandleMsg?
  }

  /** `on_start`, then handlers. */
  predicate Begun(calls: seq<Call>) {
    calls != [] && calls[0] == OnStart && AllHandle(calls[1..])
  }

  /** `on_start`, then handlers, then `on_stop`. */
  predicate Ended(calls: seq<Call>) {
    |calls| >= 2 && Begun(calls[..|calls| - 1]) && calls[|calls| - 1] == OnStop
  }

  /** Where the calls of the current incarnation must stand. */
  ghost predicate CallsFit(pc: Pc, calls: seq<Call>) {
    match pc
    case CheckStopping | StoreRunning | BeginOnStart => calls == []
    case InOnStart => calls == [OnStart]
    case InHandle(m) => Begun(calls) && calls[|calls| - 1] == HandleMsg(m)
    case InDrain(m) => Begun(calls) && calls[|calls| - 1] == HandleMsg(m)
    case InOnStop | LowerMask(_) | LoopReturned => Ended(calls)
    case SendResult(r) => if r == Ok then Ended(calls) else Begun(calls) || Ended(calls)
    case StoreStopped(r) => if r == Ok then Ended(calls) else Begun(calls) || Ended(calls)
    case DropMailbox(r) => if r == Ok then Ended(calls) else Begun(calls) || Ended(calls)
    case Gone(r) => if r == Some(Ok) then Ended(calls) else (r == None && calls == []) || Begun(calls) || Ended(calls)
    case Unwound(_) | StoreCreated | Backoff | CallFactory => Begun(calls) || Ended(calls)
    case _ => Begun(calls)
  }

  predicate StopCalled(h: History) {
    OnStop in h.calls || exists k :: 0 <= k < |h.past| && OnStop in h.past[k]
  }

  ghost predicate HooksInv(s: State) {
    && CallsFit(s.pc, s.hist.calls)
    && (forall k :: 0 <= k < |s.hist.past| ==> Begun(s.hist.past[k]) || Ended(s.hist.past[k]))
    && (s.pc.Drain? || s.pc.InDrain? ==> s.mail.closed)
    && (s.pc.RaiseMask? ==> s.mail.closed && s.mail.queue == [])
    && (StopCalled(s.hist) ==> s.mail.closed && s.mail.queue == [])
  }

  lemma OneMoreHandler(calls: seq<Call>, m: Msg)
    requires Begun(calls)
    ensures Begun(calls + [HandleMsg(m)])
    ensures OnStop in calls + [HandleMsg(m)] <==> OnStop in calls
  {
    assert (calls + [HandleMsg(m)])[1..] == calls[1..] + [HandleMsg(m)];
  }

  lemma StopLast(calls: seq<Call>)
    requires Begun(calls)
    ensures Ended(calls + [OnStop]) && OnStop !in calls
  {
    assert (calls + [OnStop])[..|calls|] == calls;
    assert forall i :: 0 < i < |calls| ==> calls[i] == calls[1..][i - 1];
  }

  lemma EndedStops(calls: seq<Call>)
    requires Ended(calls)
    ensures OnStop in calls
  {
    assert calls[|calls| - 1] == OnStop;
  }

  lemma HooksAdvance(s: State)
    requires HooksInv(s) && CanAdvance(s)
    ensures HooksInv(DoAdvance(s))
  {
    hide Begun, Ended;
    match s.pc {
      case BeginOnStart =>
        assert s.hist.calls + [OnStart] == [OnStart];
      case Drain(aborted) =>
        if s.mail.queue != [] { OneMoreHandler(s.hist.calls, s.mail.queue[0]); }
      case RaiseMask => StopLast(s.hist.calls);
      case CallFactory => PastGrows(s);
      case _ =>
    }
  }

  lemma PastGrows(s: State)
    requires HooksInv(s) && s.pc.CallFactory?
    ensures HooksInv(DoAdvance(s))
  {
    var past := s.hist.past + [s.hist.calls];
    if StopCalled(DoAdvance(s).hist) {
      var k :| 0 <= k < |past| && OnStop in past[k];
      assert k < |s.hist.past| ==> past[k] == s.hist.past[k];
    }
  }

  lemma HooksTaskStep(s: State, a: TaskAction)
    requires HooksInv(s) && TaskEnabled(s, a)
    ensures HooksInv(DoTask(s, a))
  {
    hide DoAdvance, DoReturn, DoPanic, Begun, Ended;
    match a {
      case Advance => HooksAdvance(s);
      case Deliver => OneMoreHandler(s.hist.calls, s.mail.queue[0]);
      case Return => HooksReturn(s);
      case Panic(p) => HooksPanic(s, p);
      case _ =>
    }
  }

  lemma HooksReturn(s: State)
    requires HooksInv(s) && InHook(s.pc) && s.pc != Backoff
    ensures HooksInv(DoReturn(s))
  {
    assert [OnStart][1..] == [];
  }

  lemma HooksPanic(s: State, p: Payload)
    requires HooksInv(s) && InHook(s.pc) && s.pc != Backoff
    ensures HooksInv(DoPanic(s, p))
  {
    assert [OnStart][1..] == [];
  }

  lemma HooksEnvStep(s: State, a: EnvAction)
    requires HooksInv(s) && EnvEnabled(s, a)
    ensures HooksInv(DoEnv(s, a))
  {
    hide StopCalled;
    if a.DropTask? {
      assert [OnStart][1..] == [];
    }
  }

  lemma {:induction false} HooksRun(s: State, steps: seq<Step>)
    requires HooksInv(s) && CanRun(s, steps)
    ensures HooksInv(Run(s, steps))
    decreases |steps|
  {
    hide DoTask, DoEnv, TaskEnabled, EnvEnabled, HooksInv;
    if steps != [] {
      match steps[0] {
        case Task(a) => HooksTaskStep(s, a);
        case Env(a) => HooksEnvStep(s, a);
      }
      HooksRun(Do(s, steps[0]), steps[1..]);
    }
  }

  lemma HooksReachable(s: State)
    requires Reachable(s)
    ensures HooksInv(s)
  {
    var init :| Initial(init) && Reaches(init, s);
    var steps :| CanRun(init, steps) && Run(init, steps) == s;
    HooksRun(init, steps);
  }

  /** Every incarnation calls `on_start`, handlers one after the other, and then
      `on_stop`, or a prefix of that; the last one completes the sequence when the
      result is Ok. */
  lemma HooksSymmetric(s: State)
    requires Reachable(s)
    ensures forall k :: 0 <= k < |s.hist.past| ==> Begun(s.hist.past[k]) || Ended(s.hist.past[k])
    ensures s.hist.calls == [] || Begun(s.hist.calls) || Ended(s.hist.calls)
    ensures Outcome(s) == Some(Ok) ==> Ended(s.hist.calls)
  {
    HooksReachable(s);
    assert [OnStart][1..] == [];
  }

  /** `on_stop` runs only when no message can come any more. */
  lemma StopHookSeesEmptyMailbox(s: State)
    requires Reachable(s) && s.pc == InOnStop
    ensures s.mail.closed && s.mail.queue == []
  {
    HooksReachable(s);
    EndedStops(s.hist.calls);
  }

  // ----- The mask -------------------------------------------------------------------

  /** How far `on_stop` has raised the mask. */
  function Raised(pc: Pc): nat {
    if pc.InOnStop? || pc.LowerMask? then 1 else 0
  }

  lemma MaskStep(s: State, e: Step)
    requires Enabled(s, e) && s.cx.mask >= Raised(s.pc)
    ensures Do(s, e).cx.mask - Raised(Do(s, e).pc) == s.cx.mask - Raised(s.pc)
  {
  }

  lemma {:induction false} MaskRun(s: State, steps: seq<Step>)
    requires CanRun(s, steps) && s.cx.mask >= Raised(s.pc)
    ensures Run(s, steps).cx.mask - Raised(Run(s, steps).pc) == s.cx.mask - Raised(s.pc)
    decreases |steps|
  {
    hide Do, Enabled;
    if steps != [] {
      MaskStep(s, steps[0]);
      MaskRun(Do(s, steps[0]), steps[1..]);
    }
  }

  /** In every run from a fresh actor the mask is one above its entry level exactly
      while `on_stop` or the unwinding out of it is running, and back at that level
      everywhere else, whatever panicked or was restarted or dropped. */
  lemma MaskBalanced(init: State, steps: seq<Step>)
    requires Initial(init) && CanRun(init, steps)
    ensures var s := Run(init, steps);
      s.cx.mask == init.cx.mask + (if s.pc.InOnStop? || s.pc.LowerMask? then 1 else 0)
  {
    MaskRun(init, steps);
  }
}
