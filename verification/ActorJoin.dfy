/** The result channel, the join futures and the state cell at the end of a run. */
module ActorJoin {
  import opened ActorModel
  import opened Wrappers

  /** The task has sent its result, or will never send one. */
  predicate ResultSettled(pc: Pc) {
    pc.StoreStopped? || pc.DropMailbox? || pc.Gone?
  }

  /** The first output of a completed join, then only refusals. */
  ghost predicate OutputsFit(h: Handle) {
    && (h.completed <==> h.outputs != [])
    && (h.outputs != [] ==> h.outputs[0] != PolledAfterCompletion)
    && (forall i :: 0 < i < |h.outputs| ==> h.outputs[i] == PolledAfterCompletion)
  }

  ghost predicate JoinInv(s: State) {
    && OutputsFit(s.handle)
    && (s.cell == Stopped ==> s.pc.DropMailbox? || s.pc.Gone?)
    && (ResultSettled(s.pc) ==> s.handle.slot != Empty)
    && (s.handle.owned && !ResultSettled(s.pc) ==> s.handle.slot == Empty)
    && (s.handle.joining ==> s.handle.owned)
    && (!s.handle.owned ==> s.handle.slot == Closed)
    && (s.handle.slot.Full? ==> Outcome(s) == Some(s.handle.slot.result) && !s.handle.completed)
    && (s.handle.slot == Taken ==> s.handle.completed)
    && (s.handle.outputs != [] && s.handle.outputs[0].Joined? ==> Outcome(s) == Some(s.handle.outputs[0].result))
    && (s.handle.completed ==> ResultSettled(s.pc))
    && (s.handle.owned && s.handle.slot == Closed ==> s.pc == Gone(None))
  }

  lemma JoinTaskStep(s: State, a: TaskAction)
    requires JoinInv(s) && TaskEnabled(s, a)
    ensures JoinInv(DoTask(s, a))
  {
  }

  lemma JoinEnvStep(s: State, a: EnvAction)
    requires JoinInv(s) && EnvEnabled(s, a)
    ensures JoinInv(DoEnv(s, a))
  {
  }

  lemma {:induction false} JoinRun(s: State, steps: seq<Step>)
    requires JoinInv(s) && CanRun(s, steps)
    ensures JoinInv(Run(s, steps))
    decreases |steps|
  {
    hide DoTask, DoEnv, TaskEnabled, EnvEnabled, JoinInv;
    if steps != [] {
      match steps[0] {
        case Task(a) => JoinTaskStep(s, a);
        case Env(a) => JoinEnvStep(s, a);
      }
      JoinRun(Do(s, steps[0]), steps[1..]);
    }
  }

  lemma JoinReachable(s: State)
    requires Reachable(s)
    ensures JoinInv(s)
  {
    var init :| Initial(init) && Reaches(init, s);
    var steps :| CanRun(init, steps) && Run(init, steps) == s;
    JoinRun(init, steps);
  }

  /** Stopped is stored only after the result was sent or its channel closed. */
  lemma StoppedMeansSettled(s: State)
    requires Reachable(s) && s.cell == Stopped
    ensures s.handle.slot != Empty && (s.pc.DropMailbox? || s.pc.Gone?)
  {
    JoinReachable(s);
  }

  /** The final actor comes out of at most one join, the first that completes, with the
      task's own result; every later poll is refused. */
  lemma JoinedOnce(s: State)
    requires Reachable(s)
    ensures forall i, r :: 0 <= i < |s.handle.outputs| && s.handle.outputs[i] == Joined(r) ==>
      i == 0 && Outcome(s) == Some(r)
    ensures forall i :: 0 < i < |s.handle.outputs| ==> s.handle.outputs[i] == PolledAfterCompletion
  {
    JoinReachable(s);
  }

  /** `is_finished` */
  predicate IsFinished(h: Handle) {
    h.completed || h.slot.Full? || h.slot == Closed
  }

  /** For its owner the handle is finished exactly when the task has sent its result or
      is gone. */
  lemma FinishedMeansSettled(s: State)
    requires Reachable(s) && s.handle.owned
    ensures IsFinished(s.handle) <==> ResultSettled(s.pc)
  {
    JoinReachable(s);
  }

  /** Dropping a join future starts an abort exactly when the task has not yet sent its
      result and is not gone; in particular never after a join has completed. */
  lemma DroppedJoinAborts(s: State)
    requires Reachable(s) && EnvEnabled(s, DropJoin)
    ensures DoEnv(s, DropJoin).signals.abortsDue == s.signals.abortsDue + 1 <==> !ResultSettled(s.pc)
    ensures s.handle.outputs != [] ==> ResultSettled(s.pc)
  {
    JoinReachable(s);
  }

  /** The aborts that a run starts: by abort(), or by dropping an unsettled join. */
  function AbortsStarted(s: State, steps: seq<Step>): nat
    requires CanRun(s, steps)
    decreases |steps|
  {
    if steps == [] then 0
    else (if StartsAbort(s, steps[0]) then 1 else 0) + AbortsStarted(Do(s, steps[0]), steps[1..])
  }

  predicate StartsAbort(s: State, e: Step) {
    e == Env(AbortStore) || (e == Env(DropJoin) && !s.handle.completed && s.handle.slot == Empty)
  }

  function AbortsFlagged(steps: seq<Step>): nat {
    if steps == [] then 0
    else (if steps[0].Env? && steps[0].env.AbortFlags? then 1 else 0) + AbortsFlagged(steps[1..])
  }

  lemma AbortStep(s: State, e: Step)
    requires Enabled(s, e)
    ensures Do(s, e).signals.abortsDue
         == s.signals.abortsDue + (if StartsAbort(s, e) then 1 else 0) - (if e.Env? && e.env.AbortFlags? then 1 else 0)
  {
  }

  /** Every abort that is started owes exactly one request for cancellation. */
  lemma {:induction false} AbortsBalance(s: State, steps: seq<Step>)
    requires CanRun(s, steps)
    ensures Run(s, steps).signals.abortsDue == s.signals.abortsDue + AbortsStarted(s, steps) - AbortsFlagged(steps)
    decreases |steps|
  {
    hide Do, Enabled, StartsAbort;
    if steps != [] {
      AbortStep(s, steps[0]);
      AbortsBalance(Do(s, steps[0]), steps[1..]);
    }
  }

  /** A join that reports a cancellation means that the task was dropped. */
  lemma JoinCancelledMeansDropped(s: State)
    requires Reachable(s) && EnvEnabled(s, PollJoin) && !s.handle.completed
    ensures var s' := DoEnv(s, PollJoin);
      |s'.handle.outputs| > 0 && s'.handle.outputs[0].JoinCancelled? <==> s.pc == Gone(None)
  {
    JoinReachable(s);
  }

  /** Who has the handle and whether a join future lives is decided by the owner alone. */
  lemma HandleMoves(s: State, e: Step)
    requires Enabled(s, e)
    ensures Do(s, e).handle.joining <==> e == Env(Join) || (s.handle.joining && e != Env(DropJoin))
    ensures Do(s, e).handle.owned <==> s.handle.owned && e != Env(DropHandle)
  {
  }

  /** Nobody can take a result once the handle is dropped: the channel is closed, and
      stays closed when the task sends. */
  lemma DroppedHandleTakesNothing(s: State)
    requires Reachable(s) && !s.handle.owned
    ensures s.handle.slot == Closed && !EnvEnabled(s, Join) && !EnvEnabled(s, PollJoin)
  {
    JoinReachable(s);
  }

  /** What the next poll of a join gives: nothing while no result is settled; then the
      task's own result, or, of a task that was dropped, the reason of its cancellation;
      and after that refusals. */
  lemma PollJoinExactly(s: State)
    requires Reachable(s) && EnvEnabled(s, PollJoin)
    ensures var h := DoEnv(s, PollJoin).handle;
      && (s.handle.completed ==> h.outputs == s.handle.outputs + [PolledAfterCompletion])
      && (!s.handle.completed && !ResultSettled(s.pc) ==> h == s.handle)
      && (!s.handle.completed && ResultSettled(s.pc) ==>
            h.completed
            && h.outputs == [if Outcome(s).Some? then Joined(Outcome(s).value) else JoinCancelled(s.cx.reason)])
  {
    hide Reachable;
    JoinReachable(s);
  }

  /** From Stopped the cell is taken away by a late stop() or abort() and by nothing
      else: a join dropped that late does not abort any more. */
  lemma StoppedLeftOnlyByStop(s: State, e: Step)
    requires Reachable(s) && s.cell == Stopped && Enabled(s, e)
    ensures Do(s, e).cell != Stopped <==> e == Env(StopStore) || e == Env(AbortStore)
  {
    hide Reachable;
    JoinReachable(s);
  }

  /** An actor that is started, told to stop, and has nothing to do. */
  lemma StopsIdle(init: State) returns (s: State)
    requires Initial(init)
    ensures Reaches(init, s) && s.pc == StoreStopping && s.mail.queue == [] && s.handle.owned && !s.cx.cancel
  {
    hide Reaches;
    ReachesSelf(init);
    s := ThenStep(init, init, Task(Advance));
    s := ThenStep(init, s, Task(Advance));
    s := ThenStep(init, s, Task(Advance));
    s := ThenStep(init, s, Env(StopStore));
    s := ThenStep(init, s, Env(WakeReceiver));
    s := ThenStep(init, s, Task(Return));
    s := ThenStep(init, s, Task(Advance));
    s := ThenStep(init, s, Task(Pend));
    s := ThenStep(init, s, Task(Advance));
  }

  /** It drains its empty mailbox and calls `on_stop`. */
  lemma CleansUp(init: State, from: State) returns (s: State)
    requires Reaches(init, from) && from.pc == StoreStopping && from.mail.queue == [] && from.handle.owned
    requires !from.cx.cancel
    ensures Reaches(init, s) && s.pc == LowerMask(None) && s.handle == from.handle
  {
    hide Reaches;
    s := ThenStep(init, from, Task(Advance));
    s := ThenStep(init, s, Task(Advance));
    s := ThenStep(init, s, Task(Advance));
    s := ThenStep(init, s, Task(Advance));
    s := ThenStep(init, s, Task(Advance));
    s := ThenStep(init, s, Task(Return));
  }

  /** It sends its result and is done. */
  lemma EndsWell(init: State, from: State) returns (s: State)
    requires Reaches(init, from) && from.pc == LowerMask(None) && from.handle.owned
    ensures Reaches(init, s) && s.pc == Gone(Some(Ok)) && s.cell == Stopped && s.handle.slot == Full(Ok)
  {
    hide Reaches;
    s := ThenStep(init, from, Task(Advance));
    s := ThenStep(init, s, Task(Advance));
    s := ThenStep(init, s, Task(Advance));
    s := ThenStep(init, s, Task(Advance));
    s := ThenStep(init, s, Task(Advance));
  }

  /** Stopped is not the last word: a run in which an actor ends well with the cell at
      Stopped, and a late stop() takes the cell back to Stopping for ever; the result
      that waits for its join is untouched. */
  lemma StoppedNotAbsorbing(init: State) returns (stopped: State, after: State)
    requires Initial(init)
    ensures Reachable(stopped) && stopped.pc == Gone(Some(Ok)) && stopped.cell == Stopped
    ensures after == Do(stopped, Env(StopStore)) && Reachable(after) && after.cell == Stopping
    ensures after.handle == stopped.handle && after.handle.slot == Full(Ok) && Outcome(after) == Some(Ok)
    ensures forall a :: TaskEnabled(after, a) ==> DoTask(after, a) == after
  {
    hide Reaches;
    var s := StopsIdle(init);
    s := CleansUp(init, s);
    stopped := EndsWell(init, s);
    after := ThenStep(init, stopped, Env(StopStore));
    assert Reachable(stopped) && Reachable(after);
  }
}
