/** internal/event/dispatch_service.go: one subscription, with its bounded channel, its
    worker, and any number of concurrent calls of Publish and Stop under the lock `mu`. */
module Subscriptions {
  import opened Wrappers

  type Event = nat
  const CAPACITY: nat := 1024

  /** Where a call stands. `Publish` takes the read lock, checks the flag, sends and
      returns; `Stop` takes the write lock, checks and sets the flag, closes the channel,
      waits for the worker and returns. Returning releases the lock. As with Go's `RWMutex`,
      one writer at a time asks for the lock, and no reader gets it while a writer asks. */
  datatype Pc =
    | Publishing(event: Event)
    | PublishLocked(event: Event)
    | PublishChecked(event: Event)
    | PublishReturned(accepted: bool)
    | Stopping
    | StopPending
    | StopLocked
    | StopFlagged
    | StopWaiting
    | StopReturned

  /** `accepted` and `handled` are history variables: the events sent on the channel, and
      those whose handler has finished. `panicked` records a send on, or a close of, a
      closed channel. */
  datatype State = State(calls: map<nat, Pc>, readers: set<nat>, pending: Option<nat>, writer: Option<nat>,
                         closed: bool, queue: seq<Event>, channelClosed: bool, panicked: bool,
                         inHand: Option<Event>, workerDone: bool, accepted: seq<Event>, handled: seq<Event>)

  const Init := State(map[], {}, None, None, false, [], false, false, None, false, [], [])

  datatype Step =
    | CallPublish(t: nat, event: Event)
    | CallStop(t: nat)
    | RLock(t: nat)
    | CheckPublish(t: nat)
    | Send(t: nat)
    | AskLock(t: nat)
    | Lock(t: nat)
    | CheckStop(t: nat)
    | CloseChannel(t: nat)
    | FinishStop(t: nat)
    | Take
    | Handle
    | WorkerExit

  predicate Idle(s: State, t: nat) {
    t !in s.calls || s.calls[t].PublishReturned? || s.calls[t].StopReturned?
  }

  predicate Enabled(s: State, step: Step) {
    match step
    case CallPublish(t, _) => Idle(s, t)
    case CallStop(t) => Idle(s, t)
    case RLock(t) => t in s.calls && s.calls[t].Publishing? && s.writer == None && s.pending == None
    case CheckPublish(t) => t in s.calls && s.calls[t].PublishLocked?
    case Send(t) => t in s.calls && s.calls[t].PublishChecked? && |s.queue| < CAPACITY
    case AskLock(t) => t in s.calls && s.calls[t].Stopping? && s.writer == None && s.pending == None
    case Lock(t) => t in s.calls && s.calls[t].StopPending? && s.writer == None && s.readers == {}
    case CheckStop(t) => t in s.calls && s.calls[t].StopLocked?
    case CloseChannel(t) => t in s.calls && s.calls[t].StopFlagged?
    case FinishStop(t) => t in s.calls && s.calls[t].StopWaiting? && s.workerDone
    case Take => s.inHand == None && s.queue != [] && !s.workerDone
    case Handle => s.inHand.Some?
    case WorkerExit => s.inHand == None && s.queue == [] && s.channelClosed && !s.workerDone
  }

  function Move(s: State, t: nat, pc: Pc): State {
    s.(calls := s.calls[t := pc])
  }

  function Apply(s: State, step: Step): State
    requires Enabled(s, step)
  {
    match step
    case CallPublish(t, e) => Move(s, t, Publishing(e))
    case CallStop(t) => Move(s, t, Stopping)
    case RLock(t) => Move(s, t, PublishLocked(s.calls[t].event)).(readers := s.readers + {t})
    case CheckPublish(t) =>
      if s.closed then Move(s, t, PublishReturned(false)).(readers := s.readers - {t})
      else Move(s, t, PublishChecked(s.calls[t].event))
    case Send(t) =>
      var e := s.calls[t].event;
      if s.channelClosed then s.(panicked := true)
      else Move(s, t, PublishReturned(true)).(readers := s.readers - {t}, queue := s.queue + [e],
          accepted := s.accepted + [e])
    case AskLock(t) => Move(s, t, StopPending).(pending := Some(t))
    case Lock(t) => Move(s, t, StopLocked).(writer := Some(t), pending := None)
    case CheckStop(t) =>
      if s.closed then Move(s, t, StopReturned).(writer := None)
      else Move(s, t, StopFlagged).(closed := true)
    case CloseChannel(t) =>
      if s.channelClosed then s.(panicked := true)
      else Move(s, t, StopWaiting).(channelClosed := true)
    case FinishStop(t) => Move(s, t, StopReturned).(writer := None)
    case Take => s.(inHand := Some(s.queue[0]), queue := s.queue[1..])
    case Handle => s.(inHand := None, handled := s.handled + [s.inHand.value])
    case WorkerExit => s.(workerDone := true)
  }

  ghost predicate IsRun(steps: seq<Step>, states: seq<State>) {
    && |states| == |steps| + 1
    && states[0] == Init
    && forall i :: 0 <= i < |steps| ==> Enabled(states[i], steps[i]) && states[i + 1] == Apply(states[i], steps[i])
  }

  // ---- the invariant ----

  predicate HasReadLock(pc: Pc) {
    pc.PublishLocked? || pc.PublishChecked?
  }

  predicate HasWriteLock(pc: Pc) {
    pc.StopLocked? || pc.StopFlagged? || pc.StopWaiting?
  }

  function InHand(s: State): seq<Event> {
    if s.inHand.Some? then [s.inHand.value] else []
  }

  /** Who holds which lock; a writer excludes all readers. */
  ghost predicate ReadLockInv(s: State) {
    && (forall t :: t in s.readers ==> t in s.calls)
    && (forall t :: t in s.calls ==> (t in s.readers <==> HasReadLock(s.calls[t])))
    && (s.writer.Some? ==> s.readers == {})
  }

  ghost predicate WriteLockInv(s: State) {
    && (s.writer.Some? ==> s.writer.value in s.calls)
    && (forall t :: t in s.calls ==> (s.writer == Some(t) <==> HasWriteLock(s.calls[t])))
  }

  /** At most one writer asks for the lock, and none while it is held for writing. */
  ghost predicate PendingInv(s: State) {
    && (s.pending.Some? ==> s.pending.value in s.calls && s.writer == None)
    && (forall t :: t in s.calls ==> (s.pending == Some(t) <==> s.calls[t].StopPending?))
  }

  ghost predicate LockInv(s: State) {
    ReadLockInv(s) && WriteLockInv(s) && PendingInv(s)
  }

  /** No event is lost, duplicated or reordered on its way to the handler. */
  ghost predicate FlowInv(s: State) {
    && s.accepted == s.handled + InHand(s) + s.queue
    && (s.workerDone ==> s.queue == [] && s.inHand == None && s.channelClosed)
  }

  /** The phases of stopping: the flag goes up, then the channel closes, then the worker
      drains it, and only then may a stopper let go of the lock. */
  ghost predicate StopInv(s: State) {
    && !s.panicked
    && (s.channelClosed ==> s.closed)
    && (s.closed && !s.workerDone ==>
        s.writer.Some? && s.writer.value in s.calls && !s.calls[s.writer.value].StopLocked?)
    && (forall t :: t in s.calls && s.calls[t].PublishChecked? ==> !s.closed)
    && (forall t :: t in s.calls && s.calls[t].StopFlagged? ==> s.closed && !s.channelClosed)
    && (forall t :: t in s.calls && s.calls[t].StopWaiting? ==> s.channelClosed)
    && (forall t :: t in s.calls && s.calls[t].StopReturned? ==> s.closed && s.workerDone)
  }

  ghost predicate Inv(s: State) {
    LockInv(s) && FlowInv(s) && StopInv(s)
  }

  lemma StepKeepsReadLocks(s: State, step: Step)
    requires ReadLockInv(s) && Enabled(s, step)
    ensures ReadLockInv(Apply(s, step))
  {
    match step
    case CheckPublish(_) =>
    case Send(_) =>
    case RLock(_) =>
    case Lock(_) =>
    case FinishStop(_) =>
    case _ =>
  }

  lemma StepKeepsWriteLock(s: State, step: Step)
    requires WriteLockInv(s) && PendingInv(s) && StopInv(s) && Enabled(s, step)
    ensures WriteLockInv(Apply(s, step))
  {
  }

  lemma StepKeepsPending(s: State, step: Step)
    requires WriteLockInv(s) && PendingInv(s) && StopInv(s) && Enabled(s, step)
    ensures PendingInv(Apply(s, step))
  {
  }

  lemma StepKeepsFlow(s: State, step: Step)
    requires LockInv(s) && FlowInv(s) && StopInv(s) && Enabled(s, step)
    ensures FlowInv(Apply(s, step))
  {
    match step
    case Send(t) => AppendAssociates(s.handled + InHand(s), s.queue, [s.calls[t].event]);
    case Take =>
      assert [s.queue[0]] + s.queue[1..] == s.queue;
      AppendAssociates(s.handled, [s.queue[0]], s.queue[1..]);
      assert s.handled + [] == s.handled;
    case Handle => assert (s.handled + InHand(s)) + [] == s.handled + InHand(s);
    case _ =>
  }

  lemma StepKeepsStop(s: State, step: Step)
    requires LockInv(s) && FlowInv(s) && StopInv(s) && Enabled(s, step)
    ensures StopInv(Apply(s, step))
  {
    match step
    case CheckPublish(_) =>
    case Send(_) =>
    case Lock(_) =>
    case CheckStop(_) =>
    case CloseChannel(_) =>
    case FinishStop(_) =>
    case _ =>
  }

  lemma {:induction false} RunKeepsInv(steps: seq<Step>, states: seq<State>, k: nat)
    requires IsRun(steps, states) && k <= |steps|
    ensures Inv(states[k])
  {
    if k > 0 {
      RunKeepsInv(steps, states, k - 1);
      StepKeepsReadLocks(states[k - 1], steps[k - 1]);
      StepKeepsWriteLock(states[k - 1], steps[k - 1]);
      StepKeepsPending(states[k - 1], steps[k - 1]);
      StepKeepsFlow(states[k - 1], steps[k - 1]);
      StepKeepsStop(states[k - 1], steps[k - 1]);
    }
  }

  // ---- what every interleaving guarantees ----

  /** The channel is never sent to after it was closed, nor closed twice. */
  lemma NeverPanics(steps: seq<Step>, states: seq<State>, k: nat)
    requires IsRun(steps, states) && k <= |steps|
    ensures !states[k].panicked
  {
    RunKeepsInv(steps, states, k);
  }

  /** Handled events are a prefix of the accepted ones, in acceptance order, each once. */
  lemma HandledIsPrefix(steps: seq<Step>, states: seq<State>, k: nat)
    requires IsRun(steps, states) && k <= |steps|
    ensures states[k].handled <= states[k].accepted
  {
    RunKeepsInv(steps, states, k);
  }

  /** When any call of Stop has returned, everything accepted has been handled. */
  lemma StopDrains(steps: seq<Step>, states: seq<State>, k: nat, t: nat)
    requires IsRun(steps, states) && k <= |steps| && t in states[k].calls && states[k].calls[t].StopReturned?
    ensures states[k].handled == states[k].accepted
  {
    RunKeepsInv(steps, states, k);
  }

  lemma StepAfterDrain(s: State, step: Step)
    requires Inv(s) && s.closed && s.workerDone && Enabled(s, step)
    ensures
      var s' := Apply(s, step);
      s'.closed && s'.workerDone && s'.accepted == s.accepted && s'.handled == s.handled
  {
  }

  /** And nothing is accepted or handled any more, whatever happens later. */
  lemma {:induction false} NothingAfterStop(steps: seq<Step>, states: seq<State>, j: nat, k: nat, t: nat)
    requires IsRun(steps, states) && j <= k <= |steps| && t in states[j].calls && states[j].calls[t].StopReturned?
    ensures states[k].closed && states[k].workerDone
    ensures states[k].accepted == states[j].accepted && states[k].handled == states[j].handled
    decreases k
  {
    RunKeepsInv(steps, states, j);
    if j < k {
      NothingAfterStop(steps, states, j, k - 1, t);
      RunKeepsInv(steps, states, k - 1);
      StepAfterDrain(states[k - 1], steps[k - 1]);
    }
  }

  /** A call of Publish returns true exactly in the step that appends its event to the
      accepted ones; no other step accepts anything. */
  lemma AcceptedExactlyByPublish(steps: seq<Step>, states: seq<State>, k: nat)
    requires IsRun(steps, states) && k < |steps|
    ensures
      var s, s' := states[k], states[k + 1];
      if steps[k].Send? then
        var t := steps[k].t;
        s'.calls[t] == PublishReturned(true) && s'.accepted == s.accepted + [s.calls[t].event]
      else
        && s'.accepted == s.accepted
        && forall t :: t in s'.calls && s'.calls[t] == PublishReturned(true) ==>
            t in s.calls && s.calls[t] == PublishReturned(true)
  {
    RunKeepsInv(steps, states, k);
    assert states[k + 1] == Apply(states[k], steps[k]);
  }

  /** A call of `Stop` has got the lock and looked at the flag among the first `k` steps. */
  ghost predicate StopBefore(steps: seq<Step>, k: nat) {
    exists i :: 0 <= i < k && i < |steps| && steps[i].CheckStop?
  }

  lemma StepCloses(s: State, step: Step)
    requires Enabled(s, step) && Apply(s, step).closed
    ensures s.closed || step.CheckStop?
  {
  }

  lemma {:induction false} ClosedOnlyByStop(steps: seq<Step>, states: seq<State>, k: nat)
    requires IsRun(steps, states) && k <= |steps| && states[k].closed
    ensures StopBefore(steps, k)
  {
    if k > 0 {
      StepCloses(states[k - 1], steps[k - 1]);
      if states[k - 1].closed {
        ClosedOnlyByStop(steps, states, k - 1);
      }
    }
  }

  ghost predicate Refused(s: State, t: nat) {
    t in s.calls && s.calls[t] == PublishReturned(false)
  }

  lemma StepRefuses(s: State, step: Step, t: nat)
    requires Enabled(s, step) && Refused(Apply(s, step), t)
    ensures s.closed || Refused(s, t)
  {
  }

  /** `Publish` is refused only after a call of `Stop` has got the lock. */
  lemma {:induction false} RefusedOnlyAfterStop(steps: seq<Step>, states: seq<State>, k: nat, t: nat)
    requires IsRun(steps, states) && k <= |steps| && Refused(states[k], t)
    ensures StopBefore(steps, k)
  {
    if k > 0 {
      StepRefuses(states[k - 1], steps[k - 1], t);
      if states[k - 1].closed {
        ClosedOnlyByStop(steps, states, k - 1);
      } else {
        RefusedOnlyAfterStop(steps, states, k - 1, t);
      }
    }
  }

  /** So as long as there is no `Stop`, every `Publish` that has returned was accepted. */
  lemma AcceptedWithoutStop(steps: seq<Step>, states: seq<State>, k: nat, t: nat)
    requires IsRun(steps, states) && k <= |steps| && t in states[k].calls && states[k].calls[t].PublishReturned?
    requires forall i :: 0 <= i < k ==> !steps[i].CallStop?
    ensures states[k].calls[t] == PublishReturned(true)
  {
    if states[k].calls[t] == PublishReturned(false) {
      RefusedOnlyAfterStop(steps, states, k, t);
      var i :| 0 <= i < k && steps[i].CheckStop?;
      assert Enabled(states[i], steps[i]);
      NoStopper(steps, states, i, steps[i].t);
    }
  }

  predicate OfStop(pc: Pc) {
    pc.Stopping? || pc.StopPending? || pc.StopLocked? || pc.StopFlagged? || pc.StopWaiting? || pc.StopReturned?
  }

  lemma {:induction false} NoStopper(steps: seq<Step>, states: seq<State>, k: nat, t: nat)
    requires IsRun(steps, states) && k <= |steps| && forall i :: 0 <= i < k ==> !steps[i].CallStop?
    ensures t in states[k].calls ==> !OfStop(states[k].calls[t])
  {
    if k > 0 {
      NoStopper(steps, states, k - 1, t);
      assert Enabled(states[k - 1], steps[k - 1]) && states[k] == Apply(states[k - 1], steps[k - 1]);
    }
  }

  /** A channel with events in it is never abandoned by the worker. */
  lemma WorkerCanMoveUntilDrained(steps: seq<Step>, states: seq<State>, k: nat)
    requires IsRun(steps, states) && k <= |steps|
    requires states[k].handled != states[k].accepted || (states[k].channelClosed && !states[k].workerDone)
    ensures Enabled(states[k], Take) || Enabled(states[k], Handle) || Enabled(states[k], WorkerExit)
  {
    RunKeepsInv(steps, states, k);
  }

  // ---- every call returns ----

  /** A publisher that has checked the flag waits only for room among 1024 events. */
  lemma PublishWaitsOnlyForRoom(steps: seq<Step>, states: seq<State>, k: nat, t: nat)
    requires IsRun(steps, states) && k <= |steps| && t in states[k].calls && states[k].calls[t].PublishChecked?
    ensures Enabled(states[k], Send(t)) <==> |states[k].queue| < 1024
  {
    RunKeepsInv(steps, states, k);
  }

  /** A step that is not the beginning of a new call. */
  predicate Internal(step: Step) {
    !step.CallPublish? && !step.CallStop?
  }

  ghost predicate CanMove(s: State) {
    exists step :: Internal(step) && Enabled(s, step)
  }

  /** No deadlock: while some call has not returned, some step of a call or of the worker is
      possible. */
  lemma NoDeadlock(steps: seq<Step>, states: seq<State>, k: nat, t: nat)
    requires IsRun(steps, states) && k <= |steps| && !Idle(states[k], t)
    ensures CanMove(states[k])
  {
    RunKeepsInv(steps, states, k);
    StuckMeansIdle(states[k], t);
  }

  /** Who to move: a holder of a lock, or whoever it waits for. */
  lemma StuckMeansIdle(s: State, t: nat)
    requires Inv(s) && !Idle(s, t)
    ensures CanMove(s)
  {
    if s.inHand.Some? {
      assert Internal(Handle) && Enabled(s, Handle);
    } else if s.queue != [] {
      assert Internal(Take) && Enabled(s, Take);
    } else if s.writer.Some? {
      WriterCanMove(s, s.writer.value);
    } else if s.readers != {} {
      var r :| r in s.readers;
      var step := if s.calls[r].PublishLocked? then CheckPublish(r) else Send(r);
      assert Internal(step) && Enabled(s, step);
    } else if s.pending.Some? {
      assert Internal(Lock(s.pending.value)) && Enabled(s, Lock(s.pending.value));
    } else {
      var step := if s.calls[t].Publishing? then RLock(t) else AskLock(t);
      assert Internal(step) && Enabled(s, step);
    }
  }

  lemma WriterCanMove(s: State, w: nat)
    requires Inv(s) && s.writer == Some(w) && s.inHand == None && s.queue == []
    ensures CanMove(s)
  {
    var step := if s.calls[w].StopLocked? then CheckStop(w)
                else if s.calls[w].StopFlagged? then CloseChannel(w)
                else if s.workerDone then FinishStop(w)
                else WorkerExit;
    assert Internal(step) && Enabled(s, step);
  }

  /** How many steps a call can still take; a send leaves two more to the worker. */
  function Rank(pc: Pc): nat {
    match pc
    case Publishing(_) => 5
    case PublishLocked(_) => 4
    case PublishChecked(_) => 3
    case PublishReturned(_) => 0
    case Stopping => 5
    case StopPending => 4
    case StopLocked => 3
    case StopFlagged => 2
    case StopWaiting => 1
    case StopReturned => 0
  }

  function Ranks(calls: map<nat, Pc>, ts: seq<nat>): nat {
    if ts == [] then 0 else (if ts[0] in calls then Rank(calls[ts[0]]) else 0) + Ranks(calls, ts[1..])
  }

  /** Moving one call changes its rank only. */
  lemma {:induction false} RanksMove(calls: map<nat, Pc>, ts: seq<nat>, t: nat, pc: Pc)
    requires NoRepeats(ts) && t in calls
    ensures Ranks(calls[t := pc], ts) == Ranks(calls, ts) + if t in ts then Rank(pc) - Rank(calls[t]) else 0
    decreases |ts|
  {
    if ts != [] {
      RanksMove(calls, ts[1..], t, pc);
      assert ts == [ts[0]] + ts[1..];
      assert ts[0] !in ts[1..];
    }
  }

  /** The steps left to the calls `ts` and to the worker. */
  function StepsLeft(s: State, ts: seq<nat>): nat {
    Ranks(s.calls, ts) + 2 * |s.queue| + (if s.inHand.Some? then 1 else 0) + (if s.workerDone then 0 else 1)
  }

  ghost predicate Lists(ts: seq<nat>, s: State) {
    NoRepeats(ts) && forall t :: t in s.calls ==> t in ts
  }

  predicate OfWorker(step: Step) {
    step.Take? || step.Handle? || step.WorkerExit?
  }

  /** A step of a call moves that call only, by more than what it leaves to the worker. */
  lemma CallMoves(s: State, step: Step)
    requires Inv(s) && Enabled(s, step) && Internal(step) && !OfWorker(step)
    ensures
      var s' := Apply(s, step);
      && step.t in s.calls && s'.calls == s.calls[step.t := s'.calls[step.t]]
      && Rank(s'.calls[step.t]) + 2 * |s'.queue| < Rank(s.calls[step.t]) + 2 * |s.queue|
      && s'.inHand == s.inHand && s'.workerDone == s.workerDone
  {
  }

  lemma InternalStepDescends(s: State, step: Step, ts: seq<nat>)
    requires Inv(s) && Enabled(s, step) && Internal(step) && Lists(ts, s)
    ensures Lists(ts, Apply(s, step)) && StepsLeft(Apply(s, step), ts) < StepsLeft(s, ts)
  {
    var s' := Apply(s, step);
    if !OfWorker(step) {
      CallMoves(s, step);
      RanksMove(s.calls, ts, step.t, s'.calls[step.t]);
    }
  }

  /** Every call returns: without new calls only so many more steps are possible, and when
      none is left every call has returned. */
  lemma {:induction false} CallsReturn(steps: seq<Step>, states: seq<State>, j: nat, k: nat, ts: seq<nat>)
    requires IsRun(steps, states) && j <= k <= |steps| && Lists(ts, states[j])
    requires forall i :: j <= i < k ==> Internal(steps[i])
    ensures Lists(ts, states[k]) && k - j <= StepsLeft(states[j], ts) - StepsLeft(states[k], ts)
    ensures !CanMove(states[k]) ==> forall t :: Idle(states[k], t)
    decreases k
  {
    if j < k {
      CallsReturn(steps, states, j, k - 1, ts);
      RunKeepsInv(steps, states, k - 1);
      InternalStepDescends(states[k - 1], steps[k - 1], ts);
    }
    if !CanMove(states[k]) {
      forall t ensures Idle(states[k], t) {
        if !Idle(states[k], t) {
          NoDeadlock(steps, states, k, t);
        }
      }
    }
  }
}
