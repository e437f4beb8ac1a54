/** internal/client/invoker.go: the attempts of one invoke, all under one deadline. */
module Invoker {
  import opened Wrappers
  import opened Errors
  import opened CircuitBreakers
  import opened Invocations
  import P = InvocationProtocol

  /** What happens to one attempt. The first four concern `SendRequest` (or the urgent
      variant, which does not mark a context error), the rest `GetWithContext`. */
  datatype Fate =
    | Paused(now: int)
    | SendContextDone(canceled: bool, urgent: bool)
    | ServiceStopped
    | Answered(message: Payload)
    | Failed(error: Error, now: int)
    | ChannelClosed
    | GetContextDone(canceled: bool)

  /** The attempt handler's result. */
  function Attempt(t: Terms, fate: Fate): Outcome<Payload> {
    match fate
    case Paused(now) => Fail(TimedError(Wrapped(Leaf(RetryableIo)), now, t.deadline))
    case SendContextDone(canceled, urgent) =>
      var e := Wrapped(CtxError(canceled));
      Fail(if urgent then e else NonRetryable(e, false))
    case ServiceStopped => Fail(NonRetryable(Wrapped(Leaf(ClientNotActive)), false))
    case Answered(message) => Ok(message)
    case Failed(error, now) => Fail(UnwrapError(t, TimedError(error, now, t.deadline)))
    case ChannelClosed => Fail(NonRetryable(Leaf(ResponseChannelClosed), false))
    case GetContextDone(canceled) =>
      var e := CtxError(canceled);
      Fail(if CanRetry(t, e) then e else NonRetryable(e, false))
  }

  /** One invoke: attempt `i` meets `fates(i)`. */
  function Invoke(maxRetries: nat, t: Terms, gate: nat -> Gate, fates: nat -> Fate, attempt: nat): Run<Payload>
    requires attempt <= maxRetries
  {
    TryFrom(maxRetries, gate, (i: nat) => Run(Attempt(t, fates(i)), [[i]]), attempt)
  }

  /** The only fates after which a retry is due: the send was refused as paused, or the
      completion error was accepted by `CanRetry`, and in both cases in time. */
  predicate CallsForRetry(t: Terms, fate: Fate) {
    match fate
    case Paused(now) => now <= t.deadline
    case Failed(error, now) => now <= t.deadline && CanRetry(t, error) && !ContextErr(error)
    case _ => false
  }

  lemma AttemptJudged(t: Terms, fate: Fate)
    ensures Judge(Attempt(t, fate)).Again? <==> CallsForRetry(t, fate)
  {
    match fate
    case Paused(now) =>
      assert !ContextErr(Wrapped(Leaf(RetryableIo))) && AsNonRetryable(Wrapped(Leaf(RetryableIo))).None?;
    case Failed(error, now) =>
      UnwrapErrorDecidesRetry(t, TimedError(error, now, t.deadline));
    case SendContextDone(canceled, urgent) =>
      var e := Wrapped(CtxError(canceled));
      assert ContextErr(CtxError(canceled)) && ContextErr(e) && ContextErr(NonRetryable(e, false));
    case GetContextDone(canceled) =>
      assert ContextErr(CtxError(canceled)) && ContextErr(NonRetryable(CtxError(canceled), false));
    case _ =>
  }

  /** Attempt `k + 1` is due after attempt `k`: it calls for a retry, the limit is not
      reached and the loop's gate is open. */
  predicate Continues(maxRetries: nat, t: Terms, gate: nat -> Gate, fates: nat -> Fate, k: nat) {
    k < maxRetries && gate(k + 1).Open? && CallsForRetry(t, fates(k))
  }

  /** Attempts are numbered consecutively and each follows the last one exactly when due. */
  lemma {:induction false} AttemptsFrom(maxRetries: nat, t: Terms, gate: nat -> Gate, fates: nat -> Fate, attempt: nat)
    requires attempt <= maxRetries
    ensures
      var calls := Invoke(maxRetries, t, gate, fates, attempt).calls;
      && (forall i :: 0 <= i < |calls| ==> calls[i] == [attempt + i])
      && (calls != [] <==> gate(attempt).Open?)
      && (forall k: nat :: attempt <= k < attempt + |calls| ==>
            (k + 1 < attempt + |calls| <==> Continues(maxRetries, t, gate, fates, k)))
    decreases maxRetries - attempt
  {
    AttemptJudged(t, fates(attempt));
    if gate(attempt).Open? && CallsForRetry(t, fates(attempt)) && attempt < maxRetries {
      AttemptsFrom(maxRetries, t, gate, fates, attempt + 1);
      var calls := Invoke(maxRetries, t, gate, fates, attempt).calls;
      var rest := Invoke(maxRetries, t, gate, fates, attempt + 1).calls;
      assert calls == [[attempt]] + rest;
      assert forall i :: 1 <= i < |calls| ==> calls[i] == rest[i - 1];
    }
  }

  /** A further attempt follows exactly a paused or acceptably failed one in time. */
  lemma FurtherAttemptIff(maxRetries: nat, t: Terms, gate: nat -> Gate, fates: nat -> Fate, k: nat)
    requires k < |Invoke(maxRetries, t, gate, fates, 0).calls|
    ensures k + 1 < |Invoke(maxRetries, t, gate, fates, 0).calls| <==> Continues(maxRetries, t, gate, fates, k)
  {
    AttemptsFrom(maxRetries, t, gate, fates, 0);
  }

  /** What is sure to be retried: an IO, not-active or retryable error, or a lost target of a
      request that may be sent again, if the error carries no mark and is not the context's,
      and comes in time. */
  lemma RetriedIfTransient(maxRetries: nat, t: Terms, gate: nat -> Gate, fates: nat -> Fate, k: nat)
    requires k < |Invoke(maxRetries, t, gate, fates, 0).calls| && k < maxRetries && gate(k + 1) == Open
    requires fates(k).Failed? && fates(k).now <= t.deadline
    requires Marks(fates(k).error) == 0 && !ContextErr(fates(k).error)
    requires
      var e := fates(k).error;
      || Is(e, Io) || Is(e, InstanceNotActive) || e == Leaf(RetryableIo)
      || (Is(e, TargetDisconnected) && (t.retryableRequest || t.redoOperation))
    ensures k + 1 < |Invoke(maxRetries, t, gate, fates, 0).calls|
  {
    OutermostMark(fates(k).error);
    FurtherAttemptIff(maxRetries, t, gate, fates, k);
  }

  /** And a send refused as paused, in time. */
  lemma RetriedIfPaused(maxRetries: nat, t: Terms, gate: nat -> Gate, fates: nat -> Fate, k: nat)
    requires k < |Invoke(maxRetries, t, gate, fates, 0).calls| && k < maxRetries && gate(k + 1) == Open
    requires fates(k).Paused? && fates(k).now <= t.deadline
    ensures k + 1 < |Invoke(maxRetries, t, gate, fates, 0).calls|
  {
    FurtherAttemptIff(maxRetries, t, gate, fates, k);
  }

  /** The error of a gate that is not open. */
  function GateError(g: Gate): Error
    requires !g.Open?
  {
    if g.ContextDone? then g.error else Leaf(DeadlineExceeded)
  }

  lemma {:induction false} AttemptsReach(maxRetries: nat, t: Terms, gate: nat -> Gate, fates: nat -> Fate, k: nat)
    requires k < |Invoke(maxRetries, t, gate, fates, 0).calls|
    ensures k <= maxRetries && gate(k) == Open
    ensures Reached(gate, (i: nat) => Run(Attempt(t, fates(i)), [[i]]), 0, k)
  {
    AttemptsFrom(maxRetries, t, gate, fates, 0);
    if k > 0 {
      AttemptsReach(maxRetries, t, gate, fates, k - 1);
      assert Continues(maxRetries, t, gate, fates, k - 1);
      RetryIsRetried(t, fates(k - 1));
    }
  }

  lemma RetryIsRetried(t: Terms, fate: Fate)
    ensures Retried(Attempt(t, fate)) <==> CallsForRetry(t, fate)
  {
    AttemptJudged(t, fate);
    if Attempt(t, fate).Fail? {
      OutermostMark(Attempt(t, fate).error);
    }
  }

  /** What the caller of an invoke gets, in terms of the fate of the last attempt made: the
      response; or the error itself, without the marks put on it on the way; and if a retry
      was due that the loop did not make, what kept it from making it. */
  lemma InvokeOutcome(maxRetries: nat, t: Terms, gate: nat -> Gate, fates: nat -> Fate)
    ensures
      var r := Invoke(maxRetries, t, gate, fates, 0);
      var n := |r.calls|;
      if n == 0 then !gate(0).Open? && r.outcome == Fail(GateError(gate(0)))
      else if CallsForRetry(t, fates(n - 1)) && n <= maxRetries then
        !gate(n).Open? && r.outcome == Fail(GateError(gate(n)))
      else match fates(n - 1)
        case Answered(m) => r.outcome == Ok(m)
        case ChannelClosed => r.outcome == Fail(Leaf(ResponseChannelClosed))
        case ServiceStopped => r.outcome == Fail(Wrapped(Leaf(ClientNotActive)))
        case Paused(_) => r.outcome == Fail(Wrapped(Leaf(RetryableIo)))
        case Failed(e, _) => Marks(e) == 0 && !ContextErr(e) ==> r.outcome == Fail(e)
        case SendContextDone(canceled, urgent) =>
          var e := Wrapped(CtxError(canceled));
          r.outcome == Fail(if urgent then e else NonRetryable(e, false))
        case GetContextDone(canceled) => r.outcome == Fail(NonRetryable(CtxError(canceled), false))
  {
    var n := |Invoke(maxRetries, t, gate, fates, 0).calls|;
    var runs := (i: nat) => Run(Attempt(t, fates(i)), [[i]]);
    AttemptsFrom(maxRetries, t, gate, fates, 0);
    if n == 0 {
      LoopOutcome(maxRetries, gate, runs, 0, 0);
    } else {
      AttemptsReach(maxRetries, t, gate, fates, n - 1);
      RetryIsRetried(t, fates(n - 1));
      if CallsForRetry(t, fates(n - 1)) && n <= maxRetries {
        assert !Continues(maxRetries, t, gate, fates, n - 1);
        LoopOutcome(maxRetries, gate, runs, 0, n);
      } else {
        LoopOutcome(maxRetries, gate, runs, 0, n - 1);
        LastAttempt(t, fates(n - 1));
      }
    }
  }

  /** The error that an attempt ends with, below a plain mark if there is one. */
  lemma LastAttempt(t: Terms, fate: Fate)
    ensures
      var o := Attempt(t, fate);
      match fate
      case Answered(m) => o == Ok(m)
      case ChannelClosed => o == Fail(NonRetryable(Leaf(ResponseChannelClosed), false)) && !ContextErr(o.error)
      case ServiceStopped => o == Fail(NonRetryable(Wrapped(Leaf(ClientNotActive)), false)) && !ContextErr(o.error)
      case Paused(_) =>
        var e := Wrapped(Leaf(RetryableIo));
        (o == Fail(e) || o == Fail(NonRetryable(e, false))) && !ContextErr(o.error) && AsNonRetryable(e) == None
      case Failed(e, _) =>
        Marks(e) == 0 && !ContextErr(e) ==>
          (o == Fail(e) || o == Fail(NonRetryable(e, false))) && !ContextErr(o.error) && AsNonRetryable(e) == None
      case SendContextDone(canceled, urgent) =>
        var e := Wrapped(CtxError(canceled));
        o == Fail(if urgent then e else NonRetryable(e, false)) && ContextErr(o.error)
      case GetContextDone(canceled) => o == Fail(NonRetryable(CtxError(canceled), false)) && ContextErr(o.error)
  {
    match fate
    case Failed(e, now) => OutermostMark(e);
    case SendContextDone(canceled, urgent) =>
      var e := Wrapped(CtxError(canceled));
      assert ContextErr(CtxError(canceled)) && ContextErr(e) && ContextErr(NonRetryable(e, false));
    case GetContextDone(canceled) =>
      assert ContextErr(CtxError(canceled)) && ContextErr(NonRetryable(CtxError(canceled), false));
    case _ =>
  }

  /** The clock readings of an attempt that begins at `begin`. */
  predicate NotBefore(fate: Fate, begin: int) {
    match fate
    case Paused(now) => now >= begin
    case Failed(_, now) => now >= begin
    case _ => true
  }

  /** All attempts share the deadline: one that begins after it is the last. */
  lemma AttemptAfterDeadlineIsLast(maxRetries: nat, t: Terms, gate: nat -> Gate, fates: nat -> Fate, k: nat, begin: int)
    requires NotBefore(fates(k), begin) && begin > t.deadline
    ensures |Invoke(maxRetries, t, gate, fates, 0).calls| <= k + 1
  {
    if k < |Invoke(maxRetries, t, gate, fates, 0).calls| {
      FurtherAttemptIff(maxRetries, t, gate, fates, k);
    }
  }

  /** A non-retryable request with redo off is not sent again once it was completed with
      a target-disconnected error that carries no IO, not-active or retryable cause. */
  lemma NotResentAfterDisconnect(maxRetries: nat, t: Terms, gate: nat -> Gate, fates: nat -> Fate, k: nat)
    requires !t.retryableRequest && !t.redoOperation
    requires fates(k).Failed?
    requires !Is(fates(k).error, Io) && !Is(fates(k).error, InstanceNotActive) && !IsRetryable(fates(k).error)
    ensures |Invoke(maxRetries, t, gate, fates, 0).calls| <= k + 1
  {
    if k < |Invoke(maxRetries, t, gate, fates, 0).calls| {
      FurtherAttemptIff(maxRetries, t, gate, fates, k);
    }
  }

  /** The loop sleeps `(i+1)*100` ms between attempt `i` and the next. */
  predicate SleepsAfter(begin: nat -> int, i: nat) {
    begin(i + 1) >= begin(i) + 100 * (i + 1)
  }

  lemma {:induction false} SleepsAddUp(begin: nat -> int, n: nat)
    requires forall i: nat :: i < n ==> SleepsAfter(begin, i)
    ensures begin(n) >= begin(0) + 50 * (n * (n + 1))
  {
    if n > 0 {
      var m := n - 1;
      SleepsAddUp(begin, m);
      assert SleepsAfter(begin, m);
      assert (m + 1) * (m + 2) == m * (m + 1) + 2 * (m + 1);
    }
  }

  /** Retries end at the deadline: if one more attempt follows attempt `n`, the sleeps
      before `n` fit between the start of the invoke and the deadline, so the number of
      attempts grows only with the square root of the timeout. */
  lemma AttemptsBoundedByDeadline(maxRetries: nat, t: Terms, gate: nat -> Gate, fates: nat -> Fate, begin: nat -> int,
                                  n: nat)
    requires forall i: nat :: i < n ==> SleepsAfter(begin, i)
    requires NotBefore(fates(n), begin(n))
    requires |Invoke(maxRetries, t, gate, fates, 0).calls| > n + 1
    ensures 50 * (n * (n + 1)) <= t.deadline - begin(0)
  {
    SleepsAddUp(begin, n);
    if begin(n) > t.deadline {
      AttemptAfterDeadlineIsLast(maxRetries, t, gate, fates, n, begin(n));
    }
  }

  /** The fate an event of the service deals to the pending invocation `id`, if any. */
  function FateDealt(s: P.State, ev: P.Event, id: P.CorrelationId): Option<Fate>
    requires id in s.calls
  {
    match ev
    case Receive(i, ErrorMessage(e), now) => if i == id then Some(Failed(e, now)) else None
    case Receive(i, PlainMessage(m), _) => if i == id then Some(Answered(m)) else None
    case GroupLost(g, e, now) =>
      if s.running && s.calls[id].group == g && !s.calls[id].eventRequest then Some(Failed(e, now)) else None
    case ExitLoop => Some(ChannelClosed)
    case _ => None
  }

  /** The service and the attempt handler agree: in every run, the caller of a pending
      invocation gets from its channel the result of exactly the fate dealt to it, and
      nothing as long as none is. */
  lemma CallerSeesFateDealt(events: seq<P.Event>, states: seq<P.State>, k: nat, id: P.CorrelationId, t: Terms)
    requires P.IsRun(events, states) && k < |events|
    requires id in states[k].table && !states[k].calls[id].completed && t.deadline == states[k].calls[id].deadline
    ensures id in states[k + 1].calls
    ensures P.Received(t, states[k + 1].calls[id]) ==
            match FateDealt(states[k], events[k], id)
            case Some(fate) => Some(Attempt(t, fate))
            case None => None
  {
    P.RunKeepsInv(events, states, k);
    assert P.CallInv(states[k], id);
    assert states[k].calls[id].channel == [];
    assert states[k + 1] == P.Apply(states[k], events[k]);
  }

  // ---- one invoke over one run of the service ----

  /** As `FateDealt`, for any call at any step: a pending one may be dealt a fate, and one
      that is accepted but cannot be sent fails at once. */
  function FateAt(s: P.State, ev: P.Event, id: P.CorrelationId): Option<Fate> {
    if id in s.calls then
      if id in s.table && !s.calls[id].completed then FateDealt(s, ev, id) else None
    else if ev.Accept? && ev.id == id && ev.sending.NotSent? then Some(Failed(ev.sending.error, ev.now))
    else None
  }

  /** The fate dealt to a call in the first `k` steps of a run. */
  function FateIn(events: seq<P.Event>, states: seq<P.State>, k: nat, id: P.CorrelationId): Option<Fate>
    requires k <= |events| < |states|
  {
    if k == 0 then None
    else match FateIn(events, states, k - 1, id)
      case Some(fate) => Some(fate)
      case None => FateAt(states[k - 1], events[k - 1], id)
  }

  /** The result of the fate, if one was dealt. */
  function Result(t: Terms, fate: Option<Fate>): Option<Outcome<Payload>> {
    if fate.Some? then Some(Attempt(t, fate.value)) else None
  }

  lemma DeadlineKept(events: seq<P.Event>, states: seq<P.State>, k: nat, id: P.CorrelationId)
    requires P.IsRun(events, states) && k < |events| && id in states[k].calls
    ensures id in states[k + 1].calls && states[k + 1].calls[id].deadline == states[k].calls[id].deadline
  {
    P.RunKeepsInv(events, states, k);
    assert P.CallInv(states[k], id);
    assert states[k + 1] == P.Apply(states[k], events[k]);
  }

  /** A call just accepted has received something exactly if it could not be sent. */
  lemma AcceptedSees(events: seq<P.Event>, states: seq<P.State>, k: nat, id: P.CorrelationId, t: Terms)
    requires P.IsRun(events, states) && k < |events| && id !in states[k].calls && id in states[k + 1].calls
    requires t.deadline == states[k + 1].calls[id].deadline
    ensures P.Received(t, states[k + 1].calls[id]) == Result(t, FateAt(states[k], events[k], id))
  {
    P.RunKeepsInv(events, states, k);
    assert states[k + 1] == P.Apply(states[k], events[k]);
  }

  /** A call that nobody can reach any more receives nothing. */
  lemma UnregisteredSeesNothing(events: seq<P.Event>, states: seq<P.State>, k: nat, id: P.CorrelationId, t: Terms)
    requires P.IsRun(events, states) && k < |events| && id in states[k].calls
    requires P.Received(t, states[k].calls[id]) == None && id !in states[k].table
    ensures id in states[k + 1].calls && P.Received(t, states[k + 1].calls[id]) == None
  {
    P.RunKeepsInv(events, states, k);
    assert P.CallInv(states[k], id);
    assert states[k + 1] == P.Apply(states[k], events[k]);
  }

  lemma NoFateBeforeAccepted(events: seq<P.Event>, states: seq<P.State>, k: nat, id: P.CorrelationId)
    requires P.IsRun(events, states) && k <= |events| && id !in states[k].calls
    ensures FateIn(events, states, k, id) == None
    decreases k
  {
    if k > 0 {
      P.RunKeepsInv(events, states, k - 1);
      assert states[k] == P.Apply(states[k - 1], events[k - 1]);
      if id in states[k - 1].calls {
        DeadlineKept(events, states, k - 1, id);
      }
      NoFateBeforeAccepted(events, states, k - 1, id);
    }
  }

  /** In every run and for every accepted call, what its caller receives is the result of
      the one fate dealt to it, however long ago. */
  lemma {:induction false} CallerSeesItsFate(events: seq<P.Event>, states: seq<P.State>, k: nat, id: P.CorrelationId,
                                             t: Terms)
    requires P.IsRun(events, states) && k <= |events| && id in states[k].calls
    requires t.deadline == states[k].calls[id].deadline
    ensures P.Received(t, states[k].calls[id]) == Result(t, FateIn(events, states, k, id))
    decreases k
  {
    if k > 0 {
      if id in states[k - 1].calls {
        DeadlineKept(events, states, k - 1, id);
        CallerSeesItsFate(events, states, k - 1, id, t);
        P.RunKeepsInv(events, states, k - 1);
        assert P.CallInv(states[k - 1], id);
        if P.Received(t, states[k - 1].calls[id]).Some? {
          P.FirstReplyStands(events, states, k - 1, k, id, t);
        } else if id in states[k - 1].table {
          CallerSeesFateDealt(events, states, k - 1, id, t);
        } else {
          UnregisteredSeesNothing(events, states, k - 1, id, t);
        }
      } else {
        NoFateBeforeAccepted(events, states, k - 1, id);
        AcceptedSees(events, states, k - 1, id, t);
      }
    }
  }

  /** Fates that the service deals; the others end an attempt before or beside it. */
  predicate ByService(fate: Fate) {
    fate.Answered? || fate.Failed? || fate.ChannelClosed?
  }

  /** The attempts of one invoke, seen from the service's run: attempt `i` is call `ids(i)`,
      made with the deadline shared by all, and `fates(i)` is what the run deals to it. */
  ghost predicate Serves(events: seq<P.Event>, states: seq<P.State>, t: Terms, ids: nat -> P.CorrelationId,
                         fates: nat -> Fate, n: nat) {
    && P.IsRun(events, states)
    && forall i :: 0 <= i < n && ByService(fates(i)) ==> IsServed(events, states, t, ids(i), fates(i))
  }

  ghost predicate IsServed(events: seq<P.Event>, states: seq<P.State>, t: Terms, id: P.CorrelationId, fate: Fate)
    requires P.IsRun(events, states)
  {
    var last := |events|;
    && id in states[last].calls && states[last].calls[id].deadline == t.deadline
    && FateIn(events, states, last, id) == Some(fate)
  }

  /** What the caller of attempt `i` gets: from its channel, or from the send or the context. */
  ghost function Seen(events: seq<P.Event>, states: seq<P.State>, t: Terms, id: P.CorrelationId,
                      fate: Fate): Option<Outcome<Payload>>
    requires P.IsRun(events, states)
  {
    if !ByService(fate) then Some(Attempt(t, fate))
    else if id in states[|events|].calls then P.Received(t, states[|events|].calls[id])
    else None
  }

  /** Two loops run alike if the attempts that one of them makes end alike in both. */
  lemma {:induction false} SameHandlers<T>(maxRetries: nat, gate: nat -> Gate, f: nat -> Run<T>, g: nat -> Run<T>,
                                           attempt: nat)
    requires attempt <= maxRetries && forall i: nat :: |g(i).calls| == 1
    requires forall i: nat :: attempt <= i < attempt + |TryFrom(maxRetries, gate, g, attempt).calls| ==> f(i) == g(i)
    ensures TryFrom(maxRetries, gate, f, attempt) == TryFrom(maxRetries, gate, g, attempt)
    decreases maxRetries - attempt
  {
    if gate(attempt).Open? {
      assert |g(attempt).calls| == 1;
      assert f(attempt) == g(attempt);
      if Judge(g(attempt).outcome).Again? && attempt < maxRetries {
        SameHandlers(maxRetries, gate, f, g, attempt + 1);
      }
    }
  }

  /** The retry loop over what the attempts it makes receive from one run of the service is
      the invoke specified by the fates that the run deals. */
  lemma InvokeOverRun(maxRetries: nat, t: Terms, gate: nat -> Gate, ids: nat -> P.CorrelationId, fates: nat -> Fate,
                      events: seq<P.Event>, states: seq<P.State>, outcomes: nat -> Outcome<Payload>)
    requires Serves(events, states, t, ids, fates, |Invoke(maxRetries, t, gate, fates, 0).calls|)
    requires forall i: nat :: i < |Invoke(maxRetries, t, gate, fates, 0).calls| ==>
                                Seen(events, states, t, ids(i), fates(i)) == Some(outcomes(i))
    ensures TryFrom(maxRetries, gate, (i: nat) => Run(outcomes(i), [[i]]), 0) == Invoke(maxRetries, t, gate, fates, 0)
  {
    var f := (i: nat) => Run(outcomes(i), [[i]]);
    var g := (i: nat) => Run(Attempt(t, fates(i)), [[i]]);
    var n := |Invoke(maxRetries, t, gate, fates, 0).calls|;
    assert n == |TryFrom(maxRetries, gate, g, 0).calls|;
    forall i: nat | i < n ensures f(i) == g(i) {
      assert Seen(events, states, t, ids(i), fates(i)) == Some(outcomes(i));
      if ByService(fates(i)) {
        assert IsServed(events, states, t, ids(i), fates(i));
        CallerSeesItsFate(events, states, |events|, ids(i), t);
      }
    }
    SameHandlers(maxRetries, gate, f, g, 0);
  }

  /** The clock reading of a step, if it takes one. */
  function Clock(ev: P.Event): Option<int> {
    match ev
    case Accept(_, _, _, _, _, now) => Some(now)
    case Receive(_, _, now) => Some(now)
    case GroupLost(_, _, now) => Some(now)
    case _ => None
  }

  ghost predicate ClockForward(events: seq<P.Event>) {
    forall i, j :: 0 <= i <= j < |events| && Clock(events[i]).Some? && Clock(events[j]).Some? ==>
                     Clock(events[i]).value <= Clock(events[j]).value
  }

  /** A fate dealt by the run carries the clock reading of a step not before the acceptance. */
  lemma {:induction false} FateAfterAccept(events: seq<P.Event>, states: seq<P.State>, k: nat, a: nat,
                                           id: P.CorrelationId)
    requires P.IsRun(events, states) && ClockForward(events) && k <= |events|
    requires a < |events| && events[a].Accept? && events[a].id == id
    requires FateIn(events, states, k, id).Some?
    ensures NotBefore(FateIn(events, states, k, id).value, events[a].now)
    decreases k
  {
    if FateIn(events, states, k - 1, id).Some? {
      FateAfterAccept(events, states, k - 1, a, id);
    } else {
      var ev := events[k - 1];
      assert FateAt(states[k - 1], ev, id).Some?;
      if k - 1 < a {
        NotAcceptedYet(events, states, k, a, id);
      }
      assert Clock(events[a]) == Some(events[a].now);
    }
  }

  /** Before a call is accepted it is not there. */
  lemma {:induction false} NotAcceptedYet(events: seq<P.Event>, states: seq<P.State>, k: nat, a: nat,
                                          id: P.CorrelationId)
    requires P.IsRun(events, states) && k <= a < |events| && events[a].Accept? && events[a].id == id
    ensures id !in states[k].calls && FateIn(events, states, k, id) == None
    decreases a - k
  {
    assert P.Enabled(states[a], events[a]);
    if k < a {
      NotAcceptedYet(events, states, k + 1, a, id);
      if id in states[k].calls {
        DeadlineKept(events, states, k, id);
      }
    }
    NoFateBeforeAccepted(events, states, k, id);
  }

  /** All attempts share one deadline, across the whole run: one whose call the service
      accepted after it is the last. */
  lemma AcceptedAfterDeadlineIsLast(maxRetries: nat, t: Terms, gate: nat -> Gate, ids: nat -> P.CorrelationId,
                                    fates: nat -> Fate, events: seq<P.Event>, states: seq<P.State>, k: nat, a: nat)
    requires Serves(events, states, t, ids, fates, k + 1) && ClockForward(events) && ByService(fates(k))
    requires a < |events| && events[a].Accept? && events[a].id == ids(k) && events[a].now > t.deadline
    ensures |Invoke(maxRetries, t, gate, fates, 0).calls| <= k + 1
  {
    assert IsServed(events, states, t, ids(k), fates(k));
    FateAfterAccept(events, states, |events|, a, ids(k));
    AttemptAfterDeadlineIsLast(maxRetries, t, gate, fates, k, events[a].now);
  }

  /** A non-retryable request with redo off whose connection is lost in the run is not sent
      again, if the error carries no IO, not-active or retryable cause. */
  lemma NotResentAfterGroupLost(maxRetries: nat, t: Terms, gate: nat -> Gate, ids: nat -> P.CorrelationId,
                                fates: nat -> Fate, events: seq<P.Event>, states: seq<P.State>, k: nat, j: nat)
    requires Serves(events, states, t, ids, fates, k + 1) && ByService(fates(k)) && !t.retryableRequest &&
        !t.redoOperation
    requires j < |events| && events[j].GroupLost? && states[j].running
    requires !Is(events[j].error, Io) && !Is(events[j].error, InstanceNotActive) && !IsRetryable(events[j].error)
    requires ids(k) in states[j].table && P.Hit(states[j], ids(k), events[j].group) &&
        !states[j].calls[ids(k)].completed
    ensures |Invoke(maxRetries, t, gate, fates, 0).calls| <= k + 1
  {
    var id := ids(k);
    assert IsServed(events, states, t, id, fates(k));
    assert FateAt(states[j], events[j], id) == Some(Failed(events[j].error, events[j].now));
    P.RunKeepsInv(events, states, j);
    assert P.CallInv(states[j], id);
    PendingHasNoFate(events, states, j, id);
    FateStays(events, states, j + 1, |events|, id);
    NotResentAfterDisconnect(maxRetries, t, gate, fates, k);
  }

  /** The same from the accept event: the attempt's call was sent over a connection that was
      lost later, and it was not answered before. */
  lemma NotResentAfterConnectionLost(maxRetries: nat, t: Terms, gate: nat -> Gate, ids: nat -> P.CorrelationId,
                                     fates: nat -> Fate, events: seq<P.Event>, states: seq<P.State>, k: nat,
                                         a: nat, j: nat)
    requires Serves(events, states, t, ids, fates, k + 1) && ByService(fates(k))
    requires !t.retryableRequest && !t.redoOperation
    requires a < j < |events| && events[a].Accept? && events[a].id == ids(k) && !events[a].eventRequest
    requires events[j].GroupLost? && events[a].sending == P.Sent(events[j].group) && states[j].running
    requires !Is(events[j].error, Io) && !Is(events[j].error, InstanceNotActive) && !IsRetryable(events[j].error)
    requires FateIn(events, states, j, ids(k)) == None && ids(k) !in states[j].abandoned
    ensures |Invoke(maxRetries, t, gate, fates, 0).calls| <= k + 1
  {
    var id := ids(k);
    P.AcceptedAs(events, states, a, j);
    P.RunKeepsInv(events, states, j);
    assert P.CallInv(states[j], id);
    var c := states[j].calls[id];
    CallerSeesItsFate(events, states, j, id, Terms(false, false, c.deadline));
    assert c.channel == [];
    NotResentAfterGroupLost(maxRetries, t, gate, ids, fates, events, states, k, j);
  }

  lemma PendingHasNoFate(events: seq<P.Event>, states: seq<P.State>, k: nat, id: P.CorrelationId)
    requires P.IsRun(events, states) && k <= |events| && id in states[k].calls && states[k].calls[id].channel == []
    ensures FateIn(events, states, k, id) == None
  {
    CallerSeesItsFate(events, states, k, id, Terms(false, false, states[k].calls[id].deadline));
  }

  lemma {:induction false} FateStays(events: seq<P.Event>, states: seq<P.State>, j: nat, k: nat, id: P.CorrelationId)
    requires j <= k <= |events| < |states| && FateIn(events, states, j, id).Some?
    ensures FateIn(events, states, k, id) == FateIn(events, states, j, id)
    decreases k
  {
    if j < k {
      FateStays(events, states, j, k - 1, id);
    }
  }
}
