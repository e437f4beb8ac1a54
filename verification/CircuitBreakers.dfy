/** The retry loop of internal/cb: `CircuitBreaker.try` and nests of such loops. */
module CircuitBreakers {
  import opened Wrappers
  import opened Errors

  datatype Outcome<+T> = Ok(value: T) | Fail(error: Error)

  /** What the loop sees before an attempt: it may go on, the context is done
      with the given `ctx.Err()`, or the breaker's own deadline has passed. */
  datatype Gate = Open | ContextDone(error: Error) | PastDeadline

  /** What a retry loop did: its result and, in order, the innermost handler calls
      it made. A call is named by the attempt numbers leading to it, outermost first. */
  datatype Run<+T> = Run(outcome: Outcome<T>, calls: seq<seq<nat>>)

  /** The verdict on a handler's outcome: leave the loop with a result, or go on. */
  datatype Verdict<+T> = Leave(outcome: Outcome<T>) | Again

  function Judge<T>(o: Outcome<T>): Verdict<T> {
    if o.Ok? || ContextErr(o.error) then Leave(o)
    else match AsNonRetryable(o.error)
      case Some(nr) => Leave(Fail(if nr.persistent then o.error else nr.err))
      case None => Again
  }

  /** The loop from attempt number `attempt` on, when `handler(i)` is what attempt `i` does. */
  function TryFrom<T>(maxRetries: nat, gate: nat -> Gate, handler: nat -> Run<T>, attempt: nat): Run<T>
    requires attempt <= maxRetries
    decreases maxRetries - attempt
  {
    match gate(attempt)
    case ContextDone(error) => Run(Fail(error), [])
    case PastDeadline => Run(Fail(Leaf(DeadlineExceeded)), [])
    case Open =>
      var r := handler(attempt);
      match Judge(r.outcome)
      case Leave(o) => Run(o, r.calls)
      case Again =>
        if attempt == maxRetries then r
        else
          var rest := TryFrom(maxRetries, gate, handler, attempt + 1);
          Run(rest.outcome, r.calls + rest.calls)
  }

  /** Retry loops inside retry loops: `levels` holds each loop's `MaxRetries`, outermost
      first; `handler(path)` is the outcome of the innermost call reached by `path`. */
  function Nested<T>(levels: seq<nat>, gate: seq<nat> -> Gate, handler: seq<nat> -> Outcome<T>, path: seq<nat>): Run<T>
    decreases |levels|
  {
    if levels == [] then Run(handler(path), [path])
    else
      TryFrom(levels[0], (i: nat) => gate(path + [i]),
              (i: nat) => Nested(levels[1..], gate, handler, path + [i]), 0)
  }

  // ---- what a loop returns ----

  /** A failure that is retried: not of the context, and without any mark. */
  predicate Retried<T>(o: Outcome<T>) {
    o.Fail? && !ContextErr(o.error) && Marks(o.error) == 0
  }

  /** The innermost calls of the attempts in a range. */
  function CallsOf<T>(runs: nat -> Run<T>, from: nat, to: nat): seq<seq<nat>>
    decreases to - from
  {
    if from >= to then [] else runs(from).calls + CallsOf(runs, from + 1, to)
  }

  /** Attempt `k` is reached: all before it were let through and failed in a way that is retried. */
  ghost predicate Reached<T>(gate: nat -> Gate, runs: nat -> Run<T>, attempt: nat, k: nat) {
    attempt <= k && forall i: nat :: attempt <= i < k ==> gate(i) == Open && Retried(runs(i).outcome)
  }

  /** The result of a loop, in terms of the attempt that ends it: a closed gate gives its
      error, a success or a context error is passed on, a plain mark is taken off, a
      persistent one stays, and the last attempt's error is returned. */
  lemma {:induction false} LoopOutcome<T>(maxRetries: nat, gate: nat -> Gate, runs: nat -> Run<T>, attempt: nat, k: nat)
    requires k <= maxRetries && Reached(gate, runs, attempt, k)
    ensures
      var r := TryFrom(maxRetries, gate, runs, attempt);
      match gate(k)
      case ContextDone(e) => r == Run(Fail(e), CallsOf(runs, attempt, k))
      case PastDeadline => r == Run(Fail(Leaf(DeadlineExceeded)), CallsOf(runs, attempt, k))
      case Open =>
        var o := runs(k).outcome;
        if o.Ok? || ContextErr(o.error) then r == Run(o, CallsOf(runs, attempt, k + 1))
        else match AsNonRetryable(o.error)
          case Some(nr) => r == Run(if nr.persistent then o else Fail(nr.err), CallsOf(runs, attempt, k + 1))
          case None => k == maxRetries ==> r == Run(o, CallsOf(runs, attempt, k + 1))
    decreases k - attempt
  {
    assert CallsOf(runs, k + 1, k + 1) == [];
    if attempt == k {
      assert runs(k).calls + [] == runs(k).calls;
    } else {
      assert gate(attempt) == Open && Retried(runs(attempt).outcome);
      OutermostMark(runs(attempt).outcome.error);
      LoopOutcome(maxRetries, gate, runs, attempt + 1, k);
    }
  }

  /** Every loop has an attempt that ends it. */
  lemma {:induction false} LoopEnds<T>(maxRetries: nat, gate: nat -> Gate, runs: nat -> Run<T>, attempt: nat)
    returns (k: nat)
    requires attempt <= maxRetries
    ensures k <= maxRetries && Reached(gate, runs, attempt, k)
    ensures k == maxRetries || !gate(k).Open? || !Retried(runs(k).outcome)
    decreases maxRetries - attempt
  {
    k := attempt;
    if attempt < maxRetries && gate(attempt).Open? && Retried(runs(attempt).outcome) {
      k := LoopEnds(maxRetries, gate, runs, attempt + 1);
    }
  }

  /** A loop succeeds exactly if its last innermost call did, and returns that success; all
      earlier calls failed. */
  ghost predicate ReturnsSuccess<T>(r: Run<T>, handler: seq<nat> -> Outcome<T>) {
    && (forall i :: 0 <= i < |r.calls| - 1 ==> !handler(r.calls[i]).Ok?)
    && (r.outcome.Ok? <==> r.calls != [] && handler(r.calls[|r.calls| - 1]).Ok?)
    && (r.outcome.Ok? ==> r.outcome == handler(r.calls[|r.calls| - 1]))
  }

  lemma {:induction false} LoopReturnsSuccess<T>(maxRetries: nat, gate: nat -> Gate, runs: nat -> Run<T>,
                                                 handler: seq<nat> -> Outcome<T>, attempt: nat)
    requires attempt <= maxRetries
    requires forall i: nat :: ReturnsSuccess(runs(i), handler)
    ensures ReturnsSuccess(TryFrom(maxRetries, gate, runs, attempt), handler)
    decreases maxRetries - attempt
  {
    if gate(attempt).Open? {
      assert ReturnsSuccess(runs(attempt), handler);
      if Judge(runs(attempt).outcome).Again? && attempt < maxRetries {
        LoopReturnsSuccess(maxRetries, gate, runs, handler, attempt + 1);
      }
    }
  }

  /** For any nesting depth: the outermost loop succeeds exactly if the last innermost call
      did, and gives its value. */
  lemma {:induction false} NestedReturnsSuccess<T>(levels: seq<nat>, gate: seq<nat> -> Gate,
                                                   handler: seq<nat> -> Outcome<T>, path: seq<nat>)
    ensures ReturnsSuccess(Nested(levels, gate, handler, path), handler)
    decreases |levels|
  {
    if levels != [] {
      var runs := (i: nat) => Nested(levels[1..], gate, handler, path + [i]);
      forall i: nat ensures ReturnsSuccess(runs(i), handler) {
        NestedReturnsSuccess(levels[1..], gate, handler, path + [i]);
      }
      LoopReturnsSuccess(levels[0], (i: nat) => gate(path + [i]), runs, handler, 0);
    }
  }

  // ---- persistent errors ----

  ghost predicate PersistentFailure<T>(o: Outcome<T>) {
    o.Fail? && HasPersistent(o.error)
  }

  /** A persistent failure can only be the last innermost call, and then the loop's
      own result still carries it. */
  ghost predicate StopsAtPersistent<T>(r: Run<T>, handler: seq<nat> -> Outcome<T>) {
    && (forall i :: 0 <= i < |r.calls| - 1 ==> !PersistentFailure(handler(r.calls[i])))
    && (r.calls != [] && PersistentFailure(handler(r.calls[|r.calls| - 1])) ==> PersistentFailure(r.outcome))
  }

  lemma {:induction false} LoopStopsAtPersistent<T>(maxRetries: nat, gate: nat -> Gate, runs: nat -> Run<T>,
                                                    handler: seq<nat> -> Outcome<T>, attempt: nat)
    requires attempt <= maxRetries
    requires forall i: nat :: StopsAtPersistent(runs(i), handler)
    ensures StopsAtPersistent(TryFrom(maxRetries, gate, runs, attempt), handler)
    decreases maxRetries - attempt
  {
    if gate(attempt).Open? {
      var r := runs(attempt);
      assert StopsAtPersistent(r, handler);
      if PersistentFailure(r.outcome) {
        PersistentSurvivesStripping(r.outcome.error);
      }
      if Judge(r.outcome).Again? && attempt < maxRetries {
        LoopStopsAtPersistent(maxRetries, gate, runs, handler, attempt + 1);
      }
    }
  }

  /** For any nesting depth, a persistent non-retryable error ends every enclosing
      retry loop: no further innermost call follows it, and the error leaving the
      outermost loop still contains it. */
  lemma {:induction false} PersistentErrorStopsEveryLevel<T>(levels: seq<nat>, gate: seq<nat> -> Gate,
                                                             handler: seq<nat> -> Outcome<T>, path: seq<nat>)
    ensures StopsAtPersistent(Nested(levels, gate, handler, path), handler)
    decreases |levels|
  {
    if levels != [] {
      var runs := (i: nat) => Nested(levels[1..], gate, handler, path + [i]);
      forall i: nat ensures StopsAtPersistent(runs(i), handler) {
        PersistentErrorStopsEveryLevel(levels[1..], gate, handler, path + [i]);
      }
      LoopStopsAtPersistent(levels[0], (i: nat) => gate(path + [i]), runs, handler, 0);
    }
  }

  /** In particular, when every innermost call fails that way there is at most one call. */
  lemma PersistentHandlerCalledOnce<T>(levels: seq<nat>, gate: seq<nat> -> Gate, handler: seq<nat> -> Outcome<T>,
                                       path: seq<nat>)
    requires forall p :: PersistentFailure(handler(p))
    ensures |Nested(levels, gate, handler, path).calls| <= 1
    ensures Nested(levels, gate, handler, path).calls != [] ==>
        PersistentFailure(Nested(levels, gate, handler, path).outcome)
  {
    PersistentErrorStopsEveryLevel(levels, gate, handler, path);
    var calls := Nested(levels, gate, handler, path).calls;
    assert calls != [] ==> PersistentFailure(handler(calls[0]));
  }

  /** One loop whose attempts all fail with `e`: a plain mark ends it at the first, and is
      taken off; without a mark it makes all its attempts. */
  lemma {:induction false} LoopOfFailures<T>(maxRetries: nat, gate: nat -> Gate, runs: nat -> Run<T>, e: Error,
                                             n: nat, attempt: nat)
    requires attempt <= maxRetries
    requires forall i: nat :: gate(i) == Open && runs(i).outcome == Fail(e) && |runs(i).calls| == n
    requires !ContextErr(e) && !HasPersistent(e)
    ensures
      var r := TryFrom(maxRetries, gate, runs, attempt);
      if Marks(e) > 0 then |r.calls| == n && r.outcome == Fail(Stripped(e, 1))
      else |r.calls| == (maxRetries + 1 - attempt) * n && r.outcome == Fail(e)
    decreases maxRetries - attempt
  {
    OutermostMark(e);
    StripOneMore(e, 0);
    assert runs(attempt).outcome == Fail(e) && gate(attempt) == Open;
    if Marks(e) == 0 && attempt < maxRetries {
      LoopOfFailures(maxRetries, gate, runs, e, n, attempt + 1);
      var m := maxRetries - attempt;
      assert (m + 1) * n == m * n + n;
    }
  }

  /** The attempts that the `n` outermost loops make together. */
  function Attempts(levels: seq<nat>, n: nat): nat
    requires n <= |levels|
  {
    if n == 0 then 1 else (levels[0] + 1) * Attempts(levels[1..], n - 1)
  }

  /** For any nesting depth and any error with plain marks only: each mark stops one level,
      from the innermost one on, and the loops around those make all their attempts. */
  lemma {:induction false} PlainMarksStopOneLevelEach<T>(levels: seq<nat>, gate: seq<nat> -> Gate,
                                                         handler: seq<nat> -> Outcome<T>, e: Error, path: seq<nat>)
    requires forall p :: gate(p) == Open && handler(p) == Fail(e)
    requires !ContextErr(e) && !HasPersistent(e)
    ensures
      var r, m := Nested(levels, gate, handler, path), Marks(e);
      if m < |levels| then |r.calls| == Attempts(levels, |levels| - m) && r.outcome == Fail(Stripped(e, m))
      else |r.calls| == 1 && r.outcome == Fail(Stripped(e, |levels|))
    decreases |levels|
  {
    if levels != [] {
      var inner, m := levels[1..], Marks(e);
      var k := if m < |levels| then m else |inner|;
      var n := if m < |levels| then Attempts(inner, |inner| - m) else 1;
      var runs := (i: nat) => Nested(inner, gate, handler, path + [i]);
      forall i: nat ensures runs(i).outcome == Fail(Stripped(e, k)) && |runs(i).calls| == n {
        PlainMarksStopOneLevelEach(inner, gate, handler, e, path + [i]);
      }
      StripOneMore(e, k);
      LoopOfFailures(levels[0], (i: nat) => gate(path + [i]), runs, Stripped(e, k), n, 0);
    }
  }

  /** So a single mark that is not persistent stops one loop only. */
  lemma PlainMarkStopsOneLevelOnly<T>(outer: nat, inner: nat, gate: seq<nat> -> Gate, handler: seq<nat> -> Outcome<T>,
                                      e: Error)
    requires forall p :: gate(p) == Open && handler(p) == Fail(NonRetryable(e, false))
    requires !ContextErr(e) && AsNonRetryable(e).None?
    ensures |Nested([outer, inner], gate, handler, []).calls| == outer + 1
    ensures Nested([outer, inner], gate, handler, []).outcome == Fail(e)
  {
    var marked := NonRetryable(e, false);
    OutermostMark(e);
    NoMarks(e);
    PlainMarksStopOneLevelEach([outer, inner], gate, handler, marked, []);
    assert Attempts([outer, inner], 1) == outer + 1;
  }

  lemma {:induction false} NoMarks(e: Error)
    requires AsNonRetryable(e).None?
    ensures !HasPersistent(e)
  {
    if Unwrap(e).Some? {
      NoMarks(Unwrap(e).value);
    }
  }

  // ---- the breaker's own state ----

  /** The two atomic fields of the breaker. */
  datatype Breaker = Breaker(failures: nat, open: bool)

  /** `notifyFailed`: count a failed try; past the limit, open the circuit if it can
      close again later, else start counting afresh. */
  function Notified(b: Breaker, maxFailures: nat, canReset: bool): Breaker {
    var failures := b.failures + 1;
    if failures <= maxFailures then b.(failures := failures)
    else if canReset then Breaker(failures, true)
    else b.(failures := 0)
  }

  /** The timer started by opening the circuit closes it. */
  function Closed(b: Breaker): Breaker {
    if b.open then Breaker(0, false) else b
  }

  datatype BreakerOp = Failure | Closing

  function After(ops: seq<BreakerOp>, maxFailures: nat, canReset: bool): Breaker {
    if ops == [] then Breaker(0, false)
    else
      var b := After(ops[..|ops| - 1], maxFailures, canReset);
      if ops[|ops| - 1].Failure? then Notified(b, maxFailures, canReset) else Closed(b)
  }

  function Failures(ops: seq<BreakerOp>): nat {
    if ops == [] then 0 else Failures(ops[..|ops| - 1]) + if ops[|ops| - 1].Failure? then 1 else 0
  }

  /** From position `from` on, the first closing that finds more failures than allowed comes
      just before `next`. */
  ghost predicate FirstClosing(ops: seq<BreakerOp>, from: nat, next: nat, maxFailures: nat) {
    && from < next <= |ops| && ops[next - 1].Closing? && Failures(ops[from..next - 1]) > maxFailures
    && NoneCloses(ops, from, next - 1, maxFailures)
  }

  /** No closing in between finds more failures than allowed since `from`. */
  ghost predicate NoneCloses(ops: seq<BreakerOp>, from: nat, to: nat, maxFailures: nat)
    requires from <= to <= |ops|
  {
    forall i :: from <= i < to && ops[i].Closing? ==> Failures(ops[from..i]) <= maxFailures
  }

  /** `starts` are the positions at which counting starts: 0, and behind each closing that
      takes effect. */
  ghost predicate CountingStarts(ops: seq<BreakerOp>, starts: seq<nat>, maxFailures: nat) {
    && starts != [] && starts[0] == 0
    && (forall i :: 0 <= i < |starts| - 1 ==> FirstClosing(ops, starts[i], starts[i + 1], maxFailures))
    && starts[|starts| - 1] <= |ops| && NoneCloses(ops, starts[|starts| - 1], |ops|, maxFailures)
  }

  lemma AfterOneMore(ops: seq<BreakerOp>, k: nat, maxFailures: nat, canReset: bool)
    requires k < |ops|
    ensures
      var b := After(ops[..k], maxFailures, canReset);
      After(ops[..k + 1], maxFailures, canReset) ==
      if ops[k].Failure? then Notified(b, maxFailures, canReset) else Closed(b)
  {
    assert ops[..k + 1][..k] == ops[..k];
  }

  lemma FailuresOneMore(ops: seq<BreakerOp>, from: nat, k: nat)
    requires from <= k < |ops|
    ensures Failures(ops[from..k + 1]) == Failures(ops[from..k]) + if ops[k].Failure? then 1 else 0
  {
    assert ops[from..k + 1][..k - from] == ops[from..k];
  }

  /** One more operation when `n` failures are counted. */
  lemma CountOne(n: nat, op: BreakerOp, maxFailures: nat)
    requires op.Closing? ==> n <= maxFailures
    ensures
      var b, n' := Breaker(n, n > maxFailures), n + if op.Failure? then 1 else 0;
      (if op.Failure? then Notified(b, maxFailures, true) else Closed(b)) == Breaker(n', n' > maxFailures)
  {
  }

  lemma NoneClosesBefore(ops: seq<BreakerOp>, from: nat, k: nat, maxFailures: nat)
    requires from < k <= |ops| && NoneCloses(ops, from, k, maxFailures)
    ensures NoneCloses(ops, from, k - 1, maxFailures)
    ensures ops[k - 1].Closing? ==> Failures(ops[from..k - 1]) <= maxFailures
  {
  }

  /** Counting goes on until a closing takes effect. */
  lemma {:induction false} CountedFrom(ops: seq<BreakerOp>, from: nat, k: nat, maxFailures: nat)
    requires from <= k <= |ops| && After(ops[..from], maxFailures, true) == Breaker(0, false)
    requires NoneCloses(ops, from, k, maxFailures)
    ensures
      var n := Failures(ops[from..k]);
      After(ops[..k], maxFailures, true) == Breaker(n, n > maxFailures)
    decreases k
  {
    if from == k {
      assert ops[from..k] == [];
    } else {
      NoneClosesBefore(ops, from, k, maxFailures);
      CountedFrom(ops, from, k - 1, maxFailures);
      AfterOneMore(ops, k - 1, maxFailures, true);
      FailuresOneMore(ops, from, k - 1);
      CountOne(Failures(ops[from..k - 1]), ops[k - 1], maxFailures);
    }
  }

  lemma {:induction false} ClosedAtStart(ops: seq<BreakerOp>, starts: seq<nat>, maxFailures: nat, i: nat)
    requires CountingStarts(ops, starts, maxFailures) && i < |starts|
    ensures starts[i] <= |ops| && After(ops[..starts[i]], maxFailures, true) == Breaker(0, false)
  {
    if i > 0 {
      ClosedAtStart(ops, starts, maxFailures, i - 1);
      var e := starts[i] - 1;
      assert FirstClosing(ops, starts[i - 1], starts[i - 1 + 1], maxFailures);
      CountedFrom(ops, starts[i - 1], e, maxFailures);
      AfterOneMore(ops, e, maxFailures, true);
    }
  }

  /** Over every run of failures and closings, with a reset timeout: the circuit is open
      exactly when there were more failures than allowed since it was last closed. */
  lemma OpensPastTheLimit(ops: seq<BreakerOp>, starts: seq<nat>, maxFailures: nat)
    requires CountingStarts(ops, starts, maxFailures)
    ensures
      var n := Failures(ops[starts[|starts| - 1]..]);
      After(ops, maxFailures, true) == Breaker(n, n > maxFailures)
  {
    var from := starts[|starts| - 1];
    ClosedAtStart(ops, starts, maxFailures, |starts| - 1);
    CountedFrom(ops, from, |ops|, maxFailures);
    assert ops[..|ops|] == ops && ops[from..|ops|] == ops[from..];
  }

  /** Every run has such positions. */
  lemma {:induction false} StartsExist(ops: seq<BreakerOp>, maxFailures: nat) returns (starts: seq<nat>)
    ensures CountingStarts(ops, starts, maxFailures)
  {
    if ops == [] {
      starts := [0];
    } else {
      var n := |ops| - 1;
      starts := StartsExist(ops[..n], maxFailures);
      var from := starts[|starts| - 1];
      assert forall f, i :: 0 <= f <= i <= n ==> ops[..n][f..i] == ops[f..i];
      if ops[n].Closing? && Failures(ops[from..n]) > maxFailures {
        assert FirstClosing(ops, from, n + 1, maxFailures);
        starts := starts + [n + 1];
      }
    }
  }

  /** Without one it never opens: the count starts afresh each time the limit is passed. */
  lemma {:induction false} NeverOpensWithoutReset(ops: seq<BreakerOp>, maxFailures: nat) returns (rounds: nat)
    ensures !After(ops, maxFailures, false).open && After(ops, maxFailures, false).failures <= maxFailures
    ensures Failures(ops) == rounds * (maxFailures + 1) + After(ops, maxFailures, false).failures
  {
    rounds := 0;
    if ops != [] {
      var init := ops[..|ops| - 1];
      rounds := NeverOpensWithoutReset(init, maxFailures);
      if ops[|ops| - 1].Failure? && After(init, maxFailures, false).failures == maxFailures {
        assert (rounds + 1) * (maxFailures + 1) == rounds * (maxFailures + 1) + maxFailures + 1;
        rounds := rounds + 1;
      }
    }
  }

  class CircuitBreaker {
    const maxRetries: nat
    const maxFailures: nat
    const canReset: bool
    var failures: nat
    var open: bool
    ghost var history: seq<BreakerOp>

    function State(): Breaker
      reads this
    {
      Breaker(failures, open)
    }

    /** The fields are the result of the failures and closings so far. */
    ghost predicate Valid()
      reads this
    {
      State() == After(history, maxFailures, canReset)
    }

    constructor (maxRetries: nat, maxFailures: nat, canReset: bool)
      ensures this.maxRetries == maxRetries && this.maxFailures == maxFailures && this.canReset == canReset
      ensures Valid() && history == []
    {
      this.maxRetries, this.maxFailures, this.canReset := maxRetries, maxFailures, canReset;
      failures, open, history := 0, false, [];
    }

    /** An open circuit refuses without calling the handler. Otherwise the loop runs, and
        its failure is counted unless it stems from the caller's context. */
    method TryContext<T>(gate: nat -> Gate, handler: nat -> Run<T>) returns (r: Run<T>)
      requires Valid()
      modifies this
      ensures Valid()
      ensures r == if old(open) then Run(Fail(Leaf(CircuitOpen)), []) else TryFrom(maxRetries, gate, handler, 0)
      ensures history == if !old(open) && r.outcome.Fail? && !ContextErr(r.outcome.error)
                         then old(history) + [Failure] else old(history)
    {
      if open {
        return Run(Fail(Leaf(CircuitOpen)), []);
      }
      r := Try(gate, handler);
      if r.outcome.Fail? && !ContextErr(r.outcome.error) {
        NotifyFailed();
      }
    }

    method Try<T>(gate: nat -> Gate, handler: nat -> Run<T>) returns (r: Run<T>)
      ensures r == TryFrom(maxRetries, gate, handler, 0)
    {
      var attempt, calls := 0, [];
      while true
        invariant attempt <= maxRetries
        invariant
          var all := TryFrom(maxRetries, gate, handler, 0);
          var rest := TryFrom(maxRetries, gate, handler, attempt);
          all.outcome == rest.outcome && all.calls == calls + rest.calls
        decreases maxRetries - attempt
      {
        match gate(attempt) {
          case ContextDone(error) => return Run(Fail(error), calls);
          case PastDeadline => return Run(Fail(Leaf(DeadlineExceeded)), calls);
          case Open =>
            var one := handler(attempt);
            calls := calls + one.calls;
            match Judge(one.outcome) {
              case Leave(o) => return Run(o, calls);
              case Again =>
                if attempt == maxRetries {
                  return Run(one.outcome, calls);
                }
                attempt := attempt + 1;
            }
        }
      }
    }

    method NotifyFailed()
      requires Valid()
      modifies this
      ensures Valid() && history == old(history) + [Failure]
    {
      history := history + [Failure];
      assert history[..|history| - 1] == old(history);
      failures := failures + 1;
      if failures > maxFailures {
        if canReset {
          open := true;
        } else {
          failures := 0;
        }
      }
    }

    /** What the timer started by opening the circuit does. */
    method CloseCircuit()
      requires Valid()
      modifies this
      ensures Valid() && history == old(history) + [Closing]
    {
      history := history + [Closing];
      assert history[..|history| - 1] == old(history);
      if open {
        open := false;
        failures := 0;
      }
    }
  }
}
