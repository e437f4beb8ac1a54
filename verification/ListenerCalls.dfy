/** The listener binder over a run of the invocation service: the calls that the binder has
    removed from the service's table were answered before, so stopping the service leaves no
    caller waiting. */
module ListenerCalls {
  import opened Wrappers
  import opened Invocations
  import B = ListenerBinders
  import P = InvocationProtocol

  /** Entry `i` of the binder's log was made when the run had come to position `at[i]`. */
  ghost predicate Positions(log: seq<B.Change>, at: seq<nat>, events: seq<P.Event>) {
    && |at| == |log|
    && (forall i :: 0 <= i < |at| ==> at[i] <= |events|)
    && (forall i, j :: 0 <= i <= j < |at| ==> at[i] <= at[j])
  }

  /** The call has been answered at position `k` of the run. */
  ghost predicate Answered(states: seq<P.State>, k: nat, id: P.CorrelationId, t: Terms) {
    k < |states| && id in states[k].calls && P.Received(t, states[k].calls[id]).Some?
  }

  /** Correlation IDs are recorded only once the calls were acknowledged to the binder. */
  ghost predicate RecordsAnswered(log: seq<B.Change>, at: seq<nat>, states: seq<P.State>, t: Terms)
    requires |at| == |log|
  {
    forall i, id :: 0 <= i < |log| && log[i].Recorded? && id in log[i].ids ==> Answered(states, at[i], id, t)
  }

  /** The removal at position `e` is asked for where a registration with this ID is dropped. */
  ghost predicate AskedFor(log: seq<B.Change>, at: seq<nat>, e: nat, id: P.CorrelationId)
    requires |at| == |log|
  {
    exists d :: 0 <= d < |log| && log[d].Dropped? && at[d] <= e && id in B.IdsOf(B.After(log[..d]), log[d].reg)
  }

  /** All removals come from the binder, the only one in the client to ask for any. */
  ghost predicate RemovalsFromBinder(log: seq<B.Change>, at: seq<nat>, events: seq<P.Event>)
    requires |at| == |log|
  {
    forall e :: 0 <= e < |events| && events[e].RemoveId? ==> AskedFor(log, at, e, events[e].id)
  }

  lemma AnsweredLater(events: seq<P.Event>, states: seq<P.State>, j: nat, k: nat, id: P.CorrelationId, t: Terms)
    requires P.IsRun(events, states) && j <= k <= |events| && Answered(states, j, id, t)
    ensures Answered(states, k, id, t)
  {
    P.FirstReplyStands(events, states, j, k, id, t);
  }

  /** The binder asks only for the removal of calls that have been answered. */
  lemma BinderRemovesOnlyAnswered(log: seq<B.Change>, at: seq<nat>, events: seq<P.Event>, states: seq<P.State>,
                                  t: Terms)
    requires P.IsRun(events, states) && Positions(log, at, events)
    requires RecordsAnswered(log, at, states, t) && RemovalsFromBinder(log, at, events)
    ensures P.RemovesOnlyAnswered(events, states, t)
  {
    forall e | 0 <= e < |events| && events[e].RemoveId? ensures Answered(states, e, events[e].id, t) {
      var id := events[e].id;
      assert AskedFor(log, at, e, id);
      var d :| 0 <= d < |log| && log[d].Dropped? && at[d] <= e && id in B.IdsOf(B.After(log[..d]), log[d].reg);
      B.KeptIffRecorded(log[..d], log[d].reg, id);
      var i :| 0 <= i < d && log[..d][i].Recorded? && id in log[..d][i].ids;
      assert log[i] == log[..d][i];
      AnsweredLater(events, states, at[i], e, id, t);
    }
  }

  /** So in the client, once the service's loop has exited, every accepted call has something
      to receive. */
  lemma ClientAnswersEveryCaller(log: seq<B.Change>, at: seq<nat>, events: seq<P.Event>, states: seq<P.State>, t: Terms,
                                 k: nat, id: P.CorrelationId)
    requires P.IsRun(events, states) && Positions(log, at, events)
    requires RecordsAnswered(log, at, states, t) && RemovalsFromBinder(log, at, events)
    requires k <= |events| && id in states[k].calls && states[k].exited
    ensures P.Received(t, states[k].calls[id]).Some?
  {
    BinderRemovesOnlyAnswered(log, at, events, states, t);
    P.AnsweredIsSettled(events, states, t);
    P.EveryCallerAnswered(events, states, k, id, t);
  }
}
