/** The invocation service as a step relation: one loop owns the table from correlation
    ID to invocation and takes sends, responses, removals, lost groups and shutdown in
    any order (internal/invocation/invocation_service.go). */
module InvocationProtocol {
  import opened Wrappers
  import opened Errors
  import opened Invocations
  import opened CircuitBreakers

  type CorrelationId = int

  datatype Reply = Response(message: Payload) | ErrorResponse(error: Error)

  /** The operations performed on a response channel, which has room for one value. */
  datatype ChannelOp = Send(reply: Reply) | Close

  /** An invocation: what is fixed at creation, and the fields the loop changes. The
      channel is kept as the history of the operations on it. */
  datatype Call = Call(hasHandler: bool, eventRequest: bool, deadline: int,
                       group: int, completed: bool, channel: seq<ChannelOp>)

  /** `calls` are all invocations the loop ever accepted, `table` those registered now,
      `next` the last correlation ID handed out, `abandoned` (a history variable) the
      invocations removed from the table before they were completed. */
  datatype State = State(next: CorrelationId, calls: map<CorrelationId, Call>, table: set<CorrelationId>,
                         running: bool, exited: bool, abandoned: set<CorrelationId>)

  const Init := State(0, map[], {}, true, false, {})

  function NewCall(hasHandler: bool, eventRequest: bool, deadline: int): Call {
    Call(hasHandler, eventRequest, deadline, 0, false, [])
  }

  /** `Impl.Complete`: the first completion sends, the others do nothing. */
  function Completed(c: Call, reply: Reply): Call {
    if c.completed then c else c.(completed := true, channel := c.channel + [Send(reply)])
  }

  function Closed(c: Call): Call {
    c.(channel := c.channel + [Close])
  }

  /** Unregister `id`, unless it has an event handler, and complete it. */
  function Settle(s: State, id: CorrelationId, reply: Reply): State
    requires s.table <= s.calls.Keys
  {
    if id !in s.table then s
    else s.(calls := s.calls[id := Completed(s.calls[id], reply)],
            table := if s.calls[id].hasHandler then s.table else s.table - {id})
  }

  function HandleError(s: State, id: CorrelationId, e: Error, now: int): State
    requires s.table <= s.calls.Keys
  {
    if id !in s.table then s
    else Settle(s, id, ErrorResponse(TimedError(e, now, s.calls[id].deadline)))
  }

  /** An incoming message: an error, an event, or the plain response. */
  datatype Incoming = ErrorMessage(error: Error) | EventMessage | PlainMessage(message: Payload)

  function HandleClientMessage(s: State, id: CorrelationId, msg: Incoming, now: int): State
    requires s.table <= s.calls.Keys
  {
    match msg
    case ErrorMessage(e) => HandleError(s, id, e, now)
    case EventMessage => s
    case PlainMessage(m) => Settle(s, id, Response(m))
  }

  /** What handing the invocation to a connection gives. */
  datatype Sending = Sent(group: int) | NotSent(error: Error)

  function SendInvocation(s: State, id: CorrelationId, c: Call, sending: Sending, now: int): State
    requires s.table <= s.calls.Keys
  {
    var s1 := s.(calls := s.calls[id := c], table := s.table + {id});
    match sending
    case Sent(group) => s1.(calls := s1.calls[id := c.(group := group)])
    case NotSent(e) => HandleError(s1, id, e, now)
  }

  function Remove(s: State, id: CorrelationId): State
    requires s.table <= s.calls.Keys
  {
    s.(table := s.table - {id},
       abandoned := if id in s.table && !s.calls[id].completed then s.abandoned + {id} else s.abandoned)
  }

  /** The registered invocations a lost group takes down. */
  predicate Hit(s: State, id: CorrelationId, group: int)
    requires s.table <= s.calls.Keys
  {
    id in s.table && s.calls[id].group == group && !s.calls[id].eventRequest
  }

  function HandleGroupLost(s: State, group: int, e: Error, now: int): State
    requires s.table <= s.calls.Keys
  {
    if !s.running then s
    else s.(calls := map id | id in s.calls ::
                       if Hit(s, id, group) then
                         Completed(s.calls[id], ErrorResponse(TimedError(e, now, s.calls[id].deadline)))
                       else s.calls[id],
            table := set id | id in s.table && !(Hit(s, id, group) && !s.calls[id].hasHandler))
  }

  /** A lost group handled for all entries but those in `todo`. */
  ghost function GroupLostBut(s: State, todo: set<CorrelationId>, group: int, e: Error, now: int): (r: State)
    requires s.table <= s.calls.Keys
    ensures r.table <= r.calls.Keys
    ensures s.running && todo == {} ==> r == HandleGroupLost(s, group, e, now)
    ensures todo == s.table ==> r == s
  {
    var r := s.(calls := map id | id in s.calls ::
                           if id !in todo && Hit(s, id, group) then
                             Completed(s.calls[id], ErrorResponse(TimedError(e, now, s.calls[id].deadline)))
                           else s.calls[id],
                table := set id | id in s.table && !(id !in todo && Hit(s, id, group) && !s.calls[id].hasHandler));
    assert todo == {} ==> r.calls == HandleGroupLost(s.(running := true), group, e, now).calls;
    assert todo == s.table ==> r.calls == s.calls;
    r
  }

  /** Handling the entries one at a time, in any order, handles the group. */
  lemma GroupLostOneMore(s: State, todo: set<CorrelationId>, id: CorrelationId, group: int, e: Error, now: int)
    requires s.table <= s.calls.Keys && todo <= s.table && id in todo
    ensures
      var p := GroupLostBut(s, todo, group, e, now);
      && id in p.table && p.calls[id] == s.calls[id]
      && GroupLostBut(s, todo - {id}, group, e, now) == if Hit(s, id, group) then HandleError(p, id, e, now) else p
  {
    var p := GroupLostBut(s, todo, group, e, now);
    var q := GroupLostBut(s, todo - {id}, group, e, now);
    var r := if Hit(s, id, group) then HandleError(p, id, e, now) else p;
    assert q.calls == r.calls;
    assert q.table == r.table;
  }

  /** The loop ends: whatever is still registered is closed. */
  function Exit(s: State): State {
    s.(calls := map id | id in s.calls :: if id in s.table then Closed(s.calls[id]) else s.calls[id],
       table := {}, exited := true)
  }

  /** Every registered invocation but those in `todo` is closed. */
  ghost function ClosedBut(s: State, todo: set<CorrelationId>): (r: State)
    requires s.table <= s.calls.Keys
    ensures r.table == s.table && r.calls.Keys == s.calls.Keys
    ensures todo == {} ==> r.(table := {}, exited := true) == Exit(s)
    ensures todo == s.table ==> r == s
  {
    var r := s.(calls := map id | id in s.calls ::
                           if id in s.table && id !in todo then Closed(s.calls[id]) else s.calls[id]);
    assert todo == {} ==> r.calls == Exit(s).calls;
    assert todo == s.table ==> r.calls == s.calls;
    r
  }

  lemma ClosedOneMore(s: State, todo: set<CorrelationId>, id: CorrelationId)
    requires s.table <= s.calls.Keys && todo <= s.table && id in todo
    ensures
      var p := ClosedBut(s, todo);
      ClosedBut(s, todo - {id}) == p.(calls := p.calls[id := Closed(p.calls[id])])
  {
    var p := ClosedBut(s, todo);
    assert ClosedBut(s, todo - {id}).calls == p.calls[id := Closed(p.calls[id])];
  }

  // ---- runs ----

  datatype Event =
    | Create
    | Accept(id: CorrelationId, hasHandler: bool, eventRequest: bool, deadline: int, sending: Sending, now: int)
    | Receive(id: CorrelationId, msg: Incoming, now: int)
    | RemoveId(id: CorrelationId)
    | GroupLost(group: int, error: Error, now: int)
    | Stop
    | ExitLoop

  /** The loop accepts an invocation made by the factory, and each at most once; it takes
      nothing any more once it has exited, and exits only after `Stop`. */
  predicate Enabled(s: State, ev: Event) {
    match ev
    case Create => true
    case Stop => true
    case Accept(id, _, _, _, _, _) => !s.exited && 0 < id <= s.next && id !in s.calls
    case ExitLoop => !s.exited && !s.running
    case _ => !s.exited
  }

  function Apply(s: State, ev: Event): State
    requires s.table <= s.calls.Keys
  {
    match ev
    case Create => s.(next := s.next + 1)
    case Accept(id, h, er, d, sending, now) => SendInvocation(s, id, NewCall(h, er, d), sending, now)
    case Receive(id, msg, now) => HandleClientMessage(s, id, msg, now)
    case RemoveId(id) => Remove(s, id)
    case GroupLost(group, e, now) => HandleGroupLost(s, group, e, now)
    case Stop => s.(running := false)
    case ExitLoop => Exit(s)
  }

  /** A run: any interleaving of enabled events from the initial state. */
  ghost predicate IsRun(events: seq<Event>, states: seq<State>) {
    && |states| == |events| + 1
    && states[0] == Init
    && forall i :: 0 <= i < |events| ==>
         && states[i].table <= states[i].calls.Keys
         && Enabled(states[i], events[i])
         && states[i + 1] == Apply(states[i], events[i])
  }

  // ---- the invariant ----

  predicate HasClose(c: Call) {
    Close in c.channel
  }

  /** The channel was sent to at most once, closed at most once, and never sent to after that. */
  predicate ProperUse(c: Call) {
    || c.channel == []
    || c.channel == [Close]
    || (|c.channel| == 1 && c.channel[0].Send?)
    || (|c.channel| == 2 && c.channel[0].Send? && c.channel[1] == Close)
  }

  ghost predicate CallInv(s: State, id: CorrelationId)
    requires id in s.calls
  {
    var c := s.calls[id];
    && 0 < id <= s.next
    && ProperUse(c)
    && (c.completed <==> c.channel != [] && c.channel[0].Send?)
    && (HasClose(c) ==> s.exited)
    && (id in s.table && !c.hasHandler ==> !c.completed)
    && (id !in s.table ==> (id in s.abandoned <==> c.channel == []))
    && (id in s.table ==> id !in s.abandoned)
  }

  ghost predicate Inv(s: State) {
    && s.table <= s.calls.Keys
    && s.abandoned <= s.calls.Keys
    && (s.exited ==> s.table == {} && !s.running)
    && 0 <= s.next
    && forall id :: id in s.calls ==> CallInv(s, id)
  }

  lemma SettleKeepsInv(s: State, id: CorrelationId, reply: Reply)
    requires Inv(s) && !s.exited
    ensures Inv(Settle(s, id, reply))
  {
    var s' := Settle(s, id, reply);
    forall i | i in s'.calls ensures CallInv(s', i) {
      assert CallInv(s, i);
    }
  }

  lemma AcceptKeepsInv(s: State, id: CorrelationId, c: Call, sending: Sending, now: int)
    requires Inv(s) && !s.exited && 0 < id <= s.next && id !in s.calls && c.channel == [] && !c.completed
    ensures Inv(SendInvocation(s, id, c, sending, now))
  {
    var s1 := s.(calls := s.calls[id := c], table := s.table + {id});
    forall i | i in s1.calls ensures CallInv(s1, i) {
      assert i != id ==> CallInv(s, i);
    }
    match sending
    case Sent(group) =>
      var s2 := s1.(calls := s1.calls[id := c.(group := group)]);
      forall i | i in s2.calls ensures CallInv(s2, i) {
        assert CallInv(s1, i);
      }
    case NotSent(e) =>
      SettleKeepsInv(s1, id, ErrorResponse(TimedError(e, now, c.deadline)));
  }

  lemma GroupLostKeepsInv(s: State, group: int, e: Error, now: int)
    requires Inv(s) && !s.exited
    ensures Inv(HandleGroupLost(s, group, e, now))
  {
    var s' := HandleGroupLost(s, group, e, now);
    forall i | i in s'.calls ensures CallInv(s', i) {
      assert CallInv(s, i);
    }
  }

  lemma ExitKeepsInv(s: State)
    requires Inv(s) && !s.exited && !s.running
    ensures Inv(Exit(s))
  {
    var s' := Exit(s);
    forall i | i in s'.calls ensures CallInv(s', i) {
      assert CallInv(s, i);
    }
  }

  /** Every step of the protocol keeps the invariant. */
  lemma StepKeepsInv(s: State, ev: Event)
    requires Inv(s) && Enabled(s, ev)
    ensures Inv(Apply(s, ev))
  {
    var s' := Apply(s, ev);
    match ev
    case Accept(id, h, er, d, sending, now) => AcceptKeepsInv(s, id, NewCall(h, er, d), sending, now);
    case Receive(id, msg, now) =>
      if id in s.table {
        match msg
        case ErrorMessage(e) => SettleKeepsInv(s, id, ErrorResponse(TimedError(e, now, s.calls[id].deadline)));
        case PlainMessage(m) => SettleKeepsInv(s, id, Response(m));
        case EventMessage =>
      }
    case GroupLost(group, e, now) => GroupLostKeepsInv(s, group, e, now);
    case ExitLoop => ExitKeepsInv(s);
    case _ =>
      forall i | i in s'.calls ensures CallInv(s', i) {
        assert CallInv(s, i);
      }
  }

  lemma {:induction false} RunKeepsInv(events: seq<Event>, states: seq<State>, k: nat)
    requires IsRun(events, states) && k <= |events|
    ensures Inv(states[k])
  {
    if k > 0 {
      RunKeepsInv(events, states, k - 1);
      StepKeepsInv(states[k - 1], events[k - 1]);
    }
  }

  // ---- what every run guarantees ----

  /** No response channel is ever sent to twice, sent to after close, or closed twice. */
  lemma ChannelsProperlyUsed(events: seq<Event>, states: seq<State>, k: nat, id: CorrelationId)
    requires IsRun(events, states) && k <= |events| && id in states[k].calls
    ensures ProperUse(states[k].calls[id])
  {
    RunKeepsInv(events, states, k);
    assert CallInv(states[k], id);
  }

  /** Until the loop exits, an accepted invocation without an event handler that was not
      removed is registered exactly while it is uncompleted. */
  lemma RegisteredExactlyWhileUncompleted(events: seq<Event>, states: seq<State>, k: nat, id: CorrelationId)
    requires IsRun(events, states) && k <= |events| && id in states[k].calls
    requires !states[k].exited && !states[k].calls[id].hasHandler && id !in states[k].abandoned
    ensures id in states[k].table <==> !states[k].calls[id].completed
  {
    RunKeepsInv(events, states, k);
    assert CallInv(states[k], id);
    assert forall i :: 0 <= i < |states[k].calls[id].channel| ==>
        states[k].calls[id].channel[i] in states[k].calls[id].channel;
  }

  /** What a caller blocked in `GetWithContext` gets from the channel, if anything. */
  function Received(t: Terms, c: Call): Option<Outcome<Payload>> {
    if c.channel == [] then None
    else match c.channel[0]
      case Send(Response(m)) => Some(Ok(m))
      case Send(ErrorResponse(e)) => Some(Fail(UnwrapError(t, e)))
      case Close => Some(Fail(NonRetryable(Leaf(ResponseChannelClosed), false)))
  }

  /** Once the loop has exited no caller waits forever: each accepted invocation was
      completed or closed, except exactly those removed while uncompleted. */
  lemma NoCallerLostAfterExit(events: seq<Event>, states: seq<State>, k: nat, id: CorrelationId, t: Terms)
    requires IsRun(events, states) && k <= |events| && id in states[k].calls && states[k].exited
    ensures Received(t, states[k].calls[id]).Some? <==> id !in states[k].abandoned
  {
    RunKeepsInv(events, states, k);
    assert CallInv(states[k], id);
  }

  /** `abandoned` is what its name says: the ID was removed at a moment when it was
      registered and uncompleted. */
  lemma {:induction false} AbandonedIff(events: seq<Event>, states: seq<State>, k: nat, id: CorrelationId)
    requires IsRun(events, states) && k <= |events|
    ensures id in states[k].abandoned <==>
            exists i :: 0 <= i < k && events[i] == RemoveId(id) && id in states[i].table &&
                !states[i].calls[id].completed
  {
    if k > 0 {
      AbandonedIff(events, states, k - 1, id);
      assert states[k] == Apply(states[k - 1], events[k - 1]);
    }
  }

  /** A call is removed only once it has been completed, or is registered no more. */
  ghost predicate RemovesOnlySettled(events: seq<Event>, states: seq<State>)
    requires IsRun(events, states)
  {
    forall i :: 0 <= i < |events| && events[i].RemoveId? && events[i].id in states[i].table ==>
                  states[i].calls[events[i].id].completed
  }

  /** Then every accepted call has something to receive once the loop has exited. */
  lemma EveryCallerAnswered(events: seq<Event>, states: seq<State>, k: nat, id: CorrelationId, t: Terms)
    requires IsRun(events, states) && RemovesOnlySettled(events, states)
    requires k <= |events| && id in states[k].calls && states[k].exited
    ensures Received(t, states[k].calls[id]).Some?
  {
    AbandonedIff(events, states, k, id);
    NoCallerLostAfterExit(events, states, k, id, t);
  }

  /** Calls are removed only by callers that have received their answer. */
  ghost predicate RemovesOnlyAnswered(events: seq<Event>, states: seq<State>, t: Terms)
    requires IsRun(events, states)
  {
    forall i :: 0 <= i < |events| && events[i].RemoveId? ==>
                  events[i].id in states[i].calls && Received(t, states[i].calls[events[i].id]).Some?
  }

  lemma AnsweredIsSettled(events: seq<Event>, states: seq<State>, t: Terms)
    requires IsRun(events, states) && RemovesOnlyAnswered(events, states, t)
    ensures RemovesOnlySettled(events, states)
  {
    forall i | 0 <= i < |events| && events[i].RemoveId? && events[i].id in states[i].table
      ensures states[i].calls[events[i].id].completed
    {
      RunKeepsInv(events, states, i);
      var c := states[i].calls[events[i].id];
      assert CallInv(states[i], events[i].id) && Enabled(states[i], events[i]);
      assert c.channel[0] in c.channel;
    }
  }

  /** Removing earlier can lose a caller: a run in which a call is accepted and sent, removed
      before any reply, and nothing is there to receive when the loop has exited. */
  lemma RemovedTooEarlyIsLost(deadline: int, group: int, now: int, t: Terms)
    ensures exists events: seq<Event>, states: seq<State> ::
              && IsRun(events, states) && |events| == 5 && states[5].exited
              && 1 in states[5].calls && Received(t, states[5].calls[1]) == None
  {
    var events := [Create, Accept(1, false, false, deadline, Sent(group), now), RemoveId(1), Stop, ExitLoop];
    var s1 := Apply(Init, events[0]);
    var s2 := Apply(s1, events[1]);
    var s3 := Apply(s2, events[2]);
    var s4 := Apply(s3, events[3]);
    var states := [Init, s1, s2, s3, s4, Apply(s4, events[4])];
    assert s2.table == {1} && s3.table == {} && s3.calls == map[1 := NewCall(false, false, deadline).(group := group)];
    assert IsRun(events, states);
  }

  lemma StepExtendsChannels(s: State, ev: Event, id: CorrelationId)
    requires Inv(s) && Enabled(s, ev) && id in s.calls
    ensures id in Apply(s, ev).calls && s.calls[id].channel <= Apply(s, ev).calls[id].channel
  {
    assert CallInv(s, id);
  }

  /** Channels are only ever appended to, and no invocation is forgotten. */
  lemma {:induction false} ChannelsOnlyGrow(events: seq<Event>, states: seq<State>, j: nat, k: nat, id: CorrelationId)
    requires IsRun(events, states) && j <= k <= |events| && id in states[j].calls
    ensures id in states[k].calls && states[j].calls[id].channel <= states[k].calls[id].channel
    decreases k
  {
    if j < k {
      ChannelsOnlyGrow(events, states, j, k - 1, id);
      RunKeepsInv(events, states, k - 1);
      StepExtendsChannels(states[k - 1], events[k - 1], id);
    }
  }

  /** What a caller can receive is decided once and for all by the first completion. */
  lemma FirstReplyStands(events: seq<Event>, states: seq<State>, j: nat, k: nat, id: CorrelationId, t: Terms)
    requires IsRun(events, states) && j <= k <= |events| && id in states[j].calls
    requires Received(t, states[j].calls[id]).Some?
    ensures id in states[k].calls && Received(t, states[k].calls[id]) == Received(t, states[j].calls[id])
  {
    ChannelsOnlyGrow(events, states, j, k, id);
  }

  /** A response or error for one ID touches the invocation created with it and no other;
      an uncompleted one gets exactly that reply, marked if its deadline has passed. */
  lemma ReplyReachesOnlyItsCall(events: seq<Event>, states: seq<State>, k: nat, t: Terms)
    requires IsRun(events, states) && k < |events| && events[k].Receive?
    ensures
      var s, s', id := states[k], states[k + 1], events[k].id;
      && s'.calls.Keys == s.calls.Keys
      && (forall i :: i in s.calls && i != id ==> s'.calls[i] == s.calls[i] && (i in s'.table <==> i in s.table))
      && (id in s.table && !s.calls[id].completed ==>
            match events[k].msg
            case PlainMessage(m) => Received(t, s'.calls[id]) == Some(Ok(m))
            case ErrorMessage(e) => Received(t, s'.calls[id]) ==
                Some(Fail(UnwrapError(t, if events[k].now > s.calls[id].deadline then NonRetryable(e, false) else e)))
            case EventMessage => s' == s)
      && (events[k].msg.EventMessage? ==> s' == s)
      && (id in s'.table <==> id in s.table && (events[k].msg.EventMessage? || s.calls[id].hasHandler))
  {
    RunKeepsInv(events, states, k);
    var s, id := states[k], events[k].id;
    assert id in s.calls ==> CallInv(s, id);
    assert states[k + 1] == Apply(states[k], events[k]);
  }

  /** After a lost group is handled by a running service, every invocation registered for
      it whose request has no event flag is completed, those without an event handler are
      gone from the table, and nothing else has changed. */
  lemma GroupLostCompletesItsGroup(events: seq<Event>, states: seq<State>, k: nat)
    requires IsRun(events, states) && k < |events| && events[k].GroupLost? && states[k].running
    ensures
      var s, s', g := states[k], states[k + 1], events[k].group;
      && s'.calls.Keys == s.calls.Keys
      && (forall id :: id in s.table && s.calls[id].group == g && !s.calls[id].eventRequest ==>
            s'.calls[id].completed && (id in s'.table <==> s.calls[id].hasHandler))
      && (forall id :: id in s.calls && !(id in s.table && s.calls[id].group == g && !s.calls[id].eventRequest) ==>
            s'.calls[id] == s.calls[id] && (id in s'.table <==> id in s.table))
  {
    assert states[k + 1] == Apply(states[k], events[k]);
  }

  lemma StepKeepsTerms(s: State, ev: Event, id: CorrelationId)
    requires Inv(s) && Enabled(s, ev) && id in s.calls
    ensures
      && id in Apply(s, ev).calls
      && (var c, c' := s.calls[id], Apply(s, ev).calls[id];
          c' == c.(completed := c'.completed, channel := c'.channel))
  {
  }

  /** A call keeps what it was accepted with, and the group it was sent over. */
  lemma {:induction false} AcceptedAs(events: seq<Event>, states: seq<State>, a: nat, k: nat)
    requires IsRun(events, states) && a < k <= |events| && events[a].Accept?
    ensures
      var ev := events[a];
      && ev.id in states[k].calls
      && (var c := states[k].calls[ev.id];
          && c.hasHandler == ev.hasHandler && c.eventRequest == ev.eventRequest && c.deadline == ev.deadline
          && c.group == if ev.sending.Sent? then ev.sending.group else 0)
    decreases k
  {
    RunKeepsInv(events, states, k - 1);
    assert Enabled(states[k - 1], events[k - 1]) && states[k] == Apply(states[k - 1], events[k - 1]);
    if a < k - 1 {
      AcceptedAs(events, states, a, k - 1);
      StepKeepsTerms(states[k - 1], events[k - 1], events[a].id);
    }
  }

  /** The lost-group law from the caller's side: a call sent over a connection that is then
      lost while the service runs has been completed, unless it was removed before or its
      request carries the event flag. */
  lemma SentOverLostGroupCompleted(events: seq<Event>, states: seq<State>, a: nat, k: nat)
    requires IsRun(events, states) && a < k < |events| && events[a].Accept? && events[k].GroupLost?
    requires events[a].sending == Sent(events[k].group) && !events[a].eventRequest
    requires states[k].running && events[a].id !in states[k].abandoned
    ensures events[a].id in states[k + 1].calls && states[k + 1].calls[events[a].id].completed
    ensures events[a].id in states[k + 1].table ==> events[a].hasHandler
  {
    var id := events[a].id;
    AcceptedAs(events, states, a, k);
    AcceptedAs(events, states, a, k + 1);
    RunKeepsInv(events, states, k);
    RunKeepsInv(events, states, k + 1);
    assert CallInv(states[k], id) && CallInv(states[k + 1], id);
    GroupLostCompletesItsGroup(events, states, k);
    var c := states[k].calls[id];
    if id !in states[k].table {
      assert c.channel[0] in c.channel;
    }
  }

  /** Calls with event handlers stay registered, however often they are answered, until they
      are removed or the loop exits. */
  lemma {:induction false} HandlerStaysRegistered(events: seq<Event>, states: seq<State>, j: nat, k: nat,
                                                  id: CorrelationId)
    requires IsRun(events, states) && j <= k <= |events| && !states[k].exited
    requires id in states[j].table && id in states[j].calls && states[j].calls[id].hasHandler
    requires forall i :: j <= i < k ==> events[i] != RemoveId(id)
    ensures id in states[k].table && id in states[k].calls && states[k].calls[id].hasHandler
    decreases k
  {
    if j < k {
      RunKeepsInv(events, states, k - 1);
      assert Enabled(states[k - 1], events[k - 1]) && states[k] == Apply(states[k - 1], events[k - 1]);
      HandlerStaysRegistered(events, states, j, k - 1, id);
    }
  }

  /** A removed call is gone from the table, and nothing else has changed there. */
  lemma RemovedIsGone(events: seq<Event>, states: seq<State>, k: nat, id: CorrelationId)
    requires IsRun(events, states) && k < |events| && events[k].RemoveId?
    ensures id in states[k + 1].table <==> id in states[k].table && id != events[k].id
    ensures states[k + 1].calls == states[k].calls
  {
    assert states[k + 1] == Apply(states[k], events[k]);
  }

  /** After `Stop` the loop can exit, at any time until it has. */
  lemma {:induction false} StopLetsLoopExit(events: seq<Event>, states: seq<State>, j: nat, k: nat)
    requires IsRun(events, states) && j < k <= |events| && events[j].Stop? && !states[k].exited
    ensures Enabled(states[k], ExitLoop)
    decreases k
  {
    RunKeepsInv(events, states, k - 1);
    assert states[k] == Apply(states[k - 1], events[k - 1]);
    if j < k - 1 {
      StopLetsLoopExit(events, states, j, k - 1);
    }
  }

  lemma StepCloses(s: State, ev: Event, id: CorrelationId)
    requires Inv(s) && Enabled(s, ev) && id in s.calls
    ensures id in Apply(s, ev).calls
    ensures HasClose(Apply(s, ev).calls[id]) <==> HasClose(s.calls[id]) || (ev.ExitLoop? && id in s.table)
  {
    assert CallInv(s, id);
  }

  /** Exit closes exactly the channels of the calls registered then. */
  lemma {:induction false} ClosedIffRegisteredAtExit(events: seq<Event>, states: seq<State>, k: nat, id: CorrelationId)
    requires IsRun(events, states) && k <= |events| && id in states[k].calls
    ensures HasClose(states[k].calls[id]) <==> exists i :: 0 <= i < k && events[i].ExitLoop? && id in states[i].table
    decreases k
  {
    if k > 0 {
      RunKeepsInv(events, states, k - 1);
      var s, ev := states[k - 1], events[k - 1];
      assert Enabled(s, ev) && states[k] == Apply(s, ev);
      if id in s.calls {
        ClosedIffRegisteredAtExit(events, states, k - 1, id);
        StepCloses(s, ev, id);
      } else {
        forall i | 0 <= i < k ensures !(events[i].ExitLoop? && id in states[i].table) {
          NotTableBeforeCalls(events, states, i, k - 1, id);
        }
      }
    }
  }

  lemma NotTableBeforeCalls(events: seq<Event>, states: seq<State>, i: nat, k: nat, id: CorrelationId)
    requires IsRun(events, states) && i <= k <= |events| && id !in states[k].calls
    ensures id !in states[i].table
  {
    RunKeepsInv(events, states, i);
    if id in states[i].calls {
      ChannelsOnlyGrow(events, states, i, k, id);
    }
  }

  /** The factory's next ID was never used by an accepted invocation. */
  lemma NewIdIsFresh(events: seq<Event>, states: seq<State>, k: nat)
    requires IsRun(events, states) && k <= |events|
    ensures states[k].next + 1 !in states[k].calls
  {
    RunKeepsInv(events, states, k);
    forall id | id in states[k].calls ensures id <= states[k].next {
      assert CallInv(states[k], id);
    }
  }
}
