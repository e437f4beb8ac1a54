/** The invocation service itself: objects updated in place by the loop's handlers.
    Each handler is proved to take exactly the protocol's step. */
module InvocationService {
  import opened Wrappers
  import opened Errors
  import opened Invocations
  import P = InvocationProtocol

  type CorrelationId = P.CorrelationId

  class Impl {
    const id: CorrelationId
    const hasHandler: bool
    const eventRequest: bool
    const deadline: int
    var group: int
    var completed: bool
    var channel: seq<P.ChannelOp>

    function View(): P.Call
      reads this
    {
      P.Call(hasHandler, eventRequest, deadline, group, completed, channel)
    }

    constructor (id: CorrelationId, hasHandler: bool, eventRequest: bool, deadline: int)
      ensures this.id == id && View() == P.NewCall(hasHandler, eventRequest, deadline)
    {
      this.id, this.hasHandler, this.eventRequest, this.deadline := id, hasHandler, eventRequest, deadline;
      group, completed, channel := 0, false, [];
    }

    method Complete(reply: P.Reply)
      modifies this
      ensures View() == P.Completed(old(View()), reply)
    {
      if !completed {
        completed := true;
        channel := channel + [P.Send(reply)];
      }
    }

    method Close()
      modifies this
      ensures View() == P.Closed(old(View()))
    {
      channel := channel + [P.Close];
    }

    method SetGroup(group: int)
      modifies this
      ensures View() == old(View()).(group := group)
    {
      this.group := group;
    }
  }

  class Service {
    var invocations: map<CorrelationId, Impl>
    var running: bool
    var exited: bool
    // for specification: the protocol state, and every invocation accepted so far
    ghost var state: P.State
    ghost var accepted: map<CorrelationId, Impl>
    ghost var impls: set<Impl>

    ghost predicate Valid()
      reads this, impls
    {
      && state.running == running && state.exited == exited
      && state.table == invocations.Keys && invocations.Keys <= accepted.Keys && accepted.Keys == state.calls.Keys
      && (forall id :: id in invocations ==> invocations[id] == accepted[id])
      && (forall o :: o in impls ==> o.id in accepted && accepted[o.id] == o)
      && (forall id :: id in accepted ==>
          accepted[id] in impls && accepted[id].id == id && accepted[id].View() == state.calls[id])
    }

    /** The registered invocation an ID leads to, as a frame. */
    ghost function At(id: CorrelationId): set<Impl>
      reads this
    {
      if id in invocations then {invocations[id]} else {}
    }

    constructor ()
      ensures Valid() && state == P.Init && running && invocations == map[]
    {
      invocations, running, exited := map[], true, false;
      state, accepted, impls := P.Init, map[], {};
    }

    /** `Stop` only raises the flag; the loop may still take what is ready. */
    method Stop()
      requires Valid()
      modifies this`running, this`state
      ensures Valid() && state == P.Apply(old(state), P.Stop)
    {
      running := false;
      state := state.(running := false);
    }

    /** The loop takes an invocation from a request channel and hands it to a connection. */
    method SendInvocation(inv: Impl, sending: P.Sending, now: int)
      requires Valid() && inv.id !in accepted
      modifies this`invocations, this`accepted, this`impls, this`state, inv
      ensures Valid() && accepted == old(accepted)[inv.id := inv]
      ensures state == P.SendInvocation(old(state), inv.id, old(inv.View()), sending, now)
    {
      RegisterInvocation(inv);
      match sending {
        case NotSent(e) => HandleError(inv.id, e, now);
        case Sent(group) =>
          inv.SetGroup(group);
          state := state.(calls := state.calls[inv.id := inv.View()]);
      }
    }

    method RegisterInvocation(inv: Impl)
      requires Valid() && inv.id !in accepted
      modifies this`invocations, this`accepted, this`impls, this`state
      ensures Valid() && accepted == old(accepted)[inv.id := inv] && invocations == old(invocations)[inv.id := inv]
      ensures state == old(state).(calls := old(state).calls[inv.id := inv.View()],
          table := old(state).table + {inv.id})
    {
      invocations := invocations[inv.id := inv];
      accepted := accepted[inv.id := inv];
      impls := impls + {inv};
      state := state.(calls := state.calls[inv.id := inv.View()], table := state.table + {inv.id});
    }

    method HandleClientMessage(id: CorrelationId, msg: P.Incoming, now: int)
      requires Valid()
      modifies this`invocations, this`state, At(id)
      ensures Valid() && accepted == old(accepted)
      ensures state == P.HandleClientMessage(old(state), id, msg, now)
    {
      match msg {
        case ErrorMessage(e) => HandleError(id, e, now);
        case EventMessage =>
        case PlainMessage(m) => UnregisterAndComplete(id, P.Response(m));
      }
    }

    method HandleError(id: CorrelationId, e: Error, now: int)
      requires Valid()
      modifies this`invocations, this`state, At(id)
      ensures Valid() && accepted == old(accepted)
      ensures state == P.HandleError(old(state), id, e, now)
    {
      if id in invocations {
        UnregisterAndComplete(id, P.ErrorResponse(TimedError(e, now, invocations[id].deadline)));
      }
    }

    method UnregisterAndComplete(id: CorrelationId, reply: P.Reply)
      requires Valid()
      modifies this`invocations, this`state, At(id)
      ensures Valid() && accepted == old(accepted)
      ensures state == P.Settle(old(state), id, reply)
    {
      var inv := UnregisterInvocation(id);
      if inv != null {
        CompleteAccepted(inv, reply);
      }
    }

    method CompleteAccepted(inv: Impl, reply: P.Reply)
      requires Valid() && inv in impls
      modifies this`state, inv
      ensures Valid()
      ensures state == old(state).(calls := old(state).calls[inv.id := P.Completed(old(state).calls[inv.id], reply)])
    {
      inv.Complete(reply);
      state := state.(calls := state.calls[inv.id := P.Completed(state.calls[inv.id], reply)]);
    }

    /** Invocations with event handlers stay registered until they are removed explicitly. */
    method UnregisterInvocation(id: CorrelationId) returns (inv: Impl?)
      requires Valid()
      modifies this`invocations, this`state
      ensures Valid()
      ensures inv == if id in old(invocations) then old(invocations)[id] else null
      ensures state == old(state).(table := if inv != null && !inv.hasHandler then old(state).table - {id}
                                            else old(state).table)
    {
      inv := null;
      if id in invocations {
        inv := invocations[id];
        if !inv.hasHandler {
          invocations := invocations - {id};
          state := state.(table := state.table - {id});
        }
      }
    }

    method RemoveCorrelationId(id: CorrelationId)
      requires Valid()
      modifies this`invocations, this`state
      ensures Valid() && accepted == old(accepted) && state == P.Remove(old(state), id)
    {
      invocations := invocations - {id};
      state := P.Remove(state, id);
    }

    /** Go's `range` over the table visits, in any order, each entry that is still there
        when its turn comes, while `HandleError` deletes from the table. */
    method HandleGroupLost(group: int, e: Error, now: int)
      requires Valid()
      modifies this`invocations, this`state, impls
      ensures Valid() && accepted == old(accepted)
      ensures state == P.HandleGroupLost(old(state), group, e, now)
    {
      if !running {
        return;
      }
      var todo := invocations.Keys;
      while todo != {}
        invariant Valid() && accepted == old(accepted) && todo <= old(state).table
        invariant state == P.GroupLostBut(old(state), todo, group, e, now)
        decreases |todo|
      {
        var id := Pick(todo);
        P.GroupLostOneMore(old(state), todo, id, group, e, now);
        HandleIfInGroup(id, group, e, now);
        todo := todo - {id};
      }
    }

    method HandleIfInGroup(id: CorrelationId, group: int, e: Error, now: int)
      requires Valid() && id in invocations
      modifies this`invocations, this`state, At(id)
      ensures Valid() && accepted == old(accepted)
      ensures state == if P.Hit(old(state), id, group) then P.HandleError(old(state), id, e, now) else old(state)
    {
      if invocations[id].group == group && !invocations[id].eventRequest {
        HandleError(id, e, now);
      }
    }

    /** After the loop: close what is left and drop the table. */
    method CloseAll()
      requires Valid()
      modifies this`invocations, this`exited, this`state, impls
      ensures Valid() && accepted == old(accepted) && state == P.Exit(old(state))
    {
      CloseRegistered();
      invocations := map[];
      exited := true;
      state := state.(table := {}, exited := true);
    }

    method CloseRegistered()
      requires Valid()
      modifies this`state, impls
      ensures Valid() && state == P.ClosedBut(old(state), {})
    {
      var todo := invocations.Keys;
      while todo != {}
        invariant Valid() && todo <= old(state).table
        invariant state == P.ClosedBut(old(state), todo)
        decreases |todo|
      {
        var id := Pick(todo);
        P.ClosedOneMore(old(state), todo, id);
        CloseOne(id);
        todo := todo - {id};
      }
    }

    method CloseOne(id: CorrelationId)
      requires Valid() && id in invocations
      modifies this`state, At(id)
      ensures Valid()
      ensures state == old(state).(calls := old(state).calls[id := P.Closed(old(state).calls[id])])
    {
      invocations[id].Close();
      state := state.(calls := state.calls[id := P.Closed(state.calls[id])]);
    }
  }

  /** internal/cluster/invocation_factory.go: one atomic counter names all invocations. */
  class InvocationFactory {
    const timeout: int
    var nextCorrelationId: CorrelationId

    constructor (timeout: int)
      ensures this.timeout == timeout && nextCorrelationId == 0
    {
      this.timeout := timeout;
      nextCorrelationId := 0;
    }

    method NewInvocation(hasHandler: bool, eventRequest: bool, start: int) returns (inv: Impl)
      modifies this
      ensures nextCorrelationId == old(nextCorrelationId) + 1 && inv.id == nextCorrelationId
      ensures fresh(inv) && inv.View() == P.NewCall(hasHandler, eventRequest, start + timeout)
    {
      nextCorrelationId := nextCorrelationId + 1;
      inv := new Impl(nextCorrelationId, hasHandler, eventRequest, start + timeout);
    }
  }
}
