/** The client of the debugging protocol, as the worker runs it: a table of requests in flight, updated
    in place by sends, responses, timers, aborts and a final close. */
module CdpClient {
  import opened Options
  import opened SurfaceBinding
  import opened CdpRequests

  class CdpClient {
    var pending: map<nat, Pending>
    var nextTicket: nat
    var armed: set<nat>
    var listeners: seq<Listener>
    var aborted: set<nat>
    var posted: seq<Posted>
    var settled: seq<Settlement>

    function State(): Client
      reads this
    {
      Client(pending, nextTicket, armed, listeners, aborted, posted, settled)
    }

    /** No request outlives its call, every promise is settled or pending, every cancel has its request. */
    ghost predicate Valid()
      reads this
    {
      Inv(State()) && NoOrphans(State())
    }

    constructor ()
      ensures Valid() && State() == NewClient()
    {
      pending, nextTicket, armed, listeners, aborted, posted, settled := map[], 0, {}, [], {}, [], [];
    }

    /** Delete from the table, clear the timer, remove the abort listener, settle the promise. */
    method SettlePending(ticket: nat, outcome: Outcome)
      modifies this
      ensures State() == Settle(old(State()), ticket, outcome)
    {
      pending := pending - {ticket};
      armed := armed - {ticket};
      listeners := WithoutTicket(listeners, ticket);
      settled := settled + [Settlement(ticket, outcome)];
    }

    method CancelRequest(ticket: nat, reason: Reason, posts: bool)
      modifies this
      ensures State() == CancelPending(old(State()), ticket, reason, posts)
    {
      if ticket !in pending {
        return;
      }
      if posts {
        posted := posted + [Cancel(ticket, pending[ticket].callId, pending[ticket].binding)];
      }
      SettlePending(ticket, Rejected(reason));
    }

    /** The request enters the table, with its timer and its abort listener. */
    method Open(context: Option<Context>, binding: Binding) returns (ticket: nat)
      modifies this
      ensures ticket == old(nextTicket)
      ensures State() == Opened(old(State()), context, binding)
    {
      ticket := nextTicket;
      nextTicket := nextTicket + 1;
      var callId := if context.Some? then OfCall(context.value.call) else Internal(ticket);
      var signal := if context.Some? then Some(context.value.signal) else None;
      armed := armed + {ticket};
      pending := pending[ticket := Pending(callId, binding, signal)];
      if context.Some? {
        listeners := listeners + [Listener(context.value.signal, ticket)];
      }
    }

    /** `posts` tells whether the port takes the message, which is posted last. */
    method Send(context: Option<Context>, binding: Binding, operation: int, posts: bool) returns (ticket: nat)
      requires Valid()
      modifies this
      ensures Valid()
      ensures ticket == old(nextTicket)
      ensures State() == CdpRequests.Send(old(State()), context, binding, operation, posts)
    {
      hide Inv, NoOrphans, Settle;
      ActKeepsInv(State(), SendRequest(context, binding, operation, posts));
      if context.Some? && context.value.signal in aborted {
        ticket := nextTicket;
        nextTicket := nextTicket + 1;
        settled := settled + [Settlement(ticket, Rejected(Cancelled))];
        return;
      }
      ticket := Open(context, binding);
      if posts {
        posted := posted + [Request(ticket, pending[ticket].callId, binding, operation)];
      } else {
        SettlePending(ticket, Rejected(PostFailed));
      }
    }

    method AcceptMessage(message: Message)
      requires Valid()
      modifies this
      ensures Valid()
      ensures State() == Accept(old(State()), message)
    {
      hide Inv, NoOrphans;
      ActKeepsInv(State(), Arrive(message));
      if !message.Response? || message.ticket !in pending {
        return;
      }
      var request := pending[message.ticket];
      if request.callId != message.callId {
        return;
      }
      if !SameBinding(request.binding, message.binding) {
        SettlePending(message.ticket, Rejected(Stale));
      } else if message.error.Some? {
        SettlePending(message.ticket, Rejected(Command(message.error.value)));
      } else {
        SettlePending(message.ticket, Resolved(message.result));
      }
    }

    method FireTimer(ticket: nat, posts: bool)
      requires Valid()
      modifies this
      ensures Valid()
      ensures State() == CancelPending(old(State()), ticket, TimedOut, posts)
    {
      hide Inv, NoOrphans;
      ActKeepsInv(State(), Fire(ticket, posts));
      CancelRequest(ticket, TimedOut, posts);
    }

    /** The signal of a call aborts and runs its listeners; posting fails for the tickets in `lost`. */
    method AbortCall(signal: nat, lost: set<nat>)
      requires Valid()
      modifies this
      ensures Valid()
      ensures State() == Abort(old(State()), signal, lost)
    {
      hide Inv, NoOrphans, CancelPending;
      ActKeepsInv(State(), AbortSignal(signal, lost));
      if signal in aborted {
        return;
      }
      aborted := aborted + {signal};
      var tickets := Listening(listeners, signal);
      ghost var start := State();
      while tickets != []
        invariant CancelAll(State(), tickets, lost) == CancelAll(start, Listening(start.listeners, signal), lost)
        decreases |tickets|
      {
        CancelRequest(tickets[0], Cancelled, tickets[0] !in lost);
        tickets := tickets[1..];
      }
    }

    /** Everything in flight is rejected, in the order it was sent. */
    method RejectAll()
      modifies this
      ensures State() == Stop(old(State()), old(nextTicket))
    {
      hide Settle;
      ghost var start := State();
      StopEmpties(start, nextTicket);
      var ticket, end := 0, nextTicket;
      while ticket < end
        invariant ticket <= end
        invariant State() == Stop(start, ticket)
      {
        if ticket in pending {
          SettlePending(ticket, Rejected(Stopped));
        }
        ticket := ticket + 1;
      }
    }

    method CloseClient()
      requires Valid()
      modifies this
      ensures Valid()
      ensures State() == Stop(old(State()), old(nextTicket))
      ensures pending == map[] && armed == {} && listeners == []
    {
      hide Inv, NoOrphans, Stop;
      ActKeepsInv(State(), Close);
      ClosedIsEmpty(State());
      RejectAll();
    }
  }
}
