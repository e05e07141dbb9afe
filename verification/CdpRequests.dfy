/** What the CDP client's operations do to the requests in flight, and what holds over every run. A request
    is a promise, a row of the table of requests in flight, a timer and, under a call, a listener of the
    abort signal of that call; it is posted before anything else can happen to it. Runs are sequences of
    sends, responses, timeouts, aborts and closes in any order, and a post may fail at any time. The
    histories of what was posted and of what was settled are part of the state. */
module CdpRequests {
  import opened Options
  import opened SurfaceBinding

  /** A command call: its id and the abort signal it runs under. */
  datatype Context = Context(call: nat, signal: nat)

  datatype CallId = OfCall(call: nat) | Internal(ticket: nat)

  datatype Reason = Cancelled | TimedOut | PostFailed | Stale | Command(error: int) | Stopped

  datatype Outcome = Resolved(result: int) | Rejected(reason: Reason)

  datatype Settlement = Settlement(ticket: nat, outcome: Outcome)

  datatype Pending = Pending(callId: CallId, binding: Binding, signal: Option<nat>)

  datatype Listener = Listener(signal: nat, ticket: nat)

  /** What left on the port. */
  datatype Posted =
    | Request(ticket: nat, callId: CallId, binding: Binding, operation: int)
    | Cancel(ticket: nat, callId: CallId, binding: Binding)

  /** What arrives on the port: a response carries an error or a result. */
  datatype Message =
    | Response(ticket: nat, callId: CallId, binding: Binding, error: Option<int>, result: int)
    | OtherMessage
    | Malformed

  /** Every call of `send` makes one promise, known by its ticket; the request id is drawn from it. */
  datatype Client = Client(
    pending: map<nat, Pending>,
    nextTicket: nat,
    armed: set<nat>,                 // timers that can still fire
    listeners: seq<Listener>,        // abort listeners, in the order they were added
    aborted: set<nat>,               // signals
    posted: seq<Posted>,
    settled: seq<Settlement>)        // every settlement of a promise, in order

  function NewClient(): Client {
    Client(map[], 0, {}, [], {}, [], [])
  }

  function WithoutTicket(listeners: seq<Listener>, ticket: nat): seq<Listener> {
    if listeners == [] then []
    else if listeners[0].ticket == ticket then WithoutTicket(listeners[1..], ticket)
    else [listeners[0]] + WithoutTicket(listeners[1..], ticket)
  }

  /** The request leaves the table, its timer is cleared, its abort listener removed, and its promise settles. */
  function Settle(s: Client, t: nat, outcome: Outcome): Client {
    s.(pending := s.pending - {t}, armed := s.armed - {t}, listeners := WithoutTicket(s.listeners, t),
       settled := s.settled + [Settlement(t, outcome)])
  }

  /** A pending request is cancelled: the main process is told, unless posting fails. */
  function CancelPending(s: Client, t: nat, reason: Reason, posts: bool): Client {
    if t !in s.pending then s
    else
      var p := s.pending[t];
      var u := if posts then s.(posted := s.posted + [Cancel(t, p.callId, p.binding)]) else s;
      Settle(u, t, Rejected(reason))
  }

  function Opened(s: Client, context: Option<Context>, binding: Binding): Client {
    var t := s.nextTicket;
    var callId := if context.Some? then OfCall(context.value.call) else Internal(t);
    var signal := if context.Some? then Some(context.value.signal) else None;
    s.(nextTicket := t + 1, pending := s.pending[t := Pending(callId, binding, signal)], armed := s.armed + {t},
       listeners := if context.Some? then s.listeners + [Listener(context.value.signal, t)] else s.listeners)
  }

  function Send(s: Client, context: Option<Context>, binding: Binding, operation: int, posts: bool): Client {
    var t := s.nextTicket;
    if context.Some? && context.value.signal in s.aborted then
      s.(nextTicket := t + 1, settled := s.settled + [Settlement(t, Rejected(Cancelled))])
    else
      var u := Opened(s, context, binding);
      if posts then u.(posted := u.posted + [Request(t, u.pending[t].callId, binding, operation)])
      else Settle(u, t, Rejected(PostFailed))
  }

  function Accept(s: Client, message: Message): Client {
    if !message.Response? || message.ticket !in s.pending then s
    else
      var p := s.pending[message.ticket];
      if p.callId != message.callId then s
      else
        Settle(s, message.ticket,
          if !SameBinding(p.binding, message.binding) then Rejected(Stale)
          else if message.error.Some? then Rejected(Command(message.error.value))
          else Resolved(message.result))
  }

  /** The tickets listening to a signal, in order. */
  function Listening(listeners: seq<Listener>, signal: nat): seq<nat> {
    if listeners == [] then []
    else if listeners[0].signal == signal then [listeners[0].ticket] + Listening(listeners[1..], signal)
    else Listening(listeners[1..], signal)
  }

  function CancelAll(s: Client, tickets: seq<nat>, lost: set<nat>): Client
    decreases |tickets|
  {
    if tickets == [] then s
    else CancelAll(CancelPending(s, tickets[0], Cancelled, tickets[0] !in lost), tickets[1..], lost)
  }

  /** A signal aborts: its listeners run in order. Posting fails for the tickets in `lost`. */
  function Abort(s: Client, signal: nat, lost: set<nat>): Client {
    if signal in s.aborted then s
    else CancelAll(s.(aborted := s.aborted + {signal}), Listening(s.listeners, signal), lost)
  }

  /** All that is pending below `n` is rejected, in the order it was sent. */
  function Stop(s: Client, n: nat): Client {
    if n == 0 then s
    else
      var u := Stop(s, n - 1);
      if n - 1 in u.pending then Settle(u, n - 1, Rejected(Stopped)) else u
  }

  datatype Action =
    | SendRequest(context: Option<Context>, binding: Binding, operation: int, posts: bool)
    | Arrive(message: Message)
    | Fire(ticket: nat, posts: bool)         // the timer of a request
    | AbortSignal(signal: nat, lost: set<nat>)
    | Close

  function Act(s: Client, a: Action): Client {
    match a
    case SendRequest(context, binding, operation, posts) => Send(s, context, binding, operation, posts)
    case Arrive(message) => Accept(s, message)
    case Fire(ticket, posts) => CancelPending(s, ticket, TimedOut, posts)
    case AbortSignal(signal, lost) => Abort(s, signal, lost)
    case Close => Stop(s, s.nextTicket)
  }

  function Acts(s: Client, actions: seq<Action>): Client
    decreases |actions|
  {
    if actions == [] then s else Act(Acts(s, actions[..|actions| - 1]), actions[|actions| - 1])
  }

  // ----- invariant

  predicate Has(settled: seq<Settlement>, t: nat) {
    exists i :: 0 <= i < |settled| && settled[i].ticket == t
  }

  /** Each promise made is pending or settled, never both, and never settled twice. */
  predicate Accounted(s: Client) {
    && (forall t :: t in s.pending ==> t < s.nextTicket && !Has(s.settled, t))
    && (forall t :: 0 <= t < s.nextTicket ==> t in s.pending || Has(s.settled, t))
    && (forall i :: 0 <= i < |s.settled| ==> s.settled[i].ticket < s.nextTicket)
    && (forall i, j :: 0 <= i < j < |s.settled| ==> s.settled[i].ticket != s.settled[j].ticket)
  }

  /** A timer and an abort listener live exactly as long as their request is pending. */
  predicate Tidy(s: Client) {
    && s.armed == s.pending.Keys
    && (forall i :: 0 <= i < |s.listeners| ==>
          s.listeners[i].ticket in s.pending && s.pending[s.listeners[i].ticket].signal == Some(s.listeners[i].signal))
    && (forall t :: t in s.pending && s.pending[t].signal.Some? ==> Listener(s.pending[t].signal.value, t) in s.listeners)
  }

  /** No request outlives the abort of its call. */
  predicate NoOrphans(s: Client) {
    forall t :: t in s.pending && s.pending[t].signal.Some? ==> s.pending[t].signal.value !in s.aborted
  }

  predicate Asked(posted: seq<Posted>, t: nat, callId: CallId, binding: Binding) {
    exists i :: 0 <= i < |posted| && posted[i].Request? && posted[i].ticket == t
      && posted[i].callId == callId && posted[i].binding == binding
  }

  predicate Told(posted: seq<Posted>, t: nat) {
    exists i :: 0 <= i < |posted| && posted[i].Cancel? && posted[i].ticket == t
  }

  /** A request is posted at most once, a cancel at most once, and a cancel after the request it names. */
  predicate WellPosted(posted: seq<Posted>) {
    && (forall i, j :: 0 <= i < j < |posted| && posted[i].ticket == posted[j].ticket ==>
          posted[i].Request? && posted[j].Cancel?)
    && (forall i :: 0 <= i < |posted| && posted[i].Cancel? ==>
          Asked(posted[..i], posted[i].ticket, posted[i].callId, posted[i].binding))
  }

  /** What is pending was posted and not cancelled; what was cancelled or never posted is settled. */
  predicate PostsMatch(s: Client) {
    && WellPosted(s.posted)
    && (forall i :: 0 <= i < |s.posted| ==> s.posted[i].ticket < s.nextTicket)
    && (forall t :: t in s.pending ==> Asked(s.posted, t, s.pending[t].callId, s.pending[t].binding) && !Told(s.posted, t))
  }

  predicate Inv(s: Client) {
    Accounted(s) && Tidy(s) && PostsMatch(s)
  }

  // ----- one step

  lemma {:induction false} WithoutTicketMeans(listeners: seq<Listener>, t: nat)
    ensures forall l :: l in WithoutTicket(listeners, t) <==> l in listeners && l.ticket != t
  {
    if listeners != [] {
      WithoutTicketMeans(listeners[1..], t);
      assert listeners == [listeners[0]] + listeners[1..];
    }
  }

  lemma {:induction false} ListeningMeans(listeners: seq<Listener>, signal: nat)
    ensures forall t :: t in Listening(listeners, signal) <==> Listener(signal, t) in listeners
  {
    if listeners != [] {
      ListeningMeans(listeners[1..], signal);
      assert listeners == [listeners[0]] + listeners[1..];
    }
  }

  lemma HasGrows(settled: seq<Settlement>, x: Settlement, t: nat)
    ensures Has(settled + [x], t) <==> Has(settled, t) || x.ticket == t
  {
    if Has(settled, t) {
      var i :| 0 <= i < |settled| && settled[i].ticket == t;
      assert (settled + [x])[i].ticket == t;
    }
    assert (settled + [x])[|settled|] == x;
  }

  /** Settling what is pending keeps the promises, the timers and the listeners in order. */
  lemma SettleKeeps(s: Client, t: nat, outcome: Outcome)
    requires Accounted(s) && Tidy(s) && t in s.pending
    ensures Accounted(Settle(s, t, outcome)) && Tidy(Settle(s, t, outcome))
  {
    WithoutTicketMeans(s.listeners, t);
    forall u: nat { HasGrows(s.settled, Settlement(t, outcome), u); }
    hide WithoutTicket;
  }

  lemma AskedGrows(posted: seq<Posted>, x: Posted, t: nat, callId: CallId, binding: Binding)
    ensures Asked(posted, t, callId, binding) ==> Asked(posted + [x], t, callId, binding)
    ensures Told(posted + [x], t) <==> Told(posted, t) || (x.Cancel? && x.ticket == t)
  {
    if Asked(posted, t, callId, binding) {
      var i :| 0 <= i < |posted| && posted[i].Request? && posted[i].ticket == t
        && posted[i].callId == callId && posted[i].binding == binding;
      assert (posted + [x])[i] == posted[i];
    }
    if Told(posted, t) {
      var i :| 0 <= i < |posted| && posted[i].Cancel? && posted[i].ticket == t;
      assert (posted + [x])[i] == posted[i];
    }
    assert (posted + [x])[|posted|] == x;
  }

  lemma WellPostedGrows(posted: seq<Posted>, x: Posted)
    requires WellPosted(posted)
    requires forall i :: 0 <= i < |posted| && posted[i].ticket == x.ticket ==> posted[i].Request? && x.Cancel?
    requires x.Cancel? ==> Asked(posted, x.ticket, x.callId, x.binding)
    ensures WellPosted(posted + [x])
  {
    var more := posted + [x];
    forall i | 0 <= i < |more| && more[i].Cancel? ensures Asked(more[..i], more[i].ticket, more[i].callId, more[i].binding) {
      assert more[..i] == posted[..i];
      assert posted[..|posted|] == posted;
    }
  }

  lemma SettleKeepsInv(s: Client, t: nat, outcome: Outcome)
    requires Inv(s) && t in s.pending
    ensures Inv(Settle(s, t, outcome))
  {
    SettleKeeps(s, t, outcome);
  }

  lemma PostedAside(s: Client, posted: seq<Posted>)
    requires Accounted(s) && Tidy(s)
    ensures Accounted(s.(posted := posted)) && Tidy(s.(posted := posted))
  {
    hide Has;
  }

  lemma NotToldMeans(posted: seq<Posted>, t: nat)
    requires !Told(posted, t)
    ensures forall i :: 0 <= i < |posted| && posted[i].ticket == t ==> posted[i].Request?
  {
  }

  /** A cancel for a pending request goes with its settlement. */
  lemma CancelMatches(s: Client, t: nat, posts: bool)
    requires PostsMatch(s) && Accounted(s) && t in s.pending
    ensures var x := Cancel(t, s.pending[t].callId, s.pending[t].binding);
      PostsMatch(s.(pending := s.pending - {t}, posted := s.posted + if posts then [x] else []))
  {
    hide Asked, Told, WellPosted;
    var x := Cancel(t, s.pending[t].callId, s.pending[t].binding);
    NotToldMeans(s.posted, t);
    WellPostedGrows(s.posted, x);
    forall u | u in s.pending { AskedGrows(s.posted, x, u, s.pending[u].callId, s.pending[u].binding); }
    assert s.posted + [] == s.posted;
  }

  lemma CancelKeepsInv(s: Client, t: nat, reason: Reason, posts: bool)
    requires Inv(s)
    ensures Inv(CancelPending(s, t, reason, posts))
  {
    hide Accounted, Tidy, Asked, Told, WellPosted;
    if t in s.pending {
      SettleKeeps(s, t, Rejected(reason));
      CancelMatches(s, t, posts);
      PostedAside(Settle(s, t, Rejected(reason)), CancelPending(s, t, reason, posts).posted);
      assert s.posted + [] == s.posted;
    }
  }

  /** The promise of a call that was aborted before is rejected at once. */
  lemma RefuseKeepsInv(s: Client, t: nat)
    requires Inv(s) && t == s.nextTicket
    ensures Inv(s.(nextTicket := t + 1, settled := s.settled + [Settlement(t, Rejected(Cancelled))]))
  {
    hide Asked, Told, WellPosted;
    forall u: nat { HasGrows(s.settled, Settlement(t, Rejected(Cancelled)), u); }
  }

  predicate OpensAs(u: Client, t: nat, binding: Binding, x: Posted) {
    x.Request? && x.ticket == t && t in u.pending && x.callId == u.pending[t].callId && x.binding == binding
  }

  lemma PostLeavesPromises(u: Client, x: Posted)
    requires Accounted(u) && Tidy(u)
    ensures Accounted(u.(posted := u.posted + [x])) && Tidy(u.(posted := u.posted + [x]))
  {
  }

  lemma PostMatches(s: Client, context: Option<Context>, binding: Binding, x: Posted)
    requires PostsMatch(s) && s.nextTicket !in s.pending && OpensAs(Opened(s, context, binding), s.nextTicket, binding, x)
    ensures var u := Opened(s, context, binding); PostsMatch(u.(posted := u.posted + [x]))
  {
    WellPostedGrows(s.posted, x);
    forall v | v in s.pending { AskedGrows(s.posted, x, v, s.pending[v].callId, s.pending[v].binding); }
    AskedGrows(s.posted, x, x.ticket, x.callId, binding);
    hide WellPosted;
    assert (s.posted + [x])[|s.posted|] == x;
  }

  /** The request of the promise that was just opened is posted. */
  lemma PostKeepsInv(s: Client, context: Option<Context>, binding: Binding, x: Posted)
    requires Inv(s) && OpensAs(Opened(s, context, binding), s.nextTicket, binding, x)
    ensures var u := Opened(s, context, binding); Inv(u.(posted := u.posted + [x]))
  {
    assert s.nextTicket !in s.pending;
    OpenedKeeps(s, context, binding);
    hide Accounted, Tidy, PostsMatch, Opened;
    PostLeavesPromises(Opened(s, context, binding), x);
    PostMatches(s, context, binding, x);
  }

  /** Posting failed: the promise that was just opened is rejected again, and nothing was posted. */
  lemma PostFailureKeepsInv(s: Client, context: Option<Context>, binding: Binding)
    requires Inv(s)
    ensures Inv(Settle(Opened(s, context, binding), s.nextTicket, Rejected(PostFailed)))
  {
    assert s.nextTicket !in s.pending;
    OpenedKeeps(s, context, binding);
    SettleKeeps(Opened(s, context, binding), s.nextTicket, Rejected(PostFailed));
    hide Accounted, Tidy, Asked, Told, WellPosted;
  }

  lemma SendKeepsInv(s: Client, context: Option<Context>, binding: Binding, operation: int, posts: bool)
    requires Inv(s)
    ensures Inv(Send(s, context, binding, operation, posts))
  {
    hide Inv, Settle;
    var t := s.nextTicket;
    if context.Some? && context.value.signal in s.aborted {
      RefuseKeepsInv(s, t);
    } else if posts {
      PostKeepsInv(s, context, binding, Request(t, Opened(s, context, binding).pending[t].callId, binding, operation));
    } else {
      PostFailureKeepsInv(s, context, binding);
    }
  }

  lemma OpenedKeeps(s: Client, context: Option<Context>, binding: Binding)
    requires Accounted(s) && Tidy(s)
    ensures Accounted(Opened(s, context, binding)) && Tidy(Opened(s, context, binding))
  {
  }

  lemma AcceptKeepsInv(s: Client, message: Message)
    requires Inv(s)
    ensures Inv(Accept(s, message))
  {
    if message.Response? && message.ticket in s.pending && s.pending[message.ticket].callId == message.callId {
      SettleKeepsInv(s, message.ticket, Accept(s, message).settled[|s.settled|].outcome);
    }
  }

  lemma {:induction false} CancelAllKeepsInv(s: Client, tickets: seq<nat>, lost: set<nat>)
    requires Inv(s)
    ensures var s' := CancelAll(s, tickets, lost);
      && Inv(s') && s'.aborted == s.aborted && s'.nextTicket == s.nextTicket
      && (forall t :: t in s'.pending ==> t in s.pending && s'.pending[t] == s.pending[t] && t !in tickets)
    decreases |tickets|
  {
    if tickets != [] {
      CancelKeepsInv(s, tickets[0], Cancelled, tickets[0] !in lost);
      CancelAllKeepsInv(CancelPending(s, tickets[0], Cancelled, tickets[0] !in lost), tickets[1..], lost);
    }
  }

  lemma AbortKeepsInv(s: Client, signal: nat, lost: set<nat>)
    requires Inv(s) && NoOrphans(s)
    ensures Inv(Abort(s, signal, lost)) && NoOrphans(Abort(s, signal, lost))
  {
    if signal !in s.aborted {
      CancelAllKeepsInv(s.(aborted := s.aborted + {signal}), Listening(s.listeners, signal), lost);
      ListeningMeans(s.listeners, signal);
    }
  }

  lemma {:induction false} StopEmpties(s: Client, n: nat)
    ensures var s' := Stop(s, n);
      && s'.posted == s.posted && s'.aborted == s.aborted && s'.nextTicket == s.nextTicket && s.settled <= s'.settled
      && (forall t :: t in s'.pending <==> t in s.pending && t >= n)
      && (forall t :: t in s'.pending ==> s'.pending[t] == s.pending[t])
      && forall i :: |s.settled| <= i < |s'.settled| ==> s'.settled[i].outcome == Rejected(Stopped)
  {
    if n > 0 {
      StopEmpties(s, n - 1);
    }
  }

  lemma {:induction false} StopKeepsInv(s: Client, n: nat)
    requires Inv(s)
    ensures Inv(Stop(s, n))
  {
    if n > 0 {
      StopKeepsInv(s, n - 1);
      hide Inv, Settle;
      if n - 1 in Stop(s, n - 1).pending {
        SettleKeepsInv(Stop(s, n - 1), n - 1, Rejected(Stopped));
      }
    }
  }

  lemma ActKeepsInv(s: Client, a: Action)
    requires Inv(s) && NoOrphans(s)
    ensures Inv(Act(s, a)) && NoOrphans(Act(s, a))
  {
    match a {
      case SendRequest(context, binding, operation, posts) => SendKeepsInv(s, context, binding, operation, posts);
      case Arrive(message) => AcceptKeepsInv(s, message);
      case Fire(ticket, posts) => CancelKeepsInv(s, ticket, TimedOut, posts);
      case AbortSignal(signal, lost) => AbortKeepsInv(s, signal, lost);
      case Close =>
        StopEmpties(s, s.nextTicket);
        StopKeepsInv(s, s.nextTicket);
    }
  }

  /** In every run. */
  lemma {:induction false} RunKeepsInv(actions: seq<Action>)
    ensures Inv(Acts(NewClient(), actions)) && NoOrphans(Acts(NewClient(), actions))
    decreases |actions|
  {
    if actions != [] {
      var before := actions[..|actions| - 1];
      RunKeepsInv(before);
      hide Inv, NoOrphans, Act;
      ActKeepsInv(Acts(NewClient(), before), actions[|actions| - 1]);
    }
  }

  // ----- over whole runs

  /** A promise settles in the very step in which its request leaves the table, and in no other. */
  lemma SettlesAsItLeaves(actions: seq<Action>, a: Action, t: nat)
    requires t in Acts(NewClient(), actions).pending
    ensures var s := Acts(NewClient(), actions);
      t !in Act(s, a).pending <==> Has(Act(s, a).settled, t)
  {
    RunKeepsInv(actions);
    ActKeepsInv(Acts(NewClient(), actions), a);
    ActExtends(Acts(NewClient(), actions), a);
    hide Acts, Act;
  }

  lemma {:induction false} CancelAllRejects(s: Client, tickets: seq<nat>, lost: set<nat>)
    ensures var s' := CancelAll(s, tickets, lost);
      && s.settled <= s'.settled && s.posted <= s'.posted && s.nextTicket == s'.nextTicket
      && forall i :: |s.settled| <= i < |s'.settled| ==> s'.settled[i].outcome == Rejected(Cancelled)
    decreases |tickets|
  {
    if tickets != [] {
      CancelAllRejects(CancelPending(s, tickets[0], Cancelled, tickets[0] !in lost), tickets[1..], lost);
    }
  }

  /** What has been settled or posted stays; a step resolves a promise only by accepting a response to it. */
  lemma ActExtends(s: Client, a: Action)
    ensures s.settled <= Act(s, a).settled && s.posted <= Act(s, a).posted && s.nextTicket <= Act(s, a).nextTicket
    ensures forall i :: |s.settled| <= i < |Act(s, a).settled| && Act(s, a).settled[i].outcome.Resolved? ==>
      var t := Act(s, a).settled[i].ticket;
      && t in s.pending
      && a == Arrive(Response(t, s.pending[t].callId, s.pending[t].binding, None, Act(s, a).settled[i].outcome.result))
  {
    match a {
      case AbortSignal(signal, lost) =>
        if signal !in s.aborted {
          CancelAllRejects(s.(aborted := s.aborted + {signal}), Listening(s.listeners, signal), lost);
        }
      case Close => StopEmpties(s, s.nextTicket);
      case SendRequest(_, _, _, _) =>
      case Arrive(_) =>
      case Fire(_, _) =>
    }
  }

  function CallIdOf(context: Option<Context>, t: nat): CallId {
    if context.Some? then OfCall(context.value.call) else Internal(t)
  }

  /** Ticket `t` was given out by a send of this call and binding. */
  predicate Origin(actions: seq<Action>, t: nat, callId: CallId, binding: Binding) {
    exists i :: 0 <= i < |actions| && actions[i].SendRequest? && Acts(NewClient(), actions[..i]).nextTicket == t
      && CallIdOf(actions[i].context, t) == callId && actions[i].binding == binding
  }

  lemma OriginGrows(before: seq<Action>, actions: seq<Action>, t: nat, callId: CallId, binding: Binding)
    requires before <= actions && Origin(before, t, callId, binding)
    ensures Origin(actions, t, callId, binding)
  {
    var i :| 0 <= i < |before| && before[i].SendRequest? && Acts(NewClient(), before[..i]).nextTicket == t
      && CallIdOf(before[i].context, t) == callId && before[i].binding == binding;
    assert before[..i] == actions[..i] && actions[i] == before[i];
  }

  /** What a step leaves pending was pending before, except the request it opens. */
  lemma ActPends(s: Client, a: Action, t: nat)
    requires Inv(s) && t in Act(s, a).pending
    ensures
      || (t in s.pending && Act(s, a).pending[t] == s.pending[t])
      || (&& a.SendRequest? && t == s.nextTicket
          && Act(s, a).pending[t].callId == CallIdOf(a.context, t) && Act(s, a).pending[t].binding == a.binding)
  {
    match a {
      case AbortSignal(signal, lost) =>
        if signal !in s.aborted {
          CancelAllKeepsInv(s.(aborted := s.aborted + {signal}), Listening(s.listeners, signal), lost);
        }
      case Close => StopEmpties(s, s.nextTicket);
      case SendRequest(_, _, _, _) =>
      case Arrive(_) =>
      case Fire(_, _) =>
    }
  }

  lemma {:induction false} PendingHasOrigin(actions: seq<Action>, t: nat)
    requires t in Acts(NewClient(), actions).pending
    ensures var p := Acts(NewClient(), actions).pending[t]; Origin(actions, t, p.callId, p.binding)
    decreases |actions|
  {
    var n := |actions| - 1;
    var before := actions[..n];
    var s := Acts(NewClient(), before);
    var p := Acts(NewClient(), actions).pending[t];
    RunKeepsInv(before);
    hide Inv, Act;
    ActPends(s, actions[n], t);
    if t in s.pending && p == s.pending[t] {
      PendingHasOrigin(before, t);
      OriginGrows(before, actions, t, p.callId, p.binding);
    }
  }

  /** A response without an error arrived for a request sent earlier, with its call id and its full binding. */
  ghost predicate Answered(actions: seq<Action>, t: nat, result: int) {
    exists j, callId, binding :: 0 <= j < |actions|
      && actions[j] == Arrive(Response(t, callId, binding, None, result)) && Origin(actions[..j], t, callId, binding)
  }

  /** In every run a promise resolves only with the result of such a response. */
  lemma {:induction false} ResolvedByItsOwnResponse(actions: seq<Action>, t: nat, result: int)
    requires Settlement(t, Resolved(result)) in Acts(NewClient(), actions).settled
    ensures Answered(actions, t, result)
    decreases |actions|
  {
    var n := |actions| - 1;
    var before := actions[..n];
    var s, s' := Acts(NewClient(), before), Acts(NewClient(), actions);
    hide Act;
    ActExtends(s, actions[n]);
    var i :| 0 <= i < |s'.settled| && s'.settled[i] == Settlement(t, Resolved(result));
    if i < |s.settled| {
      assert s.settled[i] == s'.settled[i];
      ResolvedByItsOwnResponse(before, t, result);
      var j, callId, binding :| 0 <= j < |before|
        && before[j] == Arrive(Response(t, callId, binding, None, result)) && Origin(before[..j], t, callId, binding);
      assert before[..j] == actions[..j] && actions[j] == before[j];
    } else {
      PendingHasOrigin(before, t);
    }
  }

  /** The cancels of a run: each names a request posted before it, with its call and binding, at most
      one names each request, and the promise it gives up is rejected. */
  lemma CancelsFollowRequests(actions: seq<Action>, k: nat)
    requires var posted := Acts(NewClient(), actions).posted; k < |posted| && posted[k].Cancel?
    ensures var s := Acts(NewClient(), actions); var c := s.posted[k];
      && Asked(s.posted[..k], c.ticket, c.callId, c.binding)
      && (forall j :: 0 <= j < |s.posted| && s.posted[j].Cancel? && s.posted[j].ticket == c.ticket ==> j == k)
      && (Settlement(c.ticket, Rejected(Cancelled)) in s.settled || Settlement(c.ticket, Rejected(TimedOut)) in s.settled)
  {
    RunKeepsInv(actions);
    RunJustifies(actions);
  }

  /** Every cancel stands for a rejection by cancellation or timeout. */
  predicate Justified(s: Client) {
    forall i :: 0 <= i < |s.posted| && s.posted[i].Cancel? ==>
      || Settlement(s.posted[i].ticket, Rejected(Cancelled)) in s.settled
      || Settlement(s.posted[i].ticket, Rejected(TimedOut)) in s.settled
  }

  lemma {:induction false} CancelAllJustifies(s: Client, tickets: seq<nat>, lost: set<nat>)
    requires Justified(s)
    ensures Justified(CancelAll(s, tickets, lost))
    decreases |tickets|
  {
    if tickets != [] {
      var next := CancelPending(s, tickets[0], Cancelled, tickets[0] !in lost);
      CancelJustifies(s, tickets[0], Cancelled, tickets[0] !in lost);
      CancelAllJustifies(next, tickets[1..], lost);
    }
  }

  lemma CancelJustifies(s: Client, t: nat, reason: Reason, posts: bool)
    requires Justified(s) && (reason == Cancelled || reason == TimedOut)
    ensures Justified(CancelPending(s, t, reason, posts))
  {
  }

  lemma ActJustifies(s: Client, a: Action)
    requires Justified(s)
    ensures Justified(Act(s, a))
  {
    ActExtends(s, a);
    assert forall x :: x in s.settled ==> x in Act(s, a).settled;
    match a {
      case AbortSignal(signal, lost) =>
        if signal !in s.aborted {
          CancelAllJustifies(s.(aborted := s.aborted + {signal}), Listening(s.listeners, signal), lost);
        }
      case Close => StopEmpties(s, s.nextTicket);
      case Fire(ticket, posts) => CancelJustifies(s, ticket, TimedOut, posts);
      case SendRequest(_, _, _, _) =>
      case Arrive(_) =>
    }
  }

  lemma {:induction false} RunJustifies(actions: seq<Action>)
    ensures Justified(Acts(NewClient(), actions))
    decreases |actions|
  {
    if actions != [] {
      RunJustifies(actions[..|actions| - 1]);
      hide Justified, Act;
      ActJustifies(Acts(NewClient(), actions[..|actions| - 1]), actions[|actions| - 1]);
    }
  }

  lemma ClosedIsEmpty(s: Client)
    requires Inv(s)
    ensures var s' := Stop(s, s.nextTicket); s'.pending == map[] && s'.armed == {} && s'.listeners == []
  {
    StopEmpties(s, s.nextTicket);
    StopKeepsInv(s, s.nextTicket);
    ListenersPend(Stop(s, s.nextTicket));
    hide Stop, PostsMatch;
  }

  lemma ListenersPend(s: Client)
    ensures Tidy(s) && s.pending == map[] ==> s.listeners == []
  {
    if Tidy(s) && s.listeners != [] {
      assert s.listeners[0].ticket in s.pending;
    }
  }

  /** Closing leaves nothing behind: every promise ever made is settled, no timer and no abort listener is left. */
  lemma CloseSettlesAll(actions: seq<Action>)
    ensures var s := Act(Acts(NewClient(), actions), Close);
      && s.pending == map[] && s.armed == {} && s.listeners == []
      && forall t :: 0 <= t < s.nextTicket ==> Has(s.settled, t)
  {
    RunKeepsInv(actions);
    var s := Acts(NewClient(), actions);
    ClosedIsEmpty(s);
    StopKeepsInv(s, s.nextTicket);
    hide Stop, PostsMatch, Acts;
  }

  // ----- what a message, a timer and a send do

  /** A response settles the promise it names, if it is pending under the call of the response: with the result,
      with the error of the page, or as stale when it comes from another binding. Anything else is ignored. */
  lemma ResponseDecides(s: Client, message: Message)
    requires Inv(s)
    ensures var s' := Act(s, Arrive(message));
      if message.Response? && message.ticket in s.pending && s.pending[message.ticket].callId == message.callId then
        var outcome :=
          if s.pending[message.ticket].binding != message.binding then Rejected(Stale)
          else if message.error.Some? then Rejected(Command(message.error.value))
          else Resolved(message.result);
        && s'.settled == s.settled + [Settlement(message.ticket, outcome)] && s'.pending == s.pending - {message.ticket}
        && s'.posted == s.posted
      else s' == s
  {
  }

  /** A timer that fires gives up its request, tells the main process if the port takes it, and no other. */
  lemma TimerDecides(s: Client, t: nat, posts: bool)
    requires t in s.pending
    ensures var s' := Act(s, Fire(t, posts));
      && s'.settled == s.settled + [Settlement(t, Rejected(TimedOut))] && s'.pending == s.pending - {t}
      && s'.posted == s.posted + if posts then [Cancel(t, s.pending[t].callId, s.pending[t].binding)] else []
  {
  }

  /** The send that drew the ticket was asked to post this operation, on this binding, for this call. */
  predicate AskedToPost(actions: seq<Action>, p: Posted)
    requires p.Request?
  {
    exists i :: 0 <= i < |actions| && actions[i].SendRequest? && actions[i].posts
      && Acts(NewClient(), actions[..i]).nextTicket == p.ticket && CallIdOf(actions[i].context, p.ticket) == p.callId
      && actions[i].binding == p.binding && actions[i].operation == p.operation
  }

  lemma {:induction false} CancelAllPosts(s: Client, tickets: seq<nat>, lost: set<nat>)
    ensures var after := CancelAll(s, tickets, lost).posted;
      s.posted <= after && forall i :: |s.posted| <= i < |after| ==> after[i].Cancel?
    decreases |tickets|
  {
    if tickets != [] {
      CancelAllPosts(CancelPending(s, tickets[0], Cancelled, tickets[0] !in lost), tickets[1..], lost);
    }
  }

  lemma {:induction false} StopPostsNothing(s: Client, n: nat)
    ensures Stop(s, n).posted == s.posted
  {
    if n > 0 {
      StopPostsNothing(s, n - 1);
    }
  }

  lemma ActPosts(s: Client, a: Action)
    ensures var after := Act(s, a).posted;
      && s.posted <= after
      && forall i :: |s.posted| <= i < |after| && after[i].Request? ==>
           && a.SendRequest? && a.posts
           && after[i] == Request(s.nextTicket, CallIdOf(a.context, s.nextTicket), a.binding, a.operation)
  {
    match a {
      case AbortSignal(signal, lost) =>
        CancelAllPosts(s.(aborted := s.aborted + {signal}), Listening(s.listeners, signal), lost);
      case Close => StopPostsNothing(s, s.nextTicket);
      case SendRequest(_, _, _, _) =>
      case Arrive(_) =>
      case Fire(_, _) =>
    }
  }

  /** In every run what is posted is what was asked for. */
  lemma {:induction false} RequestsAreAsked(actions: seq<Action>, k: nat)
    requires var posted := Acts(NewClient(), actions).posted; k < |posted| && posted[k].Request?
    ensures AskedToPost(actions, Acts(NewClient(), actions).posted[k])
    decreases |actions|
  {
    hide Act;
    var n := |actions| - 1;
    var before := actions[..n];
    var s, p := Acts(NewClient(), before), Acts(NewClient(), actions).posted[k];
    ActPosts(s, actions[n]);
    if k < |s.posted| {
      RequestsAreAsked(before, k);
      var i :| 0 <= i < |before| && before[i].SendRequest? && before[i].posts
        && Acts(NewClient(), before[..i]).nextTicket == p.ticket && CallIdOf(before[i].context, p.ticket) == p.callId
        && before[i].binding == p.binding && before[i].operation == p.operation;
      assert before[..i] == actions[..i] && actions[i] == before[i];
    } else {
      assert actions[..n] == before;
    }
  }

  /** A send under a live signal is pending with its timer and its listener, and posted last; a failing post
      rejects it, and under an aborted signal it is rejected at once. */
  lemma SendDecides(s: Client, context: Option<Context>, binding: Binding, operation: int, posts: bool)
    requires Inv(s)
    ensures var s', t := Act(s, SendRequest(context, binding, operation, posts)), s.nextTicket;
      && s'.nextTicket == t + 1
      && if context.Some? && context.value.signal in s.aborted then
           s'.settled == s.settled + [Settlement(t, Rejected(Cancelled))] && s'.pending == s.pending && s'.posted == s.posted
         else if !posts then
           s'.settled == s.settled + [Settlement(t, Rejected(PostFailed))] && s'.pending == s.pending && s'.posted == s.posted
         else
           && s'.settled == s.settled && t in s'.pending && t in s'.armed
           && s'.pending[t].binding == binding && s'.pending[t].callId == CallIdOf(context, t)
           && (context.Some? ==> Listener(context.value.signal, t) in s'.listeners)
           && s'.posted == s.posted + [Request(t, CallIdOf(context, t), binding, operation)]
  {
    assert s.nextTicket !in s.pending;
  }
}
