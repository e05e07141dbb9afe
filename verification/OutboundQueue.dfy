/** The outgoing path of a connection: two bounded queues, numbers given under one lock, and a writer
    that puts the messages back in order. Senders and the writer interleave step by step. */
module OutboundQueue {
  import opened Options

  const CONTROL_CAPACITY: nat := 48
  const EVENT_CAPACITY: nat := 64

  type Message = int

  datatype Numbered = Numbered(sequence: nat, message: Message)

  datatype Lane = Control | Events

  /** A send holds the sequence lock from taking its number to returning. */
  datatype Send =
    | Waiting(lane: Lane, message: Message)
    | Numbering(lane: Lane, message: Message)                   // holds the lock
    | Offering(lane: Lane, message: Message, sequence: nat)     // the counter is already raised
    | Refused(lane: Lane, message: Message)                     // full or closed: the counter must go back
    | Leaving                                                   // about to release the lock
    | Returned

  datatype Path = Path(
    nextSequence: nat,
    holder: Option<nat>,
    sends: map<nat, Send>,
    control: seq<Numbered>,
    events: seq<Numbered>,
    open: bool,                      // the writer still holds the receiving ends
    pending: map<nat, Message>,      // the writer's reorder buffer
    writerNext: nat,
    sink: seq<Message>,
    accepted: seq<Message>)          // every message a send accepted, in lock order

  function NewPath(): Path {
    Path(1, None, map[], [], [], true, map[], 1, [], [])
  }

  datatype Action =
    | Begin(thread: nat, lane: Lane, message: Message)
    | Proceed(thread: nat)
    | Take(lane: Lane)               // the writer receives from a queue
    | Flush(delivered: bool)         // the writer sends the next number, or the socket fails

  function Queue(s: Path, lane: Lane): seq<Numbered> {
    if lane.Control? then s.control else s.events
  }

  function Capacity(lane: Lane): nat {
    if lane.Control? then CONTROL_CAPACITY else EVENT_CAPACITY
  }

  function SetQueue(s: Path, lane: Lane, queue: seq<Numbered>): Path {
    if lane.Control? then s.(control := queue) else s.(events := queue)
  }

  function Proceeded(s: Path, t: nat): Path
    requires t in s.sends
  {
    match s.sends[t]
    case Waiting(lane, message) =>
      if s.holder == None then s.(holder := Some(t), sends := s.sends[t := Numbering(lane, message)]) else s
    case Numbering(lane, message) =>
      s.(nextSequence := s.nextSequence + 1, sends := s.sends[t := Offering(lane, message, s.nextSequence)])
    case Offering(lane, message, sequence) =>
      if s.open && |Queue(s, lane)| < Capacity(lane) then
        SetQueue(s, lane, Queue(s, lane) + [Numbered(sequence, message)])
          .(sends := s.sends[t := Leaving], accepted := s.accepted + [message])
      else s.(sends := s.sends[t := Refused(lane, message)])
    case Refused(lane, message) =>
      s.(nextSequence := if s.nextSequence > 0 then s.nextSequence - 1 else 0, sends := s.sends[t := Leaving])
    case Leaving => s.(holder := None, sends := s.sends[t := Returned])
    case Returned => s
  }

  /** One step; a step that is not enabled changes nothing. */
  function Act(s: Path, a: Action): Path {
    match a
    case Begin(t, lane, message) =>
      if t in s.sends then s else s.(sends := s.sends[t := Waiting(lane, message)])
    case Proceed(t) => if t in s.sends then Proceeded(s, t) else s
    case Take(lane) =>
      // the writer looks at a queue only when the next number is not in its buffer
      if s.open && s.writerNext !in s.pending && Queue(s, lane) != [] then
        var first := Queue(s, lane)[0];
        SetQueue(s, lane, Queue(s, lane)[1..]).(pending := s.pending[first.sequence := first.message])
      else s
    case Flush(delivered) =>
      if s.open && s.writerNext in s.pending then
        var message := s.pending[s.writerNext];
        if delivered then
          s.(pending := s.pending - {s.writerNext}, sink := s.sink + [message], writerNext := s.writerNext + 1)
        else s.(open := false, pending := s.pending - {s.writerNext})
      else s
  }

  function Acts(s: Path, actions: seq<Action>): Path
    decreases |actions|
  {
    if actions == [] then s else Acts(Act(s, actions[0]), actions[1..])
  }

  // ----- invariant

  predicate HoldsLock(p: Send) {
    p.Numbering? || p.Offering? || p.Refused? || p.Leaving?
  }

  /** Every number carries the message accepted under it and is still to be delivered. */
  predicate Owed(s: Path, n: Numbered) {
    |s.sink| < n.sequence <= |s.accepted| && s.accepted[n.sequence - 1] == n.message
  }

  predicate Counted(s: Path) {
    match s.holder
    case None => s.nextSequence == |s.accepted| + 1
    case Some(t) =>
      && t in s.sends && HoldsLock(s.sends[t])
      && (match s.sends[t]
          case Offering(_, _, sequence) => sequence == |s.accepted| + 1 && s.nextSequence == |s.accepted| + 2
          case Refused(_, _) => s.nextSequence == |s.accepted| + 2
          case _ => s.nextSequence == |s.accepted| + 1)
  }

  /** A number still to be delivered is in a queue or in the buffer. */
  predicate Somewhere(s: Path, k: nat) {
    || k in s.pending
    || (exists i :: 0 <= i < |s.control| && s.control[i].sequence == k)
    || (exists i :: 0 <= i < |s.events| && s.events[i].sequence == k)
  }

  predicate Increasing(q: seq<Numbered>) {
    forall i, j :: 0 <= i < j < |q| ==> q[i].sequence < q[j].sequence
  }

  /** No number is in two places. */
  predicate Apart(s: Path) {
    && (forall i :: 0 <= i < |s.control| ==> s.control[i].sequence !in s.pending)
    && (forall i :: 0 <= i < |s.events| ==> s.events[i].sequence !in s.pending)
    && (forall i, j :: 0 <= i < |s.control| && 0 <= j < |s.events| ==> s.control[i].sequence != s.events[j].sequence)
  }

  /** What the queues and the buffer hold. */
  predicate Stored(s: Path) {
    && (forall i :: 0 <= i < |s.control| ==> Owed(s, s.control[i]))
    && (forall i :: 0 <= i < |s.events| ==> Owed(s, s.events[i]))
    && (forall k :: k in s.pending ==> Owed(s, Numbered(k, s.pending[k])))
    && Increasing(s.control) && Increasing(s.events) && Apart(s)
    && |s.control| <= CONTROL_CAPACITY && |s.events| <= EVENT_CAPACITY
  }

  ghost predicate Complete(s: Path) {
    s.open ==> forall k :: |s.sink| < k <= |s.accepted| ==> Somewhere(s, k)
  }

  predicate Locking(s: Path) {
    && Counted(s)
    && (forall t :: t in s.sends ==> (HoldsLock(s.sends[t]) <==> s.holder == Some(t)))
  }

  ghost predicate Inv(s: Path) {
    && Locking(s) && s.sink <= s.accepted && s.writerNext == |s.sink| + 1
    && Stored(s) && Complete(s)
  }

  lemma ControlAccepts(s: Path, s': Path, message: Message)
    requires Stored(s) && |s.sink| <= |s.accepted| && |s.control| < CONTROL_CAPACITY
    requires s'.control == s.control + [Numbered(|s.accepted| + 1, message)] && s'.events == s.events
    requires s'.accepted == s.accepted + [message] && s'.pending == s.pending && s'.sink == s.sink
    ensures Stored(s')
  {
    forall n | Owed(s, n) ensures Owed(s', n) {
    }
  }

  lemma EventsAccept(s: Path, s': Path, message: Message)
    requires Stored(s) && |s.sink| <= |s.accepted| && |s.events| < EVENT_CAPACITY
    requires s'.events == s.events + [Numbered(|s.accepted| + 1, message)] && s'.control == s.control
    requires s'.accepted == s.accepted + [message] && s'.pending == s.pending && s'.sink == s.sink
    ensures Stored(s')
  {
    forall n | Owed(s, n) ensures Owed(s', n) {
    }
  }

  lemma OfferKeepsInv(s: Path, t: nat)
    requires Inv(s) && t in s.sends && s.sends[t].Offering?
    ensures Inv(Proceeded(s, t))
  {
    var s' := Proceeded(s, t);
    assert s.holder == Some(t);
    if s'.accepted != s.accepted {
      var lane, message := s.sends[t].lane, s.sends[t].message;
      var n := |s'.accepted|;
      assert Queue(s', lane)[|Queue(s, lane)|].sequence == n;
      assert Complete(s') by {
        hide Stored, Locking;
        forall k | |s'.sink| < k <= |s'.accepted| && s'.open ensures Somewhere(s', k) {
          if k < n {
            assert Somewhere(s, k);
            StaysSomewhere(s, s', k);
          }
        }
      }
      hide Stored, Complete;
      if lane.Control? {
        ControlAccepts(s, s', message);
      } else {
        EventsAccept(s, s', message);
      }
    } else {
      StoredElsewhere(s, s');
    }
  }

  /** Steps of the lock and the counter leave the queues, the buffer and the sink alone. */
  lemma StoredElsewhere(s: Path, s': Path)
    requires Stored(s) && Complete(s)
    requires s'.control == s.control && s'.events == s.events && s'.pending == s.pending
    requires s'.accepted == s.accepted && s'.sink == s.sink && s'.open == s.open
    ensures Stored(s') && Complete(s')
  {
    forall n | Owed(s, n) ensures Owed(s', n) {
    }
    forall k | |s'.sink| < k <= |s'.accepted| && s'.open ensures Somewhere(s', k) {
      assert Somewhere(s, k);
      StaysSomewhere(s, s', k);
    }
  }

  /** Appending to the queues loses no number. */
  lemma StaysSomewhere(s: Path, s': Path, k: nat)
    requires Somewhere(s, k) && s.control <= s'.control && s.events <= s'.events && s.pending == s'.pending
    ensures Somewhere(s', k)
  {
    if i :| 0 <= i < |s.control| && s.control[i].sequence == k {
      assert s'.control[i].sequence == k;
    }
    if i :| 0 <= i < |s.events| && s.events[i].sequence == k {
      assert s'.events[i].sequence == k;
    }
  }

  lemma ProceedKeepsInv(s: Path, t: nat)
    requires Inv(s) && t in s.sends
    ensures Inv(Proceeded(s, t))
  {
    hide Stored, Complete;
    if s.sends[t].Offering? {
      OfferKeepsInv(s, t);
    } else {
      StoredElsewhere(s, Proceeded(s, t));
    }
  }

  /** Dropping the head of a queue leaves it in order. */
  lemma TailIncreases(q: seq<Numbered>)
    requires Increasing(q) && q != []
    ensures Increasing(q[1..]) && forall i :: 0 <= i < |q| - 1 ==> q[1..][i] == q[i + 1]
    ensures forall i :: 0 <= i < |q| - 1 ==> q[1..][i].sequence != q[0].sequence
  {
  }

  lemma TakeKeepsStored(s: Path, lane: Lane)
    requires Stored(s) && s.open && s.writerNext !in s.pending && Queue(s, lane) != []
    ensures Stored(Act(s, Take(lane)))
  {
    var s' := Act(s, Take(lane));
    TailIncreases(Queue(s, lane));
    hide Increasing;
    assert Owed(s, Queue(s, lane)[0]);
    forall n | Owed(s, n) ensures Owed(s', n) {
    }
    match lane
    case Control => assert s'.control == s.control[1..] && s'.events == s.events;
    case Events => assert s'.events == s.events[1..] && s'.control == s.control;
  }

  lemma TakeKeepsComplete(s: Path, lane: Lane)
    requires Complete(s) && s.open && s.writerNext !in s.pending && Queue(s, lane) != []
    ensures Complete(Act(s, Take(lane)))
  {
    var s' := Act(s, Take(lane));
    var q, q' := Queue(s, lane), Queue(s', lane);
    assert forall i :: 0 <= i < |q'| ==> q'[i] == q[i + 1];
    forall k | |s'.sink| < k <= |s'.accepted| ensures Somewhere(s', k) {
      assert Somewhere(s, k);
      if i :| 0 <= i < |q| && q[i].sequence == k {
        if i > 0 {
          assert q'[i - 1].sequence == k;
        }
      }
    }
  }

  lemma FlushKeepsInv(s: Path, delivered: bool)
    requires Inv(s) && s.open && s.writerNext in s.pending
    ensures Inv(Act(s, Flush(delivered)))
  {
    var s' := Act(s, Flush(delivered));
    assert Owed(s, Numbered(s.writerNext, s.pending[s.writerNext]));
    assert s'.sink <= s'.accepted;
    forall n | Owed(s, n) && n.sequence != s.writerNext ensures Owed(s', n) {
    }
    assert Stored(s');
    hide Stored;
    forall k | |s'.sink| < k <= |s'.accepted| && s'.open ensures Somewhere(s', k) {
      assert Somewhere(s, k);
    }
  }

  lemma ActKeepsInv(s: Path, a: Action)
    requires Inv(s)
    ensures Inv(Act(s, a))
  {
    hide Stored, Complete;
    match a {
      case Begin(t, lane, message) => StoredElsewhere(s, Act(s, a));
      case Proceed(t) => if t in s.sends { ProceedKeepsInv(s, t); }
      case Take(lane) =>
        if Act(s, a) != s {
          TakeKeepsStored(s, lane);
          TakeKeepsComplete(s, lane);
        }
      case Flush(delivered) => if Act(s, a) != s { FlushKeepsInv(s, delivered); }
    }
  }

  lemma {:induction false} ReachableInv(s: Path, actions: seq<Action>)
    requires Inv(s)
    ensures Inv(Acts(s, actions))
    decreases |actions|
  {
    hide Act, Inv;
    if actions != [] {
      ActKeepsInv(s, actions[0]);
      ReachableInv(Act(s, actions[0]), actions[1..]);
    }
  }

  // ----- the theorems

  /** One queue, from the sender's side: whenever the lock is free the counter is one past the number
      of accepted messages, however many sends were refused; and whatever is queued or buffered under a
      number is the message accepted under it. */
  lemma NumbersHaveNoHoles(actions: seq<Action>)
    ensures var s := Acts(NewPath(), actions);
      && (s.holder == None ==> s.nextSequence == |s.accepted| + 1)
      && (forall i :: 0 <= i < |s.control| ==> Owed(s, s.control[i]))
      && (forall i :: 0 <= i < |s.events| ==> Owed(s, s.events[i]))
      && (s.open ==> forall k :: |s.sink| < k <= |s.accepted| ==> Somewhere(s, k))
  {
    hide Acts;
    ReachableInv(NewPath(), actions);
  }

  /** Nothing is stranded: with both queues drained, either everything accepted has been delivered or
      the writer has the next message at hand. */
  lemma NothingStranded(actions: seq<Action>)
    ensures var s := Acts(NewPath(), actions);
      s.open && s.control == [] && s.events == [] ==>
        || s.sink == s.accepted
        || (|s.sink| < |s.accepted| && s.writerNext in s.pending && s.pending[s.writerNext] == s.accepted[|s.sink|])
  {
    ReachableInv(NewPath(), actions);
    var s := Acts(NewPath(), actions);
    if s.open && s.control == [] && s.events == [] && |s.sink| < |s.accepted| {
      assert Somewhere(s, |s.sink| + 1);
      assert Owed(s, Numbered(s.writerNext, s.pending[s.writerNext]));
    }
  }

  // ----- what the senders handed over

  /** The first `Begin` of a thread is the send it makes. */
  ghost predicate Begun(actions: seq<Action>, t: nat, lane: Lane, message: Message) {
    exists i :: 0 <= i < |actions| && actions[i] == Begin(t, lane, message)
      && forall j :: 0 <= j < i ==> !(actions[j].Begin? && actions[j].thread == t)
  }

  lemma BegunOnce(actions: seq<Action>, t: nat, a: Lane, m: Message, b: Lane, n: Message)
    requires Begun(actions, t, a, m) && Begun(actions, t, b, n)
    ensures a == b && m == n
  {
    var i :| 0 <= i < |actions| && actions[i] == Begin(t, a, m)
      && forall j :: 0 <= j < i ==> !(actions[j].Begin? && actions[j].thread == t);
    var k :| 0 <= k < |actions| && actions[k] == Begin(t, b, n)
      && forall j :: 0 <= j < k ==> !(actions[j].Begin? && actions[j].thread == t);
    assert actions[i].Begin? && actions[k].Begin?;
    assert i == k;
  }

  lemma BegunLater(actions: seq<Action>, a: Action, t: nat, lane: Lane, message: Message)
    requires Begun(actions, t, lane, message)
    ensures Begun(actions + [a], t, lane, message)
  {
    var i :| 0 <= i < |actions| && actions[i] == Begin(t, lane, message)
      && forall j :: 0 <= j < i ==> !(actions[j].Begin? && actions[j].thread == t);
    var longer := actions + [a];
    assert longer[i] == Begin(t, lane, message);
  }

  lemma BegunNow(actions: seq<Action>, t: nat, lane: Lane, message: Message)
    requires forall j :: 0 <= j < |actions| ==> !(actions[j].Begin? && actions[j].thread == t)
    ensures Begun(actions + [Begin(t, lane, message)], t, lane, message)
  {
    var longer := actions + [Begin(t, lane, message)];
    assert longer[|actions|] == Begin(t, lane, message);
  }

  lemma {:induction false} ActsLast(s: Path, actions: seq<Action>, a: Action)
    ensures Acts(s, actions + [a]) == Act(Acts(s, actions), a)
    decreases |actions|
  {
    if actions == [] {
      assert (actions + [a])[1..] == [];
    } else {
      assert (actions + [a])[1..] == actions[1..] + [a];
      ActsLast(Act(s, actions[0]), actions[1..], a);
    }
  }

  /** The message a send in progress carries is the one its thread began with. */
  ghost predicate Carrying(actions: seq<Action>, s: Path) {
    && (forall t :: t in s.sends && !s.sends[t].Leaving? && !s.sends[t].Returned? ==>
          Begun(actions, t, s.sends[t].lane, s.sends[t].message))
    && (forall i :: 0 <= i < |actions| && actions[i].Begin? ==> actions[i].thread in s.sends)
  }

  /** `senders` and `lanes` say who sent each accepted message, and on which lane. */
  ghost predicate SentBy(actions: seq<Action>, s: Path, senders: seq<nat>, lanes: seq<Lane>) {
    && |senders| == |lanes| == |s.accepted|
    && (forall i :: 0 <= i < |senders| ==> Begun(actions, senders[i], lanes[i], s.accepted[i]))
    && (forall i, j :: 0 <= i < j < |senders| ==> senders[i] != senders[j])
    && (forall i :: 0 <= i < |senders| ==>
          senders[i] in s.sends && (s.sends[senders[i]].Leaving? || s.sends[senders[i]].Returned?))
  }

  /** A queue holds messages sent on its lane. */
  predicate OnLane(lanes: seq<Lane>, queue: seq<Numbered>, lane: Lane) {
    forall i :: 0 <= i < |queue| ==> 1 <= queue[i].sequence <= |lanes| && lanes[queue[i].sequence - 1] == lane
  }

  /** No step changes what a send in progress carries, and only `Begin` starts one. */
  lemma SendsKeep(s: Path, a: Action, t: nat)
    requires t in Act(s, a).sends && !Act(s, a).sends[t].Leaving? && !Act(s, a).sends[t].Returned?
    ensures if t in s.sends then
        && !s.sends[t].Leaving? && !s.sends[t].Returned?
        && Act(s, a).sends[t].lane == s.sends[t].lane && Act(s, a).sends[t].message == s.sends[t].message
      else a.Begin? && a.thread == t && Act(s, a).sends[t] == Waiting(a.lane, a.message)
  {
  }

  lemma CarryingStep(actions: seq<Action>, s: Path, a: Action)
    requires Carrying(actions, s)
    ensures Carrying(actions + [a], Act(s, a))
  {
    assert forall t :: t in s.sends ==> t in Act(s, a).sends;
    assert a.Begin? ==> a.thread in Act(s, a).sends;
    hide Act, Begun;
    var s' := Act(s, a);
    forall t | t in s'.sends && !s'.sends[t].Leaving? && !s'.sends[t].Returned?
      ensures Begun(actions + [a], t, s'.sends[t].lane, s'.sends[t].message)
    {
      SendsKeep(s, a, t);
      if t in s.sends {
        BegunLater(actions, a, t, s.sends[t].lane, s.sends[t].message);
      } else {
        BegunNow(actions, t, a.lane, a.message);
      }
    }
  }

  /** An offer is accepted exactly when the path is open and the queue of the lane has room; then it stands at
      the end of that queue under the next number. */
  lemma OfferDecides(s: Path, t: nat)
    requires Inv(s) && t in s.sends && s.sends[t].Offering?
    ensures var s', lane, message := Act(s, Proceed(t)), s.sends[t].lane, s.sends[t].message;
      && s'.sink == s.sink && s'.pending == s.pending && s'.open == s.open
      && if s.open && |Queue(s, lane)| < (match lane case Control => 48 case Events => 64) then
           && s'.accepted == s.accepted + [message] && s'.sends[t] == Leaving
           && (match lane
               case Control => s'.control == s.control + [Numbered(|s'.accepted|, message)] && s'.events == s.events
               case Events => s'.events == s.events + [Numbered(|s'.accepted|, message)] && s'.control == s.control)
         else s'.accepted == s.accepted && s'.control == s.control && s'.events == s.events && s'.sends[t].Refused?
  {
    hide Stored, Complete;
    assert s.holder == Some(t);
  }

  lemma TailOnLane(lanes: seq<Lane>, queue: seq<Numbered>, lane: Lane)
    requires OnLane(lanes, queue, lane) && queue != []
    ensures OnLane(lanes, queue[1..], lane)
  {
  }

  lemma LongerOnLane(lanes: seq<Lane>, more: Lane, queue: seq<Numbered>, lane: Lane)
    requires OnLane(lanes, queue, lane)
    ensures OnLane(lanes + [more], queue, lane)
  {
  }

  lemma SendersKept(actions: seq<Action>, s: Path, senders: seq<nat>, lanes: seq<Lane>, a: Action)
    requires SentBy(actions, s, senders, lanes) && Act(s, a).accepted == s.accepted
    ensures SentBy(actions + [a], Act(s, a), senders, lanes)
  {
    hide Begun;
    forall i | 0 <= i < |senders| ensures Begun(actions + [a], senders[i], lanes[i], s.accepted[i]) {
      BegunLater(actions, a, senders[i], lanes[i], s.accepted[i]);
    }
    assert forall t :: t in s.sends && (s.sends[t].Leaving? || s.sends[t].Returned?) ==>
      t in Act(s, a).sends && (Act(s, a).sends[t].Leaving? || Act(s, a).sends[t].Returned?);
  }

  lemma SendersGrow(actions: seq<Action>, s: Path, s': Path, senders: seq<nat>, lanes: seq<Lane>, a: Action,
                    t: nat, lane: Lane, message: Message)
    requires SentBy(actions, s, senders, lanes) && Begun(actions, t, lane, message)
    requires t in s.sends && s.sends[t].Offering? && s'.sends == s.sends[t := Leaving]
    requires s'.accepted == s.accepted + [message]
    ensures SentBy(actions + [a], s', senders + [t], lanes + [lane])
  {
    hide Begun;
    forall i | 0 <= i < |senders| ensures Begun(actions + [a], senders[i], lanes[i], s.accepted[i]) {
      BegunLater(actions, a, senders[i], lanes[i], s.accepted[i]);
    }
    BegunLater(actions, a, t, lane, message);
  }

  lemma QueuesStayOnLane(s: Path, lanes: seq<Lane>, a: Action)
    requires OnLane(lanes, s.control, Control) && OnLane(lanes, s.events, Events)
    requires Act(s, a).accepted == s.accepted
    ensures OnLane(lanes, Act(s, a).control, Control) && OnLane(lanes, Act(s, a).events, Events)
  {
    hide OnLane;
    if a.Take? && Queue(s, a.lane) != [] {
      TailOnLane(lanes, Queue(s, a.lane), a.lane);
    }
    if a.Proceed? && a.thread in s.sends && s.sends[a.thread].Offering? {
      assert Act(s, a) != s ==> |Act(s, a).accepted| == |s.accepted|;
    }
  }

  lemma OnlyOffersAccept(s: Path, a: Action)
    requires Act(s, a).accepted != s.accepted
    ensures a.Proceed? && a.thread in s.sends && s.sends[a.thread].Offering?
    ensures Act(s, a).sends == s.sends[a.thread := Leaving]
  {
  }

  /** The accepting step, seen from the lanes. */
  lemma AcceptedOnLane(s: Path, t: nat, lanes: seq<Lane>)
    requires Inv(s) && t in s.sends && s.sends[t].Offering? && |lanes| == |s.accepted|
    requires OnLane(lanes, s.control, Control) && OnLane(lanes, s.events, Events)
    ensures var s', lanes' := Act(s, Proceed(t)), lanes + [s.sends[t].lane];
      s'.accepted != s.accepted ==> OnLane(lanes', s'.control, Control) && OnLane(lanes', s'.events, Events)
  {
    hide Inv;
    OfferDecides(s, t);
    LongerOnLane(lanes, s.sends[t].lane, s.control, Control);
    LongerOnLane(lanes, s.sends[t].lane, s.events, Events);
  }

  lemma SentByStep(actions: seq<Action>, s: Path, senders: seq<nat>, lanes: seq<Lane>, a: Action)
    returns (senders': seq<nat>, lanes': seq<Lane>)
    requires Inv(s) && Carrying(actions, s) && SentBy(actions, s, senders, lanes)
    requires OnLane(lanes, s.control, Control) && OnLane(lanes, s.events, Events)
    ensures SentBy(actions + [a], Act(s, a), senders', lanes')
    ensures OnLane(lanes', Act(s, a).control, Control) && OnLane(lanes', Act(s, a).events, Events)
  {
    hide Inv, Begun, OnLane, Act, Proceeded;
    senders', lanes' := senders, lanes;
    if Act(s, a).accepted == s.accepted {
      SendersKept(actions, s, senders, lanes, a);
      QueuesStayOnLane(s, lanes, a);
    } else {
      OnlyOffersAccept(s, a);
      var t := a.thread;
      var lane, message := s.sends[t].lane, s.sends[t].message;
      OfferDecides(s, t);
      SendersGrow(actions, s, Act(s, a), senders, lanes, a, t, lane, message);
      AcceptedOnLane(s, t, lanes);
      senders', lanes' := senders + [t], lanes + [lane];
    }
  }

  /** Each accepted message is the one its thread began with, on the lane of the queue that held it, and no
      thread is accepted twice. */
  lemma {:induction false} AcceptedWereSent(actions: seq<Action>) returns (senders: seq<nat>, lanes: seq<Lane>)
    ensures var s := Acts(NewPath(), actions);
      && SentBy(actions, s, senders, lanes) && OnLane(lanes, s.control, Control) && OnLane(lanes, s.events, Events)
      && Carrying(actions, s)
    decreases |actions|
  {
    if actions == [] {
      senders, lanes := [], [];
    } else {
      var n := |actions| - 1;
      senders, lanes := AcceptedWereSent(actions[..n]);
      assert actions == actions[..n] + [actions[n]];
      var s := Acts(NewPath(), actions[..n]);
      ReachableInv(NewPath(), actions[..n]);
      ActsLast(NewPath(), actions[..n], actions[n]);
      CarryingStep(actions[..n], s, actions[n]);
      senders, lanes := SentByStep(actions[..n], s, senders, lanes, actions[n]);
    }
  }

  /** One queue, from the reader's side: the sink is always a prefix of the accepted messages, and these are
      what as many different threads handed over. */
  lemma SinkIsPrefix(actions: seq<Action>) returns (senders: seq<nat>, lanes: seq<Lane>)
    ensures var s := Acts(NewPath(), actions);
      && s.sink <= s.accepted && |senders| == |lanes| == |s.accepted|
      && (forall i :: 0 <= i < |s.accepted| ==> Begun(actions, senders[i], lanes[i], s.accepted[i]))
      && (forall i, j :: 0 <= i < j < |senders| ==> senders[i] != senders[j])
  {
    ReachableInv(NewPath(), actions);
    senders, lanes := AcceptedWereSent(actions);
  }

  /** From any moment on the writer can deliver everything accepted so far. */
  lemma {:induction false} WriterDrains(s: Path) returns (steps: seq<Action>)
    requires Inv(s) && s.open
    ensures forall i :: 0 <= i < |steps| ==> steps[i].Take? || steps[i] == Flush(true)
    ensures var s' := Acts(s, steps); s'.sink == s.accepted == s'.accepted && s'.open
    decreases |s.accepted| - |s.sink|, |s.control| + |s.events|
  {
    if |s.sink| == |s.accepted| {
      steps := [];
    } else {
      var a := WriterMoves(s);
      ActKeepsInv(s, a);
      var rest := WriterDrains(Act(s, a));
      steps := [a] + rest;
      assert steps[1..] == rest;
    }
  }

  /** The writer is never stuck: the next number is in its buffer, or in a queue it can read. */
  lemma WriterMoves(s: Path) returns (a: Action)
    requires Inv(s) && s.open && |s.sink| < |s.accepted|
    ensures a.Take? || a == Flush(true)
    ensures var s' := Act(s, a);
      && s'.open && s'.accepted == s.accepted
      && if a.Take? then s'.sink == s.sink && |s'.control| + |s'.events| < |s.control| + |s.events|
         else s'.sink == s.sink + [s.accepted[|s.sink|]]
  {
    assert Somewhere(s, s.writerNext);
    if s.writerNext in s.pending {
      assert Owed(s, Numbered(s.writerNext, s.pending[s.writerNext]));
      a := Flush(true);
    } else if s.control != [] {
      a := Take(Control);
    } else {
      a := Take(Events);
    }
  }

  /** A send that is not disturbed goes through on an open path with room; otherwise it gives its number back.
      Either way it releases the lock. */
  lemma SendGoesThrough(s: Path, t: nat, lane: Lane, message: Message)
    requires Inv(s) && s.holder == None && t !in s.sends
    ensures var p := Proceed(t);
      var offered := Act(Act(Act(Act(s, Begin(t, lane, message)), p), p), p);
      if s.open && |Queue(s, lane)| < Capacity(lane) then
        var done := Act(offered, p);
        done.accepted == s.accepted + [message] && done.holder == None && done.nextSequence == s.nextSequence + 1
      else
        var done := Act(Act(offered, p), p);
        done.accepted == s.accepted && done.holder == None && done.nextSequence == s.nextSequence
  {
    hide Stored, Complete;
  }

  lemma ClosedStep(s: Path, a: Action)
    requires !s.open
    ensures var s' := Act(s, a); !s'.open && s'.sink == s.sink && s'.accepted == s.accepted
  {
  }

  /** When the socket fails the path is closed for good: nothing more is accepted or delivered. */
  lemma {:induction false} ClosedForGood(s: Path, actions: seq<Action>)
    requires !s.open || (s.writerNext in s.pending && actions != [] && actions[0] == Flush(false))
    ensures var s' := Acts(s, actions); !s'.open && s'.sink == s.sink && s'.accepted == s.accepted
    decreases |actions|
  {
    if actions != [] {
      if !s.open {
        ClosedStep(s, actions[0]);
      }
      ClosedForGood(Act(s, actions[0]), actions[1..]);
    }
  }
}
