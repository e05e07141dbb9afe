/** Snapshot first, then live events: what one connection delivers of the event bus. The event at
    index `i` of the bus has sequence `i + 1`. */
module EventSubscription {
  import opened Options

  datatype Event = Event(
    kind: int, session: Option<int>, workspace: Option<int>, userGlobal: bool, invalidatesDirectory: bool)

  datatype Scope = Scope(session: Option<int>, workspace: Option<int>)

  /** The bus cut at one moment: it keeps the events from index `first` up to `end`. */
  datatype Cut = Cut(first: nat, end: nat)

  predicate Matches(e: Event, scope: Scope) {
    || e.userGlobal
    || (&& (scope.session.Some? ==> e.session == scope.session)
        && (scope.workspace.Some? ==> e.workspace == scope.workspace))
  }

  /** The event itself, or a directory notice under the same sequence. */
  predicate Projected(e: Event, scope: Scope) {
    Matches(e, scope) || e.invalidatesDirectory
  }

  /** The sequences of the projected events between two indices, without the muted kinds. */
  function Wanted(events: seq<Event>, scope: Scope, muted: set<int>, low: nat, high: nat): seq<nat>
    requires high <= |events|
    decreases high
  {
    if high <= low then []
    else
      var rest := Wanted(events, scope, muted, low, high - 1);
      if Projected(events[high - 1], scope) && events[high - 1].kind !in muted then rest + [high] else rest
  }

  datatype Connection = Connection(
    events: seq<Event>,         // everything published so far
    received: nat,              // the receiver has been read up to this index
    subscribed: bool,
    scope: Scope,
    afterSequence: nat,
    initial: Option<Cut>,       // a snapshot waiting for the next subscription
    muted: set<int>,            // kinds the client opted out of
    connected: bool,
    // what the client has been told since its last subscription
    delivered: seq<nat>, flagged: bool)

  datatype Action =
    | Publish(event: Event)
    | Receive(sent: bool)                             // one live event; the queue takes it or is full
    | Lag(sent: bool)                                 // the receiver fell behind
    | Subscribe(scope: Scope, after: nat, first: nat) // `first` is what the bus still keeps
    | SubscribeRefused(first: nat)                    // the parameters are invalid

  /** The first retained event leaves a gap after the cursor. */
  predicate RequiresResync(cut: Cut, after: nat) {
    after != 0 && (if cut.first < cut.end then cut.first + 1 > after + 1 else cut.end + 1 > after + 1)
  }

  /** A connection is made: snapshot and receiver are one cut of the bus. */
  function Connect(events: seq<Event>, muted: set<int>, first: nat): Connection {
    Connection(events, |events|, false, Scope(None, None), 0, Some(CutNow(events, first)), muted, true, [], false)
  }

  function CutNow(events: seq<Event>, first: nat): Cut {
    Cut(if first <= |events| then first else |events|, |events|)
  }

  /** Taking a new snapshot replaces the receiver. */
  function TakeCut(s: Connection, first: nat): Connection {
    if s.initial.Some? then s else s.(initial := Some(CutNow(s.events, first)), received := |s.events|)
  }

  function Max(a: nat, b: nat): nat {
    if a < b then b else a
  }

  /** One action; an action that is not enabled changes nothing. */
  function Act(s: Connection, a: Action): Connection {
    match a
    case Publish(event) => s.(events := s.events + [event])
    case Receive(sent) =>
      if !s.connected || !s.subscribed || s.received >= |s.events| then s
      else
        var e, sequence := s.events[s.received], s.received + 1;
        if sequence > s.afterSequence && Projected(e, s.scope) then
          if e.kind in s.muted then s.(received := sequence, afterSequence := sequence)
          else if sent then s.(received := sequence, afterSequence := sequence, delivered := s.delivered + [sequence])
          else s.(received := sequence, connected := false)
        else s.(received := sequence)
    case Lag(sent) =>
      if !s.connected || !s.subscribed then s
      else s.(received := |s.events|, afterSequence := |s.events|, flagged := true, connected := sent)
    case Subscribe(scope, after, first) =>
      if !s.connected then s
      else
        var t := TakeCut(s, first);
        var cut := t.initial.value;
        var end := if cut.end <= |t.events| then cut.end else |t.events|;
        t.(initial := None, subscribed := true, scope := scope,
           afterSequence := Max(after, cut.end),
           delivered := Wanted(t.events, scope, {}, Max(after, cut.first), end),
           flagged := RequiresResync(cut, after))
    case SubscribeRefused(first) => if s.connected then TakeCut(s, first) else s
  }

  function Acts(s: Connection, actions: seq<Action>): Connection
    decreases |actions|
  {
    if actions == [] then s else Acts(Act(s, actions[0]), actions[1..])
  }

  // ----- exact delivery

  /** What a client asks for, and the snapshot it finds: the sequences kept after `kept`, up to `cut`. */
  datatype Request = Request(scope: Scope, after: nat, kept: nat, cut: nat)

  /** A request finds the snapshot stored before, or else one taken now. */
  function Asked(s: Connection, scope: Scope, after: nat, first: nat): Request {
    match s.initial
    case Some(cut) => Request(scope, after, cut.first, cut.end)
    case None => Request(scope, after, if first <= |s.events| then first else |s.events|, |s.events|)
  }

  /** The sequence is owed to the client by now: it comes after the one the client named, is still kept, is in
      scope or a directory notice, and is of a kind the client hears of, unless it is part of the snapshot. */
  predicate Due(s: Connection, r: Request, q: nat) {
    && r.after < q <= s.received && r.kept < q <= |s.events|
    && var e := s.events[q - 1];
       && (|| e.userGlobal || e.invalidatesDirectory
           || (&& (r.scope.session.Some? ==> e.session == r.scope.session)
               && (r.scope.workspace.Some? ==> e.workspace == r.scope.workspace)))
       && (q <= r.cut || e.kind !in s.muted)
  }

  /** The client has what is due to it and nothing else, once and in order. */
  ghost predicate DueDelivered(s: Connection, r: Request) {
    && (forall q :: q in s.delivered <==> Due(s, r, q))
    && (forall i, j :: 0 <= i < j < |s.delivered| ==> s.delivered[i] < s.delivered[j])
  }

  /** The same as lists: the snapshot, then the live events of kinds that are not muted. */
  predicate Exact(s: Connection, r: Request) {
    && r.cut <= |s.events| && s.received <= |s.events| && s.scope == r.scope
    && s.delivered == Wanted(s.events, r.scope, {}, Max(r.after, r.kept), r.cut)
                      + Wanted(s.events, r.scope, s.muted, Max(r.after, r.cut), s.received)
  }

  predicate WellFormed(s: Connection) {
    && s.received <= |s.events|
    && (s.initial.Some? ==> s.initial.value.first <= s.initial.value.end <= s.received)
    && (!s.subscribed ==> s.initial.Some? && s.received == s.initial.value.end)
  }

  /** The live cursor is past what the client named and the snapshot, and within what was received. */
  predicate Live(s: Connection, r: Request) {
    s.subscribed && r.cut <= s.received && r.after <= s.afterSequence <= Max(r.after, s.received)
  }

  /** The snapshot and the receiver are one cut. */
  predicate Aligned(s: Connection) {
    s.initial.Some? ==> s.received == s.initial.value.end
  }

  lemma ActKeepsWellFormed(s: Connection, a: Action)
    requires WellFormed(s)
    ensures WellFormed(Act(s, a))
  {
  }

  lemma {:induction false} WantedGrows(events: seq<Event>, e: Event, scope: Scope, muted: set<int>, low: nat, high: nat)
    requires high <= |events|
    ensures Wanted(events + [e], scope, muted, low, high) == Wanted(events, scope, muted, low, high)
    decreases high
  {
    if high > low {
      WantedGrows(events, e, scope, muted, low, high - 1);
    }
  }

  lemma {:induction false} WantedJoins(events: seq<Event>, scope: Scope, muted: set<int>, low: nat, mid: nat, high: nat)
    requires low <= mid <= high <= |events|
    ensures Wanted(events, scope, muted, low, high) ==
      Wanted(events, scope, muted, low, mid) + Wanted(events, scope, muted, mid, high)
    decreases high
  {
    if high > mid {
      WantedJoins(events, scope, muted, low, mid, high - 1);
    }
  }

  /** A wanted list holds each wanted sequence and nothing else, in strictly increasing order. */
  lemma {:induction false} WantedMeans(events: seq<Event>, scope: Scope, muted: set<int>, low: nat, high: nat)
    requires high <= |events|
    ensures forall q :: q in Wanted(events, scope, muted, low, high) <==>
      low < q <= high && Projected(events[q - 1], scope) && events[q - 1].kind !in muted
    ensures forall i, j :: 0 <= i < j < |Wanted(events, scope, muted, low, high)| ==>
      Wanted(events, scope, muted, low, high)[i] < Wanted(events, scope, muted, low, high)[j]
    decreases high
  {
    if high > low {
      WantedMeans(events, scope, muted, low, high - 1);
      var rest := Wanted(events, scope, muted, low, high - 1);
      forall i | 0 <= i < |rest| ensures rest[i] < high {
        assert rest[i] in rest;
      }
    }
  }

  /** Exact delivery, sequence by sequence. */
  lemma ExactMeans(s: Connection, r: Request)
    requires Exact(s, r) && r.kept <= r.cut <= s.received
    ensures DueDelivered(s, r)
  {
    var low, high := Max(r.after, r.kept), Max(r.after, r.cut);
    WantedMeans(s.events, r.scope, {}, low, r.cut);
    WantedMeans(s.events, r.scope, s.muted, high, s.received);
    var snapshot, live := Wanted(s.events, r.scope, {}, low, r.cut), Wanted(s.events, r.scope, s.muted, high, s.received);
    hide Wanted;
    assert forall q :: q in s.delivered <==> q in snapshot || q in live;
    forall i, j | 0 <= i < j < |s.delivered| ensures s.delivered[i] < s.delivered[j] {
      if i < |snapshot| <= j {
        assert s.delivered[i] == snapshot[i] && s.delivered[j] == live[j - |snapshot|];
        assert snapshot[i] in snapshot && live[j - |snapshot|] in live;
      }
    }
  }

  /** A subscription on an aligned cut starts exact, for any sequence the client names; it is told to resync
      exactly when it named a sequence whose successor is no longer kept. */
  lemma SubscribeIsExact(s: Connection, scope: Scope, after: nat, first: nat)
    requires WellFormed(s) && s.connected && Aligned(s)
    ensures var s', r := Act(s, Subscribe(scope, after, first)), Asked(s, scope, after, first);
      && Exact(s', r) && DueDelivered(s', r) && Live(s', r) && s'.received == r.cut && s'.connected
      && (s'.flagged <==> 0 < after < r.kept)
  {
    ExactMeans(Act(s, Subscribe(scope, after, first)), Asked(s, scope, after, first));
  }

  /** The first subscription of a connection finds all that was kept when the connection was made. */
  lemma FirstRequest(events: seq<Event>, muted: set<int>, kept: nat, scope: Scope, after: nat, first: nat)
    requires kept <= |events|
    ensures var s := Connect(events, muted, kept);
      && WellFormed(s) && Aligned(s) && s.connected && s.events == events && s.muted == muted
      && Asked(s, scope, after, first) == Request(scope, after, kept, |events|)
  {
  }

  /** Publishing and receiving keep an exact delivery exact. */
  lemma ReceiveKeepsExact(s: Connection, r: Request, a: Action)
    requires WellFormed(s) && Exact(s, r) && Live(s, r) && (a.Publish? || a.Receive?)
    requires s.connected && Act(s, a).connected
    ensures Exact(Act(s, a), r) && Live(Act(s, a), r)
  {
    var low, high := Max(r.after, r.kept), Max(r.after, r.cut);
    match a {
      case Publish(e) =>
        WantedGrows(s.events, e, r.scope, {}, low, r.cut);
        WantedGrows(s.events, e, r.scope, s.muted, high, s.received);
      case Receive(sent) =>
        if s.received < |s.events| {
          var q := s.received + 1;
          assert Wanted(s.events, r.scope, s.muted, high, q) == Wanted(s.events, r.scope, s.muted, high, s.received)
            + if q > high && Projected(s.events[q - 1], r.scope) && s.events[q - 1].kind !in s.muted then [q] else [];
        }
    }
  }

  /** What happens between two requests. */
  predicate Streaming(actions: seq<Action>) {
    forall i :: 0 <= i < |actions| ==> actions[i].Publish? || actions[i].Receive? || actions[i].Lag?
  }

  predicate Lags(actions: seq<Action>) {
    exists i :: 0 <= i < |actions| && actions[i].Lag?
  }

  lemma {:induction false} NeverReconnects(s: Connection, actions: seq<Action>)
    requires !s.connected
    ensures !Acts(s, actions).connected
    decreases |actions|
  {
    if actions != [] {
      NeverReconnects(Act(s, actions[0]), actions[1..]);
    }
  }

  lemma StreamSplits(actions: seq<Action>)
    requires Streaming(actions) && actions != []
    ensures Streaming(actions[1..]) && (Lags(actions) <==> actions[0].Lag? || Lags(actions[1..]))
  {
    var rest := actions[1..];
    if Lags(rest) {
      var i :| 0 <= i < |rest| && rest[i].Lag?;
      assert actions[i + 1].Lag?;
    }
    if i :| 0 <= i < |actions| && actions[i].Lag? && i > 0 {
      assert rest[i - 1].Lag?;
    }
  }

  lemma StreamStep(s: Connection, r: Request, a: Action)
    requires WellFormed(s) && s.connected && s.subscribed && Act(s, a).connected
    requires a.Publish? || a.Receive? || a.Lag?
    ensures var next := Act(s, a);
      && WellFormed(next) && next.subscribed && s.events <= next.events && s.received <= next.received
      && next.muted == s.muted && (next.flagged <==> s.flagged || a.Lag?)
      && (Exact(s, r) && Live(s, r) && !a.Lag? ==> Exact(next, r) && Live(next, r))
  {
    ActKeepsWellFormed(s, a);
    if Exact(s, r) && Live(s, r) && !a.Lag? {
      ReceiveKeepsExact(s, r, a);
    }
    hide Exact, Live;
  }

  /** Until the next request a connection that lasts stays exact, or says that it fell behind. */
  lemma {:induction false} StreamKeepsExact(s: Connection, r: Request, actions: seq<Action>)
    requires WellFormed(s) && s.subscribed && Streaming(actions) && Acts(s, actions).connected
    ensures var s' := Acts(s, actions);
      && s'.subscribed && s.events <= s'.events && s.received <= s'.received <= |s'.events| && s'.muted == s.muted
      && (s'.flagged <==> s.flagged || Lags(actions))
      && (Exact(s, r) && Live(s, r) && !Lags(actions) ==> Exact(s', r) && Live(s', r))
    decreases |actions|
  {
    hide Act, Exact, Live;
    if actions != [] {
      var next := Act(s, actions[0]);
      if !s.connected {
        NeverReconnects(s, actions);
      } else if !next.connected {
        NeverReconnects(next, actions[1..]);
      } else {
        StreamStep(s, r, actions[0]);
        StreamSplits(actions);
        StreamKeepsExact(next, r, actions[1..]);
      }
    }
  }

  /** Whatever happened before: after a subscription on an aligned cut, and for as long as the connection lasts
      and no other request is made, the client has every event due to what it asked for, exactly once and in
      order, unless it is told that it fell behind. It is told to start over in exactly two cases: it named a
      sequence whose successor is no longer kept, or the receiver fell behind. */
  lemma DeliveredExactlyOnce(s: Connection, scope: Scope, after: nat, first: nat, actions: seq<Action>)
    requires WellFormed(s) && Aligned(s) && s.connected && Streaming(actions)
    requires Acts(Act(s, Subscribe(scope, after, first)), actions).connected
    ensures var s', r := Acts(Act(s, Subscribe(scope, after, first)), actions), Asked(s, scope, after, first);
      && s.events <= s'.events && r.cut <= s'.received <= |s'.events| && s'.muted == s.muted
      && (!Lags(actions) ==> DueDelivered(s', r))
      && (s'.flagged <==> 0 < after < r.kept || Lags(actions))
  {
    var a, r := Subscribe(scope, after, first), Asked(s, scope, after, first);
    ActKeepsWellFormed(s, a);
    SubscribeIsExact(s, scope, after, first);
    assert r.kept <= r.cut && Act(s, a).events == s.events && Act(s, a).muted == s.muted && Act(s, a).subscribed;
    hide Act, Exact, WellFormed, DueDelivered, Lags, Streaming;
    StreamKeepsExact(Act(s, a), r, actions);
    if !Lags(actions) {
      ExactMeans(Acts(Act(s, a), actions), r);
    }
  }

  function Receives(n: nat): seq<Action> {
    if n == 0 then [] else [Receive(true)] + Receives(n - 1)
  }

  /** Reading on, a subscription catches up with the bus. */
  lemma {:induction false} ReadingCatchesUp(s: Connection)
    requires WellFormed(s) && s.connected && s.subscribed
    ensures var s' := Acts(s, Receives(|s.events| - s.received));
      s'.connected && s'.subscribed && s'.events == s.events && s'.received == |s.events| && s'.flagged == s.flagged
    decreases |s.events| - s.received
  {
    if s.received < |s.events| {
      var n := |s.events| - s.received;
      assert Receives(n)[1..] == Receives(n - 1);
      ActKeepsWellFormed(s, Receive(true));
      ReadingCatchesUp(Act(s, Receive(true)));
    }
  }

  // ----- when a cut is aligned

  /** No subscription request is refused while a subscription is active. */
  predicate NoRefusalWhileActive(s: Connection, actions: seq<Action>)
    decreases |actions|
  {
    actions == []
    || (!(actions[0].SubscribeRefused? && s.subscribed) && NoRefusalWhileActive(Act(s, actions[0]), actions[1..]))
  }

  /** An active subscription without a stored snapshot: what alignment needs to survive. */
  predicate Tidy(s: Connection) {
    s.subscribed ==> s.initial.None?
  }

  lemma {:induction false} TidyRuns(s: Connection, actions: seq<Action>)
    requires WellFormed(s) && Tidy(s) && NoRefusalWhileActive(s, actions)
    ensures WellFormed(Acts(s, actions)) && Aligned(Acts(s, actions)) && Tidy(Acts(s, actions))
    decreases |actions|
  {
    if actions != [] {
      ActKeepsWellFormed(s, actions[0]);
      var next := Act(s, actions[0]);
      assert Tidy(next);
      assert NoRefusalWhileActive(next, actions[1..]);
      hide Act, WellFormed;
      TidyRuns(next, actions[1..]);
    }
  }

  /** From a new connection, through any run in which no request is refused while a subscription is active, the
      same holds of every subscription. */
  lemma EverySubscriptionIsExact(events: seq<Event>, muted: set<int>, kept: nat, before: seq<Action>,
                                 scope: Scope, after: nat, first: nat, actions: seq<Action>)
    requires NoRefusalWhileActive(Connect(events, muted, kept), before) && Streaming(actions)
    requires Acts(Connect(events, muted, kept), before).connected
    requires Acts(Act(Acts(Connect(events, muted, kept), before), Subscribe(scope, after, first)), actions).connected
    ensures var s := Acts(Connect(events, muted, kept), before);
      var s', r := Acts(Act(s, Subscribe(scope, after, first)), actions), Asked(s, scope, after, first);
      && s.events <= s'.events && r.cut <= s'.received <= |s'.events| && s'.muted == s.muted
      && (!Lags(actions) ==> DueDelivered(s', r))
      && (s'.flagged <==> 0 < after < r.kept || Lags(actions))
  {
    TidyRuns(Connect(events, muted, kept), before);
    hide Acts, Act, NoRefusalWhileActive, DueDelivered;
    DeliveredExactlyOnce(Acts(Connect(events, muted, kept), before), scope, after, first, actions);
  }

  /** A request refused while a subscription is active replaces the receiver: delivery stays exact
      exactly when nothing projected was waiting in the old one. */
  lemma RefusalIsExactIff(s: Connection, r: Request, first: nat)
    requires WellFormed(s) && s.connected && s.initial.None? && Exact(s, r) && Live(s, r)
    ensures var s' := Act(s, SubscribeRefused(first));
      && s'.initial == Some(Cut(if first <= |s.events| then first else |s.events|, |s.events|))
      && s'.received == |s.events| && s'.delivered == s.delivered && s'.flagged == s.flagged
      && (Exact(s', r) <==> Wanted(s.events, r.scope, s.muted, Max(r.after, s.received), |s.events|) == [])
  {
    var low, high := Max(r.after, r.kept), Max(r.after, r.cut);
    var lost := Wanted(s.events, r.scope, s.muted, Max(r.after, s.received), |s.events|);
    if high <= s.received {
      WantedJoins(s.events, r.scope, s.muted, high, s.received, |s.events|);
    }
    var a := Wanted(s.events, r.scope, {}, low, r.cut);
    var b := Wanted(s.events, r.scope, s.muted, high, s.received);
    assert a + (b + lost) == (a + b) + lost;
    assert |s.delivered + lost| == |s.delivered| + |lost|;
  }

  /** A subscription that uses a snapshot stored by an earlier refusal skips what was received since:
      it starts exact exactly when none of that is projected. */
  lemma StaleCutIsExactIff(s: Connection, scope: Scope, after: nat, first: nat)
    requires WellFormed(s) && s.connected && s.initial.Some?
    ensures var s', r := Act(s, Subscribe(scope, after, first)), Asked(s, scope, after, first);
      Exact(s', r) <==> Wanted(s.events, scope, s.muted, Max(after, r.cut), s.received) == []
  {
  }

  /** What was received and not delivered is not delivered later by the live subscription. */
  lemma {:induction false} LostStaysLost(s: Connection, actions: seq<Action>, q: nat)
    requires q <= s.received <= |s.events| && q !in s.delivered && Streaming(actions)
    ensures q !in Acts(s, actions).delivered
    decreases |actions|
  {
    if actions != [] {
      var next := Act(s, actions[0]);
      assert q <= next.received <= |next.events| && q !in next.delivered;
      StreamSplits(actions);
      hide Act;
      LostStaysLost(next, actions[1..], q);
    }
  }

  /** A run in which a refused request loses an event: sequence 2 is due, and the subscription never hears of
      it, however it goes on; nor is it told so. */
  lemma RefusalLosesAnEvent() returns (actions: seq<Action>, r: Request)
    ensures var s := Acts(Connect([Event(0, None, None, true, false)], {}, 0), actions);
      && s.connected && s.subscribed && !s.flagged && s.received == 2 == |s.events|
      && r == Request(Scope(Some(1), None), 1, 0, 1) && actions[..1] == [Subscribe(r.scope, r.after, 0)] && Due(s, r, 2)
      && forall later :: Streaming(later) ==> 2 !in Acts(s, later).delivered
  {
    var e := Event(0, None, None, true, false);
    r := Request(Scope(Some(1), None), 1, 0, 1);
    var a0, a1, a2 := Subscribe(r.scope, 1, 0), Publish(e), SubscribeRefused(0);
    actions := [a0, a1, a2];
    var s0 := Connect([e], {}, 0);
    var s1 := Act(s0, a0);
    var s2 := Act(s1, a1);
    var s3 := Act(s2, a2);
    assert actions[1..] == [a1, a2] && [a1, a2][1..] == [a2] && [a2][1..] == [];
    assert Acts(s0, actions) == Acts(s1, [a1, a2]) == Acts(s2, [a2]) == Acts(s3, []) == s3;
    forall later | Streaming(later) ensures 2 !in Acts(s3, later).delivered {
      LostStaysLost(s3, later, 2);
    }
  }
}
