/** The race on one browser tool call: cancel, timeout, start, result and settlement, one atomic
    operation or lock action at a time, on any number of threads. */
module BrowserCall {
  import opened Options

  datatype Cause = ByCancel | ByTimeout

  datatype Execution = NotStarted | Started | CancelledBeforeStart

  datatype Status = Completed | Blocked | Failed | Cancelled | Indeterminate

  datatype Payload = RuntimeResult(text: int) | Termination(status: Status, timedOut: bool)

  /** A terminal item; `ordered` tells whether the commit lock was taken after a termination. */
  datatype Item = Item(status: Status, payload: Payload, ordered: bool)

  /** Program points. Those from `Holding` to `Caused` and from `Entered` to `Sealed` hold the commit lock. */
  datatype Point =
    // cancel() and timeout()
    | Requesting(cause: Cause)
    | Holding(cause: Cause)
    | Marked(cause: Cause)              // `cancelled` was swapped from false to true
    | Caused(cause: Cause)              // `termination` is stored
    // execute_browser_tool()
    | Launching
    | Running
    // settle(): the first two reads hold no lock
    | Settling
    | SettlingWith(status: Status)
    // commit()
    | Committing(status: Status, payload: Payload)
    | Entered(status: Status, payload: Payload, ordered: bool)
    | Terminating(ordered: bool)        // `cancelled` was read as true
    | TerminatingWith(status: Status, ordered: bool)
    | Writing(status: Status, payload: Payload, ordered: bool)
    | Sealing                           // the item is written
    | Sealed                            // the state says committed
    | Finished

  datatype Call = Call(
    cancelled: bool,
    termination: Option<Cause>,
    execution: Execution,
    committed: bool,
    holder: Option<nat>,
    launcher: Option<nat>,              // the one thread that dispatches the call
    written: seq<Item>,
    threads: map<nat, Point>)

  function NewCall(): Call {
    Call(false, None, NotStarted, false, None, None, [], map[])
  }

  datatype Action =
    | Cancel(thread: nat)
    | Timeout(thread: nat)
    | Launch(thread: nat)
    | Supervise(thread: nat)                            // finish_browser_request_after_termination
    | Advance(thread: nat)
    | Return(thread: nat, status: Status, text: int)    // the runtime returned
    | Upsert(thread: nat, accepted: bool)               // the turn takes the item, or does not

  function CancellationStatus(execution: Execution): Status {
    if execution == Started then Indeterminate else Cancelled
  }

  function CancellationPayload(status: Status, termination: Option<Cause>): Payload {
    Termination(status, termination == Some(ByTimeout))
  }

  function Move(s: Call, t: nat, p: Point): Call {
    s.(threads := s.threads[t := p])
  }

  function Release(s: Call, t: nat): Call {
    Move(s.(holder := None), t, Finished)
  }

  /** The next operation of a thread that is not waiting for the runtime or the turn. */
  function Advanced(s: Call, t: nat): Call
    requires t in s.threads
  {
    match s.threads[t]
    case Requesting(cause) => if s.holder == None then Move(s.(holder := Some(t)), t, Holding(cause)) else s
    case Holding(cause) => if s.cancelled then Release(s, t) else Move(s.(cancelled := true), t, Marked(cause))
    case Marked(cause) => Move(s.(termination := Some(cause)), t, Caused(cause))
    case Caused(_) =>
      Release(if s.execution == NotStarted then s.(execution := CancelledBeforeStart) else s, t)
    case Launching =>
      if s.execution == NotStarted then Move(s.(execution := Started), t, Running) else Move(s, t, Settling)
    case Running => if s.cancelled then Move(s, t, Settling) else s
    case Settling => Move(s, t, SettlingWith(CancellationStatus(s.execution)))
    case SettlingWith(status) => Move(s, t, Committing(status, CancellationPayload(status, s.termination)))
    case Committing(status, payload) =>
      if s.holder != None then s
      else if s.committed then Move(s, t, Finished)
      else Move(s.(holder := Some(t)), t, Entered(status, payload, s.cancelled))
    case Entered(status, payload, ordered) =>
      Move(s, t, if s.cancelled then Terminating(ordered) else Writing(status, payload, ordered))
    case Terminating(ordered) => Move(s, t, TerminatingWith(CancellationStatus(s.execution), ordered))
    case TerminatingWith(status, ordered) =>
      Move(s, t, Writing(status, CancellationPayload(status, s.termination), ordered))
    case Sealing => Move(s.(committed := true), t, Sealed)
    case Sealed => Release(s, t)
    case _ => s
  }

  /** One action; an action that is not enabled changes nothing. */
  function Act(s: Call, a: Action): Call {
    var t := a.thread;
    match a
    case Cancel(_) => if t in s.threads then s else Move(s, t, Requesting(ByCancel))
    case Timeout(_) => if t in s.threads then s else Move(s, t, Requesting(ByTimeout))
    case Launch(_) => if t in s.threads || s.launcher.Some? then s else Move(s.(launcher := Some(t)), t, Launching)
    case Supervise(_) => if t in s.threads || !s.cancelled then s else Move(s, t, Settling)
    case Advance(_) => if t in s.threads then Advanced(s, t) else s
    case Return(_, status, text) =>
      if t in s.threads && s.threads[t] == Running then Move(s, t, Committing(status, RuntimeResult(text))) else s
    case Upsert(_, accepted) =>
      if t in s.threads && s.threads[t].Writing? then
        var p := s.threads[t];
        if accepted then Move(s.(written := s.written + [Item(p.status, p.payload, p.ordered)]), t, Sealing)
        else Release(s, t)
      else s
  }

  function Acts(s: Call, actions: seq<Action>): Call
    decreases |actions|
  {
    if actions == [] then s else Acts(Act(s, actions[0]), actions[1..])
  }

  // ----- what every reachable state satisfies

  predicate HoldsLock(p: Point) {
    || p.Holding? || p.Marked? || p.Caused?
    || p.Entered? || p.Terminating? || p.TerminatingWith? || p.Writing? || p.Sealing? || p.Sealed?
  }

  /** A thread is between marking the call cancelled and leaving the lock. */
  predicate Midway(s: Call) {
    && s.holder.Some? && s.holder.value in s.threads
    && (s.threads[s.holder.value].Marked? || s.threads[s.holder.value].Caused?)
  }

  /** What a terminal item must say. */
  predicate ItemRight(s: Call, item: Item) {
    if item.ordered then
      && s.cancelled && s.termination.Some? && s.execution != NotStarted
      && item.status == (if s.execution == Started then Indeterminate else Cancelled)
      && item.payload == Termination(item.status, s.termination == Some(ByTimeout))
    else item.payload.RuntimeResult?
  }

  predicate Settled(s: Call) {
    s.cancelled && s.termination.Some? && s.execution != NotStarted
  }

  predicate PointRight(s: Call, t: nat, p: Point) {
    match p
    case Launching => s.launcher == Some(t) && s.execution != Started
    case Running => s.launcher == Some(t)
    case Marked(cause) => s.cancelled && s.termination == None
    case Caused(cause) => s.cancelled && s.termination == Some(cause)
    case Settling => s.cancelled
    case SettlingWith(_) => s.cancelled
    case Committing(_, payload) => payload.RuntimeResult? || s.cancelled
    case Entered(_, payload, ordered) => !s.committed && ordered == s.cancelled && (payload.RuntimeResult? || s.cancelled)
    case Terminating(ordered) => !s.committed && ordered && Settled(s)
    case TerminatingWith(status, ordered) =>
      !s.committed && ordered && Settled(s) && status == CancellationStatus(s.execution)
    case Writing(status, payload, ordered) =>
      && !s.committed && s.cancelled == ordered && (ordered ==> Settled(s))
      && ItemRight(s, Item(status, payload, ordered))
    case Sealing => !s.committed && |s.written| == 1
    case Sealed => s.committed
    case _ => true
  }

  /** What a step of one thread leaves to every other thread. */
  predicate Undisturbed(s: Call, s': Call, t: nat) {
    && s'.threads.Keys == s.threads.Keys + {t}
    && (forall u :: u in s.threads && u != t ==> s'.threads[u] == s.threads[u])
    && (s.cancelled ==> s'.cancelled) && (s.launcher.Some? ==> s'.launcher == s.launcher)
    && (s.launcher != Some(t) && s.launcher.Some? ==> s'.execution != Started || s.execution == Started)
    && (|| s'.holder == s.holder
        || (s.holder == Some(t) && s'.holder == None)
        || (s.holder == None && s'.holder == Some(t)))
    && (s.holder != Some(t) ==>
          && s'.cancelled == s.cancelled && s'.termination == s.termination && s'.committed == s.committed
          && s'.written == s.written && (s.execution != NotStarted ==> s'.execution == s.execution))
  }

  /** The part of the invariant that speaks of no particular thread. */
  predicate SharedRight(s: Call) {
    && (s.holder.Some? ==> s.holder.value in s.threads)
    && (!s.cancelled ==> s.termination == None && s.execution != CancelledBeforeStart)
    && (s.cancelled ==> Midway(s) || Settled(s))
    && (s.launcher == None ==> s.execution != Started)
    && (s.committed ==> |s.written| == 1)
    && (!s.committed && s.written != [] ==>
          s.holder.Some? && s.holder.value in s.threads && s.threads[s.holder.value].Sealing?)
    && (forall k :: 0 <= k < |s.written| ==> ItemRight(s, s.written[k]))
  }

  ghost predicate Inv(s: Call) {
    && SharedRight(s)
    && forall t :: t in s.threads ==> (HoldsLock(s.threads[t]) <==> s.holder == Some(t)) && PointRight(s, t, s.threads[t])
  }

  /** The step is right where it happens: shared state, lock discipline, the thread's own point. */
  predicate RightAfter(s: Call, s': Call, t: nat) {
    && Undisturbed(s, s', t) && SharedRight(s') && t in s'.threads
    && (HoldsLock(s'.threads[t]) <==> s'.holder == Some(t)) && PointRight(s', t, s'.threads[t])
  }

  predicate Terminator(p: Point) {
    p.Requesting? || p.Holding? || p.Marked? || p.Caused?
  }

  predicate Committer(p: Point) {
    p.Committing? || p.Entered? || p.Terminating? || p.TerminatingWith? || p.Sealing? || p.Sealed?
  }

  lemma TerminatorStep(s: Call, t: nat)
    requires Inv(s) && t in s.threads && Terminator(s.threads[t])
    ensures RightAfter(s, Advanced(s, t), t)
  {
    assert PointRight(s, t, s.threads[t]);
  }

  lemma CommitterStep(s: Call, t: nat)
    requires Inv(s) && t in s.threads && Committer(s.threads[t])
    ensures RightAfter(s, Advanced(s, t), t)
  {
    assert PointRight(s, t, s.threads[t]);
  }

  lemma LaunchStep(s: Call, t: nat)
    requires Inv(s) && t in s.threads && s.threads[t].Launching?
    ensures RightAfter(s, Advanced(s, t), t)
  {
    assert PointRight(s, t, s.threads[t]);
  }

  /** A step that touches no shared variable. */
  lemma PrivateStep(s: Call, t: nat, p: Point)
    requires Inv(s) && (t in s.threads ==> !HoldsLock(s.threads[t])) && s.holder != Some(t)
    requires !HoldsLock(p) && PointRight(s, t, p)
    ensures RightAfter(s, Move(s, t, p), t)
  {
  }

  lemma ExecutorStep(s: Call, t: nat)
    requires Inv(s) && t in s.threads && !Terminator(s.threads[t]) && !Committer(s.threads[t])
    requires Advanced(s, t) != s
    ensures RightAfter(s, Advanced(s, t), t)
  {
    assert PointRight(s, t, s.threads[t]);
    if s.threads[t].Launching? {
      LaunchStep(s, t);
    } else {
      hide RightAfter, SharedRight;
      PrivateStep(s, t, Advanced(s, t).threads[t]);
    }
  }

  lemma UpsertStep(s: Call, a: Action)
    requires Inv(s) && a.Upsert? && Act(s, a) != s
    ensures RightAfter(s, Act(s, a), a.thread)
  {
    assert PointRight(s, a.thread, s.threads[a.thread]);
  }

  lemma EntryStep(s: Call, a: Action)
    requires Inv(s) && !a.Advance? && !a.Upsert? && Act(s, a) != s
    ensures RightAfter(s, Act(s, a), a.thread)
  {
    var t := a.thread;
    if a.Launch? {
      LaunchEntry(s, t);
    } else {
      assert t in s.threads ==> PointRight(s, t, s.threads[t]);
      assert s.holder != Some(t);
      hide RightAfter, SharedRight;
      PrivateStep(s, t, Act(s, a).threads[t]);
    }
  }

  lemma LaunchEntry(s: Call, t: nat)
    requires Inv(s) && t !in s.threads && s.launcher == None
    ensures RightAfter(s, Act(s, Launch(t)), t)
  {
  }

  lemma StepKeepsInv(s: Call, s': Call, t: nat)
    requires Inv(s) && RightAfter(s, s', t)
    ensures Inv(s')
  {
  }

  lemma ActIsRight(s: Call, a: Action)
    requires Inv(s) && Act(s, a) != s
    ensures RightAfter(s, Act(s, a), a.thread)
  {
    hide Inv, RightAfter, Advanced;
    if a.Advance? {
      if Terminator(s.threads[a.thread]) {
        TerminatorStep(s, a.thread);
      } else if Committer(s.threads[a.thread]) {
        CommitterStep(s, a.thread);
      } else {
        ExecutorStep(s, a.thread);
      }
    } else if a.Upsert? {
      UpsertStep(s, a);
    } else {
      EntryStep(s, a);
    }
  }

  lemma ActKeepsInv(s: Call, a: Action)
    requires Inv(s)
    ensures Inv(Act(s, a))
  {
    hide *;
    if Act(s, a) != s {
      ActIsRight(s, a);
      StepKeepsInv(s, Act(s, a), a.thread);
    }
  }

  lemma {:induction false} ReachableInv(s: Call, actions: seq<Action>)
    requires Inv(s)
    ensures Inv(Acts(s, actions))
    decreases |actions|
  {
    hide Act, Inv;
    if actions != [] {
      ActKeepsInv(s, actions[0]);
      ReachableInv(Act(s, actions[0]), actions[1..]);
    }
  }

  lemma NewCallInv()
    ensures Inv(NewCall())
  {
  }

  // ----- what the runtime returned

  lemma {:induction false} ActsLast(s: Call, actions: seq<Action>, a: Action)
    ensures Acts(s, actions + [a]) == Act(Acts(s, actions), a)
    decreases |actions|
  {
    if actions == [] {
      assert (actions + [a])[1..] == [];
    } else {
      assert (actions + [a])[1..] == actions[1..] + [a];
      ActsLast(Act(s, actions[0]), actions[1..], a);
    }
  }

  /** The action at `i` is the return of the runtime to the thread that launched the call and is waiting for it. */
  ghost predicate ReturnsAt(actions: seq<Action>, i: nat, status: Status, text: int) {
    && i < |actions|
    && var before := Acts(NewCall(), actions[..i]);
       && before.launcher.Some? && actions[i] == Return(before.launcher.value, status, text)
       && before.launcher.value in before.threads && before.threads[before.launcher.value] == Running
  }

  ghost predicate Returned(actions: seq<Action>, status: Status, text: int) {
    exists i: nat :: ReturnsAt(actions, i, status, text)
  }

  lemma ReturnedLater(actions: seq<Action>, a: Action, status: Status, text: int)
    requires Returned(actions, status, text)
    ensures Returned(actions + [a], status, text)
  {
    var i: nat :| ReturnsAt(actions, i, status, text);
    assert (actions + [a])[..i] == actions[..i];
    assert ReturnsAt(actions + [a], i, status, text);
  }

  lemma ReturnedNow(actions: seq<Action>, a: Action)
    requires Inv(Acts(NewCall(), actions)) && a.Return?
    requires var s := Acts(NewCall(), actions); a.thread in s.threads && s.threads[a.thread] == Running
    ensures Returned(actions + [a], a.status, a.text)
  {
    var s := Acts(NewCall(), actions);
    assert PointRight(s, a.thread, s.threads[a.thread]);
    assert (actions + [a])[..|actions|] == actions;
    assert ReturnsAt(actions + [a], |actions|, a.status, a.text);
  }

  /** What a thread is about to record, if it is the runtime's result. */
  function Report(p: Point): Option<(Status, int)> {
    match p
    case Committing(status, RuntimeResult(text)) => Some((status, text))
    case Entered(status, RuntimeResult(text), _) => Some((status, text))
    case Writing(status, RuntimeResult(text), _) => Some((status, text))
    case _ => None
  }

  /** Every result at hand or written is one the runtime returned. */
  ghost predicate Honest(actions: seq<Action>, s: Call) {
    && (forall t :: t in s.threads && Report(s.threads[t]).Some? ==>
          Returned(actions, Report(s.threads[t]).value.0, Report(s.threads[t]).value.1))
    && (forall k :: 0 <= k < |s.written| && s.written[k].payload.RuntimeResult? ==>
          Returned(actions, s.written[k].status, s.written[k].payload.text))
  }

  lemma AdvanceReports(s: Call, t: nat)
    requires t in s.threads
    ensures t in Advanced(s, t).threads
    ensures var after := Report(Advanced(s, t).threads[t]); after == None || after == Report(s.threads[t])
  {
  }

  lemma OthersKeep(s: Call, a: Action, t: nat)
    requires Inv(s) && t != a.thread
    ensures t in Act(s, a).threads <==> t in s.threads
    ensures t in s.threads ==> Act(s, a).threads[t] == s.threads[t]
  {
    hide Act, Inv, SharedRight, PointRight;
    if Act(s, a) != s {
      ActIsRight(s, a);
    }
  }

  /** No step invents a result: it comes from the thread's own point, or from the runtime. */
  lemma ReportsKeep(s: Call, a: Action, t: nat)
    requires Inv(s) && t in Act(s, a).threads && Report(Act(s, a).threads[t]).Some?
    ensures t in s.threads
    ensures var report := Report(Act(s, a).threads[t]);
      || report == Report(s.threads[t])
      || (a.Return? && a.thread == t && s.threads[t] == Running && report == Some((a.status, a.text)))
  {
    hide Advanced, Inv;
    if t != a.thread {
      OthersKeep(s, a, t);
    } else if a.Advance? && t in s.threads {
      AdvanceReports(s, t);
    }
  }

  lemma WrittenKeeps(s: Call, a: Action)
    ensures var s' := Act(s, a);
      || s'.written == s.written
      || (&& a.thread in s.threads && s.threads[a.thread].Writing?
          && var p := s.threads[a.thread];
             s'.written == s.written + [Item(p.status, p.payload, p.ordered)])
  {
  }

  lemma HonestStep(actions: seq<Action>, a: Action)
    requires Inv(Acts(NewCall(), actions)) && Honest(actions, Acts(NewCall(), actions))
    ensures Honest(actions + [a], Act(Acts(NewCall(), actions), a))
  {
    hide Inv, Returned, Act;
    var s := Acts(NewCall(), actions);
    var s' := Act(s, a);
    forall t | t in s'.threads && Report(s'.threads[t]).Some?
      ensures Returned(actions + [a], Report(s'.threads[t]).value.0, Report(s'.threads[t]).value.1)
    {
      ReportsKeep(s, a, t);
      if Report(s'.threads[t]) == Report(s.threads[t]) {
        ReturnedLater(actions, a, Report(s.threads[t]).value.0, Report(s.threads[t]).value.1);
      } else {
        ReturnedNow(actions, a);
      }
    }
    WrittenKeeps(s, a);
    forall k | 0 <= k < |s'.written| && s'.written[k].payload.RuntimeResult?
      ensures Returned(actions + [a], s'.written[k].status, s'.written[k].payload.text)
    {
      if k < |s.written| {
        ReturnedLater(actions, a, s.written[k].status, s.written[k].payload.text);
      } else {
        assert Report(s.threads[a.thread]) == Some((s'.written[k].status, s'.written[k].payload.text));
        ReturnedLater(actions, a, s'.written[k].status, s'.written[k].payload.text);
      }
    }
  }

  lemma {:induction false} RunsAreHonest(actions: seq<Action>)
    ensures Honest(actions, Acts(NewCall(), actions))
    decreases |actions|
  {
    if actions != [] {
      hide Act, Honest;
      var n := |actions| - 1;
      assert actions == actions[..n] + [actions[n]];
      RunsAreHonest(actions[..n]);
      NewCallInv();
      ReachableInv(NewCall(), actions[..n]);
      ActsLast(NewCall(), actions[..n], actions[n]);
      HonestStep(actions[..n], actions[n]);
    }
  }

  /** In every interleaving at most one terminal item is written, and it says the right thing: status and text
      the runtime returned to the thread that launched the call, or, after a termination, `Cancelled` exactly
      when execution never started and `Indeterminate` otherwise, with the code of the termination. */
  lemma OneRightItem(actions: seq<Action>)
    ensures var s := Acts(NewCall(), actions);
      && |s.written| <= 1
      && (s.committed ==> |s.written| == 1)
      && (forall k :: 0 <= k < |s.written| ==> ItemRight(s, s.written[k]))
      && (forall k :: 0 <= k < |s.written| && !s.written[k].ordered ==>
            s.written[k].payload.RuntimeResult? && Returned(actions, s.written[k].status, s.written[k].payload.text))
  {
    NewCallInv();
    ReachableInv(NewCall(), actions);
    RunsAreHonest(actions);
    hide Returned;
    var s := Acts(NewCall(), actions);
    if !s.committed && s.written != [] {
      assert PointRight(s, s.holder.value, s.threads[s.holder.value]);
    }
  }

  // ----- what one thread does when the others stand still

  /** The thread that dispatches the call starts it, unless it was cancelled before. */
  lemma LaunchStarts(s: Call, t: nat)
    requires Inv(s) && t !in s.threads && s.launcher == None
    ensures var s' := Act(Act(s, Launch(t)), Advance(t));
      if s.execution == NotStarted then s'.execution == Started && s'.threads == s.threads[t := Running]
      else s'.execution == CancelledBeforeStart && s'.threads == s.threads[t := Settling]
  {
  }

  lemma NothingWritten(s: Call)
    requires Inv(s) && !s.committed && s.holder == None
    ensures s.written == []
  {
  }

  lemma CommitEnds(s: Call, t: nat, status: Status, p: Payload, ordered: bool)
    requires s.holder == Some(t)
    ensures var ready := Move(s, t, Writing(status, p, ordered));
      var done := Act(Act(Act(ready, Upsert(t, true)), Advance(t)), Advance(t));
      done.written == s.written + [Item(status, p, ordered)] && done.committed && done.holder == None
  {
    var u := s.(written := s.written + [Item(status, p, ordered)]);
    assert Act(Move(s, t, Writing(status, p, ordered)), Upsert(t, true)) == Move(u, t, Sealing);
    assert Act(Move(u, t, Sealing), Advance(t)) == Move(u.(committed := true), t, Sealed);
  }

  /** The result of a call that nobody terminates is written as it is. */
  lemma ResultIsWritten(s: Call, t: nat, status: Status, text: int)
    requires Inv(s) && !s.cancelled && !s.committed && s.holder == None && t in s.threads && s.threads[t] == Running
    ensures var a := Advance(t);
      var ready := Act(Act(Act(s, Return(t, status, text)), a), a);
      var done := Act(Act(Act(ready, Upsert(t, true)), a), a);
      done.written == [Item(status, RuntimeResult(text), false)] && done.committed && done.holder == None
  {
    NothingWritten(s);
    hide Inv;
    var p := RuntimeResult(text);
    var locked := s.(holder := Some(t));
    assert Act(s, Return(t, status, text)) == Move(s, t, Committing(status, p));
    assert Act(Move(s, t, Committing(status, p)), Advance(t)) == Move(locked, t, Entered(status, p, false));
    assert Act(Move(locked, t, Entered(status, p, false)), Advance(t)) == Move(locked, t, Writing(status, p, false));
    CommitEnds(locked, t, status, p, false);
  }

  lemma RequestLocks(s: Call, t: nat, cause: Cause)
    requires s.holder == None && t !in s.threads
    ensures Act(Act(s, if cause.ByCancel? then Cancel(t) else Timeout(t)), Advance(t))
      == Move(s.(holder := Some(t)), t, Holding(cause))
  {
    assert Act(s, if cause.ByCancel? then Cancel(t) else Timeout(t)) == Move(s, t, Requesting(cause));
  }

  /** A cancel or timeout of a call marks it, unless another one did before: it keeps a call that has not
      started from starting, and its cause is kept. */
  lemma RequestTakesEffect(s: Call, t: nat, cause: Cause)
    requires Inv(s) && s.holder == None && t !in s.threads
    ensures var a := Advance(t);
      var s' := Act(Act(Act(Act(Act(s, if cause.ByCancel? then Cancel(t) else Timeout(t)), a), a), a), a);
      && s'.cancelled && s'.holder == None && s'.threads == s.threads[t := Finished]
      && s'.termination == (if s.cancelled then s.termination else Some(cause))
      && s'.execution == (if !s.cancelled && s.execution == NotStarted then CancelledBeforeStart else s.execution)
  {
    hide Inv;
    RequestLocks(s, t, cause);
    var held := Move(s.(holder := Some(t)), t, Holding(cause));
    if s.cancelled {
      var gone := Move(s, t, Finished);
      assert Act(held, Advance(t)) == gone && Act(gone, Advance(t)) == gone;
    } else {
      var marked := held.(cancelled := true, threads := s.threads[t := Marked(cause)]);
      var caused := marked.(termination := Some(cause), threads := s.threads[t := Caused(cause)]);
      assert Act(held, Advance(t)) == marked && Act(marked, Advance(t)) == caused;
    }
  }

  /** A supervisor reads what the call has come to and asks for the commit lock. */
  lemma SupervisorEnters(s: Call, t: nat, status: Status, p: Payload)
    requires s.cancelled && !s.committed && s.holder == None && t !in s.threads
    requires status == if s.execution == Started then Indeterminate else Cancelled
    requires p == Termination(status, s.termination == Some(ByTimeout))
    ensures var a := Advance(t);
      Act(Act(Act(Act(s, Supervise(t)), a), a), a) == Move(s.(holder := Some(t)), t, Entered(status, p, true))
  {
    assert Act(s, Supervise(t)) == Move(s, t, Settling);
    assert Act(Move(s, t, Settling), Advance(t)) == Move(s, t, SettlingWith(status));
    assert Act(Move(s, t, SettlingWith(status)), Advance(t)) == Move(s, t, Committing(status, p));
  }

  lemma TerminationIsPrepared(s: Call, t: nat, status: Status, p: Payload)
    requires s.cancelled && status == if s.execution == Started then Indeterminate else Cancelled
    requires p == Termination(status, s.termination == Some(ByTimeout))
    ensures var a := Advance(t);
      Act(Act(Act(Move(s, t, Entered(status, p, true)), a), a), a) == Move(s, t, Writing(status, p, true))
  {
    assert Act(Move(s, t, Entered(status, p, true)), Advance(t)) == Move(s, t, Terminating(true));
    assert Act(Move(s, t, Terminating(true)), Advance(t)) == Move(s, t, TerminatingWith(status, true));
  }

  /** A terminated call that nobody has recorded yet is recorded by its supervisor. */
  lemma TerminationIsWritten(s: Call, t: nat)
    requires Inv(s) && s.cancelled && !s.committed && s.holder == None && t !in s.threads
    ensures var a := Advance(t);
      var entered := Act(Act(Act(Act(s, Supervise(t)), a), a), a);
      var ready := Act(Act(Act(entered, a), a), a);
      var done := Act(Act(Act(ready, Upsert(t, true)), a), a);
      var status := if s.execution == Started then Indeterminate else Cancelled;
      && done.written == [Item(status, Termination(status, s.termination == Some(ByTimeout)), true)]
      && done.committed && done.holder == None
  {
    hide Inv, Act, Move;
    var status := if s.execution == Started then Indeterminate else Cancelled;
    var p := Termination(status, s.termination == Some(ByTimeout));
    NothingWritten(s);
    SupervisorEnters(s, t, status, p);
    TerminationIsPrepared(s.(holder := Some(t)), t, status, p);
    CommitEnds(s.(holder := Some(t)), t, status, p, true);
  }

  // ----- what later states keep

  /** From `s` to a later state `s'`. */
  predicate Keeps(s: Call, s': Call) {
    && (s.cancelled ==> s'.cancelled)
    && (s.termination.Some? ==> s'.termination == s.termination)
    && (s.execution != NotStarted ==> s'.execution == s.execution)
    && (s.committed ==> s'.committed)
    && s.written <= s'.written
  }

  lemma AdvanceKeeps(s: Call, t: nat)
    requires Inv(s) && t in s.threads
    ensures Keeps(s, Advanced(s, t))
  {
    assert PointRight(s, t, s.threads[t]);
    hide SharedRight;
  }

  lemma ActKeeps(s: Call, a: Action)
    requires Inv(s)
    ensures Keeps(s, Act(s, a))
  {
    hide Advanced, Inv;
    if a.Advance? && a.thread in s.threads {
      AdvanceKeeps(s, a.thread);
    }
  }

  /** The first of cancel and timeout fixes the cause forever, a call that was cancelled before it
      started never starts, and a written item is never replaced. */
  lemma {:induction false} LaterStatesKeep(s: Call, actions: seq<Action>)
    requires Inv(s)
    ensures Keeps(s, Acts(s, actions))
    decreases |actions|
  {
    hide Act, Inv;
    if actions != [] {
      ActKeeps(s, actions[0]);
      ActKeepsInv(s, actions[0]);
      LaterStatesKeep(Act(s, actions[0]), actions[1..]);
    }
  }

  /** Once the lock is free again after a cancel or timeout marked the call, whatever is still
      written later is a termination item, and `Started` can no longer be reached from `NotStarted`. */
  lemma TerminatedForGood(s: Call, actions: seq<Action>)
    requires Inv(s) && s.cancelled && s.holder == None && !s.committed
    ensures var s' := Acts(s, actions);
      && s'.termination == s.termination && s'.execution == s.execution
      && forall k :: 0 <= k < |s'.written| ==>
           && s'.written[k].payload == Termination(s'.written[k].status, s.termination == Some(ByTimeout))
           && (s'.written[k].status == Cancelled <==> s.execution != Started)
           && (s'.written[k].status == Indeterminate <==> s.execution == Started)
  {
    LaterStatesKeep(s, actions);
    ReachableInv(s, actions);
    WrittenAfterTermination(s, actions);
  }

  /** While the call is cancelled and no commit is past its entry with another view, items are ordered. */
  lemma {:induction false} WrittenAfterTermination(s: Call, actions: seq<Action>)
    requires Inv(s) && s.cancelled && forall k :: 0 <= k < |s.written| ==> s.written[k].ordered
    ensures forall k :: 0 <= k < |Acts(s, actions).written| ==> Acts(s, actions).written[k].ordered
    decreases |actions|
  {
    if actions != [] {
      ActKeepsInv(s, actions[0]);
      StaysOrdered(s, actions[0]);
      hide Act, Inv;
      WrittenAfterTermination(Act(s, actions[0]), actions[1..]);
    }
  }

  lemma StaysOrdered(s: Call, a: Action)
    requires Inv(s) && s.cancelled && forall k :: 0 <= k < |s.written| ==> s.written[k].ordered
    ensures var s' := Act(s, a); s'.cancelled && forall k :: 0 <= k < |s'.written| ==> s'.written[k].ordered
  {
    if a.Upsert? && a.thread in s.threads && s.threads[a.thread].Writing? {
      assert PointRight(s, a.thread, s.threads[a.thread]);
    }
  }
}
