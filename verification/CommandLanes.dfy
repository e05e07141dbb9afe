/** Which command bodies run on a surface, and when: the promise chains of the worker runtime. */
module CommandLanes {
  import opened Options

  /** Annotations have their own lane, dialog commands have none. */
  datatype Kind = Ordinary | Annotation | Dialog

  /** How a body ended by itself. */
  datatype Ending = Succeeded | Failed | SideEffectStarted

  /** The status the main process is told. A cancelled call is indeterminate. */
  datatype Result = Success | Failure | Indeterminate | CancelledResult

  datatype Phase =
    | Queued
    | Running
    | Ended(result: Result)      // the lane promise is settled
    | Returned(result: Result)   // `finally` has run

  /** One call of `execute`, known by its index. `previous` is the promise it waits for. */
  datatype Job = Job(callId: nat, surface: nat, kind: Kind, previous: Option<nat>, aborted: bool, phase: Phase)

  datatype Runtime = Runtime(
    jobs: seq<Job>,
    calls: map<nat, nat>,            // call id to job
    ordinary: map<nat, nat>,         // surface to the last job of its lane
    annotation: map<nat, nat>,
    started: seq<nat>)               // the jobs whose body was entered, in order

  function NewRuntime(): Runtime {
    Runtime([], map[], map[], map[], [])
  }

  function LaneMap(s: Runtime, kind: Kind): map<nat, nat> {
    if kind.Annotation? then s.annotation else s.ordinary
  }

  function SetLane(s: Runtime, kind: Kind, lanes: map<nat, nat>): Runtime {
    if kind.Annotation? then s.(annotation := lanes) else s.(ordinary := lanes)
  }

  function Execute(s: Runtime, callId: nat, surface: nat, kind: Kind): Runtime {
    var j := |s.jobs|;
    var u := s.(calls := s.calls[callId := j]);
    if kind.Dialog? then
      u.(jobs := u.jobs + [Job(callId, surface, kind, None, false, Running)], started := u.started + [j])
    else
      var lanes := LaneMap(u, kind);
      var previous := if surface in lanes then Some(lanes[surface]) else None;
      SetLane(u, kind, lanes[surface := j]).(jobs := u.jobs + [Job(callId, surface, kind, previous, false, Queued)])
  }

  function CancelCall(s: Runtime, callId: nat): Runtime {
    if callId in s.calls && s.calls[callId] < |s.jobs| then
      var j := s.calls[callId];
      s.(jobs := s.jobs[j := s.jobs[j].(aborted := true)])
    else s
  }

  predicate Settled(job: Job) {
    job.phase.Ended? || job.phase.Returned?
  }

  /** The promise a job waits for is resolved. */
  predicate Ready(s: Runtime, j: nat)
    requires j < |s.jobs|
  {
    match s.jobs[j].previous
    case None => true
    case Some(p) => p < |s.jobs| && Settled(s.jobs[p])
  }

  /** The turn of a queued job: a cancelled one ends without entering its body. */
  function Turn(s: Runtime, j: nat): Runtime {
    if j < |s.jobs| && s.jobs[j].phase.Queued? && Ready(s, j) then
      if s.jobs[j].aborted then s.(jobs := s.jobs[j := s.jobs[j].(phase := Ended(CancelledResult))])
      else s.(jobs := s.jobs[j := s.jobs[j].(phase := Running)], started := s.started + [j])
    else s
  }

  function Outcome(aborted: bool, ending: Ending): Result {
    if aborted then CancelledResult
    else match ending
      case Succeeded => Success
      case Failed => Failure
      case SideEffectStarted => Indeterminate
  }

  function Finish(s: Runtime, j: nat, ending: Ending): Runtime {
    if j < |s.jobs| && s.jobs[j].phase.Running? then
      s.(jobs := s.jobs[j := s.jobs[j].(phase := Ended(Outcome(s.jobs[j].aborted, ending)))])
    else s
  }

  function ClearCall(s: Runtime, callId: nat, j: nat): Runtime {
    if callId in s.calls && s.calls[callId] == j then s.(calls := s.calls - {callId}) else s
  }

  function ClearLane(s: Runtime, kind: Kind, surface: nat, j: nat): Runtime {
    var lanes := LaneMap(s, kind);
    if !kind.Dialog? && surface in lanes && lanes[surface] == j then SetLane(s, kind, lanes - {surface}) else s
  }

  /** `execute` returns: it clears its own entries, not those of a later call. */
  function Return(s: Runtime, j: nat): Runtime {
    if j < |s.jobs| && s.jobs[j].phase.Ended? then
      var job := s.jobs[j];
      var u := s.(jobs := s.jobs[j := job.(phase := Returned(job.phase.result))]);
      ClearLane(ClearCall(u, job.callId, j), job.kind, job.surface, j)
    else s
  }

  datatype Action =
    | ExecuteCommand(callId: nat, surface: nat, kind: Kind)
    | CancelCommand(callId: nat)
    | TakeTurn(job: nat)
    | FinishBody(job: nat, ending: Ending)
    | ReturnResult(job: nat)

  function Act(s: Runtime, a: Action): Runtime {
    match a
    case ExecuteCommand(callId, surface, kind) => Execute(s, callId, surface, kind)
    case CancelCommand(callId) => CancelCall(s, callId)
    case TakeTurn(j) => Turn(s, j)
    case FinishBody(j, ending) => Finish(s, j, ending)
    case ReturnResult(j) => Return(s, j)
  }

  function Acts(s: Runtime, actions: seq<Action>): Runtime
    decreases |actions|
  {
    if actions == [] then s else Acts(Act(s, actions[0]), actions[1..])
  }

  // ----- invariant

  predicate SameLane(a: Job, b: Job) {
    !a.kind.Dialog? && a.kind == b.kind && a.surface == b.surface
  }

  /** A job waits for the one before it on its lane; it waits for none only when all before it are done. */
  predicate Chained(jobs: seq<Job>) {
    && (forall k :: 0 <= k < |jobs| && jobs[k].previous.Some? ==>
          jobs[k].previous.value < k && SameLane(jobs[jobs[k].previous.value], jobs[k]))
    && (forall i, k {:trigger SameLane(jobs[i], jobs[k])} :: 0 <= i < k < |jobs| && SameLane(jobs[i], jobs[k]) ==>
          match jobs[k].previous
          case None => Settled(jobs[i])
          case Some(p) => i <= p)
  }

  /** A job that had its turn comes after finished ones only. */
  predicate InTurn(jobs: seq<Job>) {
    forall i, k {:trigger SameLane(jobs[i], jobs[k])} ::
      0 <= i < k < |jobs| && SameLane(jobs[i], jobs[k]) && !jobs[k].phase.Queued? ==>
      Settled(jobs[i])
  }

  predicate LastOfLane(jobs: seq<Job>, j: nat) {
    && j < |jobs| && !jobs[j].kind.Dialog?
    && forall k {:trigger jobs[k]} :: j < k < |jobs| ==> !SameLane(jobs[j], jobs[k])
  }

  /** A lane map holds the last job of each of its lanes that has not returned, and nothing else. */
  predicate HoldsLast(jobs: seq<Job>, kind: Kind, lanes: map<nat, nat>) {
    && (forall x :: x in lanes ==> lanes[x] < |jobs| && jobs[lanes[x]].surface == x && jobs[lanes[x]].kind == kind)
    && (forall j :: 0 <= j < |jobs| && jobs[j].kind == kind && LastOfLane(jobs, j) ==>
          if jobs[j].phase.Returned? then jobs[j].surface !in lanes
          else jobs[j].surface in lanes && lanes[jobs[j].surface] == j)
  }

  predicate LastOfCall(jobs: seq<Job>, j: nat) {
    && j < |jobs|
    && forall k {:trigger jobs[k]} :: j < k < |jobs| ==> jobs[j].callId != jobs[k].callId
  }

  /** The call map holds the last call of each id while it has not returned. */
  predicate HoldsCalls(jobs: seq<Job>, calls: map<nat, nat>) {
    && (forall c :: c in calls ==> calls[c] < |jobs| && jobs[calls[c]].callId == c && !jobs[calls[c]].phase.Returned?)
    && (forall j :: 0 <= j < |jobs| && LastOfCall(jobs, j) && !jobs[j].phase.Returned? ==>
          jobs[j].callId in calls && calls[jobs[j].callId] == j)
  }

  /** Bodies were entered once, in arrival order on each lane. */
  predicate InOrder(jobs: seq<Job>, started: seq<nat>) {
    && (forall n :: 0 <= n < |started| ==> started[n] < |jobs| && !jobs[started[n]].phase.Queued?)
    && (forall n, m :: 0 <= n < m < |started| ==>
          started[n] != started[m] && (SameLane(jobs[started[n]], jobs[started[m]]) ==> started[n] < started[m]))
    && (forall j :: 0 <= j < |jobs| && jobs[j].phase.Running? ==> j in started)
  }

  predicate Inv(s: Runtime) {
    && Chained(s.jobs) && InTurn(s.jobs)
    && HoldsLast(s.jobs, Ordinary, s.ordinary) && HoldsLast(s.jobs, Annotation, s.annotation)
    && HoldsCalls(s.jobs, s.calls) && InOrder(s.jobs, s.started)
  }

  // ----- a new job

  /** The last job of a lane at or after `j`. */
  lemma {:induction false} LastExists(jobs: seq<Job>, j: nat) returns (last: nat)
    requires j < |jobs| && !jobs[j].kind.Dialog?
    ensures j <= last < |jobs| && LastOfLane(jobs, last) && SameLane(jobs[j], jobs[last])
    decreases |jobs| - j
  {
    if k :| j < k < |jobs| && SameLane(jobs[j], jobs[k]) {
      last := LastExists(jobs, k);
    } else {
      last := j;
    }
  }

  predicate Entering(s: Runtime, job: Job) {
    if job.kind.Dialog? then job.phase.Running? && job.previous.None?
    else
      var lanes := LaneMap(s, job.kind);
      job.phase.Queued? && job.previous == (if job.surface in lanes then Some(lanes[job.surface]) else None)
  }

  lemma AddKeepsChain(s: Runtime, job: Job)
    requires Inv(s) && Entering(s, job)
    ensures Chained(s.jobs + [job]) && InTurn(s.jobs + [job])
  {
    var jobs := s.jobs + [job];
    var j := |s.jobs|;
    forall i | 0 <= i < j && SameLane(jobs[i], job)
      ensures match job.previous
        case None => Settled(jobs[i])
        case Some(p) => i <= p
    {
      var last := LastExists(s.jobs, i);
    }
  }

  lemma AddKeepsLast(jobs: seq<Job>, kind: Kind, lanes: map<nat, nat>, job: Job)
    requires HoldsLast(jobs, kind, lanes) && !kind.Dialog? && !job.phase.Returned?
    ensures HoldsLast(jobs + [job], kind, if job.kind == kind then lanes[job.surface := |jobs|] else lanes)
  {
    var more := jobs + [job];
    forall i | 0 <= i < |jobs| && more[i].kind == kind && LastOfLane(more, i)
      ensures LastOfLane(jobs, i) && !SameLane(more[i], job)
    {
      assert more[|jobs|] == job;
      assert forall k :: 0 <= k < |jobs| ==> jobs[k] == more[k];
    }
  }

  lemma AddKeepsCalls(jobs: seq<Job>, calls: map<nat, nat>, job: Job)
    requires HoldsCalls(jobs, calls) && !job.phase.Returned?
    ensures HoldsCalls(jobs + [job], calls[job.callId := |jobs|])
  {
    var more := jobs + [job];
    forall i | 0 <= i < |jobs| && LastOfCall(more, i)
      ensures LastOfCall(jobs, i) && more[i].callId != job.callId
    {
      assert more[|jobs|] == job;
      assert forall k :: 0 <= k < |jobs| ==> jobs[k] == more[k];
    }
  }

  lemma AddKeepsOrder(jobs: seq<Job>, started: seq<nat>, job: Job)
    requires InOrder(jobs, started) && (job.phase.Queued? || (job.kind.Dialog? && job.phase.Running?))
    ensures InOrder(jobs + [job], if job.phase.Running? then started + [|jobs|] else started)
  {
    var more, log := jobs + [job], if job.phase.Running? then started + [|jobs|] else started;
    assert forall i :: 0 <= i < |jobs| ==> more[i] == jobs[i];
    assert forall n :: 0 <= n < |started| ==> log[n] == started[n];
    assert job.phase.Running? ==> log[|started|] == |jobs|;
    forall i | 0 <= i < |more| && more[i].phase.Running? ensures i in log {
      assert i == |jobs| || i in started;
    }
    forall n, m | 0 <= n < m < |log|
      ensures log[n] != log[m] && (SameLane(more[log[n]], more[log[m]]) ==> log[n] < log[m])
    {
      assert m < |started| ==> SameLane(more[log[n]], more[log[m]]) == SameLane(jobs[started[n]], jobs[started[m]]);
    }
  }

  lemma ExecuteKeepsInv(s: Runtime, callId: nat, surface: nat, kind: Kind)
    requires Inv(s)
    ensures Inv(Execute(s, callId, surface, kind))
  {
    var s' := Execute(s, callId, surface, kind);
    var job := s'.jobs[|s.jobs|];
    AddKeepsChain(s, job);
    AddKeepsLast(s.jobs, Ordinary, s.ordinary, job);
    AddKeepsLast(s.jobs, Annotation, s.annotation, job);
    AddKeepsCalls(s.jobs, s.calls, job);
    AddKeepsOrder(s.jobs, s.started, job);
    hide Chained, InTurn, HoldsLast, HoldsCalls, InOrder;
  }

  // ----- a job moves on

  /** What a job can become: it keeps its place, and what is done stays done. */
  predicate Moves(before: Job, after: Job) {
    && after.callId == before.callId && after.surface == before.surface
    && after.kind == before.kind && after.previous == before.previous
    && (Settled(before) ==> Settled(after))
    && (!before.phase.Queued? ==> !after.phase.Queued?)
    && (after.phase.Running? ==> before.phase.Queued? || before.phase.Running?)
  }

  /** Moving on changes no lane. */
  lemma LanesKept(jobs: seq<Job>, j: nat, job: Job, moved: seq<Job>)
    requires j < |jobs| && Moves(jobs[j], job) && moved == jobs[j := job]
    ensures forall i, k {:trigger SameLane(moved[i], moved[k])} :: 0 <= i < |jobs| && 0 <= k < |jobs| ==>
      SameLane(moved[i], moved[k]) == SameLane(jobs[i], jobs[k])
  {
  }

  lemma MoveKeepsChain(s: Runtime, j: nat, job: Job)
    requires Chained(s.jobs) && InTurn(s.jobs) && j < |s.jobs| && Moves(s.jobs[j], job)
    requires s.jobs[j].phase.Queued? && !job.phase.Queued? ==> Ready(s, j)
    ensures Chained(s.jobs[j := job]) && InTurn(s.jobs[j := job])
  {
    var jobs := s.jobs[j := job];
    forall i | 0 <= i < j && SameLane(s.jobs[i], s.jobs[j]) && s.jobs[j].phase.Queued? && !job.phase.Queued?
      ensures Settled(s.jobs[i])
    {
      match s.jobs[j].previous {
        case None =>
        case Some(p) => assert i == p || SameLane(s.jobs[i], s.jobs[p]);
      }
    }
    LanesKept(s.jobs, j, job, jobs);
    hide SameLane, Ready;
  }

  lemma LastKept(jobs: seq<Job>, j: nat, job: Job, i: nat)
    requires j < |jobs| && Moves(jobs[j], job) && LastOfLane(jobs[j := job], i)
    ensures LastOfLane(jobs, i)
  {
    assert forall k :: 0 <= k < |jobs| ==> SameLane(jobs[i], jobs[k]) == SameLane(jobs[j := job][i], jobs[j := job][k]);
  }

  lemma MoveKeepsLast(jobs: seq<Job>, kind: Kind, lanes: map<nat, nat>, j: nat, job: Job)
    requires HoldsLast(jobs, kind, lanes) && !kind.Dialog?
    requires j < |jobs| && Moves(jobs[j], job) && job.phase.Returned? == jobs[j].phase.Returned?
    ensures HoldsLast(jobs[j := job], kind, lanes)
  {
    var moved := jobs[j := job];
    forall i | 0 <= i < |jobs| && LastOfLane(moved, i) ensures LastOfLane(jobs, i) {
      LastKept(jobs, j, job, i);
    }
    hide LastOfLane, Moves;
  }

  lemma MoveKeepsCalls(jobs: seq<Job>, calls: map<nat, nat>, j: nat, job: Job)
    requires HoldsCalls(jobs, calls)
    requires j < |jobs| && Moves(jobs[j], job) && job.phase.Returned? == jobs[j].phase.Returned?
    ensures HoldsCalls(jobs[j := job], calls)
  {
    var moved := jobs[j := job];
    forall i | 0 <= i < |jobs| && LastOfCall(moved, i) ensures LastOfCall(jobs, i) {
      assert forall k :: 0 <= k < |jobs| ==> jobs[k].callId == moved[k].callId;
    }
  }

  lemma MoveKeepsOrder(jobs: seq<Job>, started: seq<nat>, j: nat, job: Job)
    requires InOrder(jobs, started) && j < |jobs| && Moves(jobs[j], job)
    requires job.phase.Running? ==> jobs[j].phase.Running?
    ensures InOrder(jobs[j := job], started)
  {
  }

  lemma MoveKeepsInv(s: Runtime, j: nat, job: Job)
    requires Inv(s) && j < |s.jobs| && Moves(s.jobs[j], job) && job.phase.Returned? == s.jobs[j].phase.Returned?
    requires s.jobs[j].phase.Queued? && !job.phase.Queued? ==> Ready(s, j)
    requires job.phase.Running? ==> s.jobs[j].phase.Running?
    ensures Inv(s.(jobs := s.jobs[j := job]))
  {
    MoveKeepsChain(s, j, job);
    MoveKeepsLast(s.jobs, Ordinary, s.ordinary, j, job);
    MoveKeepsLast(s.jobs, Annotation, s.annotation, j, job);
    MoveKeepsCalls(s.jobs, s.calls, j, job);
    MoveKeepsOrder(s.jobs, s.started, j, job);
    hide Chained, InTurn, HoldsLast, HoldsCalls, InOrder;
  }

  /** A body is entered: everything that was entered before on its lane came earlier. */
  lemma StartKeepsInv(s: Runtime, j: nat, job: Job)
    requires Inv(s) && j < |s.jobs| && s.jobs[j].phase.Queued? && Ready(s, j) && job == s.jobs[j].(phase := Running)
    ensures Inv(s.(jobs := s.jobs[j := job], started := s.started + [j]))
  {
    MoveKeepsChain(s, j, job);
    MoveKeepsLast(s.jobs, Ordinary, s.ordinary, j, job);
    MoveKeepsLast(s.jobs, Annotation, s.annotation, j, job);
    MoveKeepsCalls(s.jobs, s.calls, j, job);
    StartKeepsOrder(s, j, job);
    hide Chained, InTurn, HoldsLast, HoldsCalls, InOrder;
  }

  lemma StartKeepsOrder(s: Runtime, j: nat, job: Job)
    requires Inv(s) && j < |s.jobs| && s.jobs[j].phase.Queued? && Ready(s, j) && job == s.jobs[j].(phase := Running)
    ensures InOrder(s.jobs[j := job], s.started + [j])
  {
    hide HoldsLast, HoldsCalls, Chained;
    var jobs, started := s.jobs[j := job], s.started + [j];
    forall n | 0 <= n < |s.started| && SameLane(s.jobs[s.started[n]], s.jobs[j]) ensures s.started[n] < j {
      assert SameLane(s.jobs[j], s.jobs[s.started[n]]);
    }
    assert forall i, k :: 0 <= i < |jobs| && 0 <= k < |jobs| ==> SameLane(jobs[i], jobs[k]) == SameLane(s.jobs[i], s.jobs[k]);
    assert started[|s.started|] == j;
    forall i | 0 <= i < |jobs| && jobs[i].phase.Running? ensures i in started {
      assert i == j || i in s.started;
    }
  }

  lemma ReturnKeepsLast(jobs: seq<Job>, kind: Kind, lanes: map<nat, nat>, j: nat, job: Job)
    requires HoldsLast(jobs, kind, lanes) && !kind.Dialog?
    requires j < |jobs| && Moves(jobs[j], job) && jobs[j].phase.Ended? && job.phase.Returned?
    ensures HoldsLast(jobs[j := job], kind,
      if job.kind == kind && job.surface in lanes && lanes[job.surface] == j then lanes - {job.surface} else lanes)
  {
    var moved, x := jobs[j := job], job.surface;
    var rest := if job.kind == kind && x in lanes && lanes[x] == j then lanes - {x} else lanes;
    forall i | 0 <= i < |jobs| && moved[i].kind == kind && LastOfLane(moved, i)
      ensures if moved[i].phase.Returned? then moved[i].surface !in rest
        else moved[i].surface in rest && rest[moved[i].surface] == i
    {
      LastKept(jobs, j, job, i);
      hide LastOfLane, SameLane;
      assert jobs[i].surface == moved[i].surface && jobs[i].kind == kind;
    }
    hide LastOfLane;
  }

  lemma ReturnKeepsCalls(jobs: seq<Job>, calls: map<nat, nat>, j: nat, job: Job)
    requires HoldsCalls(jobs, calls)
    requires j < |jobs| && Moves(jobs[j], job) && jobs[j].phase.Ended? && job.phase.Returned?
    ensures HoldsCalls(jobs[j := job], if job.callId in calls && calls[job.callId] == j then calls - {job.callId} else calls)
  {
    var moved := jobs[j := job];
    forall i | 0 <= i < |jobs| && LastOfCall(moved, i) ensures LastOfCall(jobs, i) {
      assert forall k :: 0 <= k < |jobs| ==> jobs[k].callId == moved[k].callId;
    }
    forall i | 0 <= i < |jobs| && i != j && LastOfCall(moved, i) && !moved[i].phase.Returned?
      ensures moved[i].callId in calls && calls[moved[i].callId] == i
    {
      assert LastOfCall(jobs, i);
    }
  }

  lemma ReturnKeepsInv(s: Runtime, j: nat)
    requires Inv(s)
    ensures Inv(Return(s, j))
  {
    if j < |s.jobs| && s.jobs[j].phase.Ended? {
      var job := s.jobs[j].(phase := Returned(s.jobs[j].phase.result));
      MoveKeepsChain(s, j, job);
      ReturnKeepsLast(s.jobs, Ordinary, s.ordinary, j, job);
      ReturnKeepsLast(s.jobs, Annotation, s.annotation, j, job);
      ReturnKeepsCalls(s.jobs, s.calls, j, job);
      MoveKeepsOrder(s.jobs, s.started, j, job);
      hide Chained, InTurn, HoldsLast, HoldsCalls, InOrder;
    }
  }

  lemma ActKeepsInv(s: Runtime, a: Action)
    requires Inv(s)
    ensures Inv(Act(s, a))
  {
    hide Inv;
    match a {
      case ExecuteCommand(callId, surface, kind) => ExecuteKeepsInv(s, callId, surface, kind);
      case CancelCommand(callId) =>
        if callId in s.calls && s.calls[callId] < |s.jobs| {
          MoveKeepsInv(s, s.calls[callId], s.jobs[s.calls[callId]].(aborted := true));
        }
      case TakeTurn(j) =>
        if j < |s.jobs| && s.jobs[j].phase.Queued? && Ready(s, j) {
          if s.jobs[j].aborted {
            MoveKeepsInv(s, j, s.jobs[j].(phase := Ended(CancelledResult)));
          } else {
            StartKeepsInv(s, j, s.jobs[j].(phase := Running));
          }
        }
      case FinishBody(j, ending) =>
        if j < |s.jobs| && s.jobs[j].phase.Running? {
          MoveKeepsInv(s, j, s.jobs[j].(phase := Ended(Outcome(s.jobs[j].aborted, ending))));
        }
      case ReturnResult(j) => ReturnKeepsInv(s, j);
    }
  }

  lemma {:induction false} RunKeepsInv(s: Runtime, actions: seq<Action>)
    requires Inv(s)
    ensures Inv(Acts(s, actions))
    decreases |actions|
  {
    if actions != [] {
      hide Inv, Act;
      ActKeepsInv(s, actions[0]);
      RunKeepsInv(Act(s, actions[0]), actions[1..]);
    }
  }

  // ----- over whole runs

  /** At most one body runs on a lane: one ordinary and one annotation command for each surface. */
  lemma OneBodyPerLane(actions: seq<Action>, i: nat, k: nat)
    requires var jobs := Acts(NewRuntime(), actions).jobs;
      i < |jobs| && k < |jobs| && SameLane(jobs[i], jobs[k]) && jobs[i].phase.Running? && jobs[k].phase.Running?
    ensures i == k
  {
    RunKeepsInv(NewRuntime(), actions);
    var jobs := Acts(NewRuntime(), actions).jobs;
    assert SameLane(jobs[k], jobs[i]);
  }

  /** Bodies are entered at most once, and on a lane in arrival order. */
  lemma ArrivalOrder(actions: seq<Action>, n: nat, m: nat)
    requires n < m < |Acts(NewRuntime(), actions).started|
    ensures var s := Acts(NewRuntime(), actions);
      && s.started[n] < |s.jobs| && s.started[m] < |s.jobs| && s.started[n] != s.started[m]
      && (SameLane(s.jobs[s.started[n]], s.jobs[s.started[m]]) ==> s.started[n] < s.started[m])
  {
    RunKeepsInv(NewRuntime(), actions);
  }

  /** A lane has a map entry exactly while its last call has not returned; an idle one has none. */
  lemma IdleLaneLeavesNothing(actions: seq<Action>, surface: nat, kind: Kind)
    requires !kind.Dialog?
    ensures var s := Acts(NewRuntime(), actions);
      surface in LaneMap(s, kind) <==>
        exists j :: 0 <= j < |s.jobs| && LastOfLane(s.jobs, j) && s.jobs[j].kind == kind && s.jobs[j].surface == surface
          && !s.jobs[j].phase.Returned?
  {
    RunKeepsInv(NewRuntime(), actions);
    var s := Acts(NewRuntime(), actions);
    var lanes := LaneMap(s, kind);
    if surface in lanes {
      var last := LastExists(s.jobs, lanes[surface]);
    }
  }

  /** A cancel reaches the call it names, unless the id was used again. */
  lemma CancelReaches(actions: seq<Action>, j: nat)
    requires var jobs := Acts(NewRuntime(), actions).jobs;
      j < |jobs| && LastOfCall(jobs, j) && !jobs[j].phase.Returned?
    ensures var s := Acts(NewRuntime(), actions); Act(s, CancelCommand(s.jobs[j].callId)).jobs[j].aborted
  {
    RunKeepsInv(NewRuntime(), actions);
  }

  /** A job cancelled before its turn: its body was not entered, and it can end only as cancelled. */
  predicate Doomed(s: Runtime, j: nat) {
    && j < |s.jobs| && s.jobs[j].aborted && j !in s.started
    && (s.jobs[j].phase.Queued? || (Settled(s.jobs[j]) && s.jobs[j].phase.result == CancelledResult))
  }

  lemma DoomedStep(s: Runtime, a: Action, j: nat)
    requires Doomed(s, j)
    ensures Doomed(Act(s, a), j)
  {
  }

  lemma {:induction false} DoomedStays(s: Runtime, actions: seq<Action>, j: nat)
    requires Doomed(s, j)
    ensures Doomed(Acts(s, actions), j)
    decreases |actions|
  {
    if actions != [] {
      DoomedStep(s, actions[0], j);
      hide Doomed, Act;
      DoomedStays(Act(s, actions[0]), actions[1..], j);
    }
  }

  /** Once a queued job is cancelled, its body is never entered, whatever follows. */
  lemma CancelledBeforeTurnNeverRuns(before: seq<Action>, after: seq<Action>, j: nat)
    requires var s := Acts(NewRuntime(), before); j < |s.jobs| && s.jobs[j].phase.Queued? && s.jobs[j].aborted
    ensures Doomed(Acts(Acts(NewRuntime(), before), after), j)
  {
    RunKeepsInv(NewRuntime(), before);
    DoomedStays(Acts(NewRuntime(), before), after, j);
  }

  /** No call is stuck: it runs, or it can take its turn, or another call of its lane before it does. */
  lemma {:induction false} NoCallIsStuck(actions: seq<Action>, j: nat) returns (i: nat)
    requires var jobs := Acts(NewRuntime(), actions).jobs; j < |jobs| && !Settled(jobs[j])
    ensures var s := Acts(NewRuntime(), actions);
      && i <= j && (i == j || SameLane(s.jobs[i], s.jobs[j]))
      && (s.jobs[i].phase.Running? || (s.jobs[i].phase.Queued? && Ready(s, i)))
    decreases j
  {
    RunKeepsInv(NewRuntime(), actions);
    var s := Acts(NewRuntime(), actions);
    i := j;
    if s.jobs[j].phase.Queued? && !Ready(s, j) {
      i := NoCallIsStuck(actions, s.jobs[j].previous.value);
    }
  }

  // ----- what is reported

  /** The body of the job ended by itself, and the result says how. */
  ghost predicate EndedBy(actions: seq<Action>, j: nat, result: Result) {
    exists i :: 0 <= i < |actions| && actions[i].FinishBody? && actions[i].job == j
      && match actions[i].ending
         case Succeeded => result == Success
         case Failed => result == Failure
         case SideEffectStarted => result == Indeterminate
  }

  predicate HasResult(s: Runtime, j: nat, result: Result) {
    j < |s.jobs| && Settled(s.jobs[j]) && s.jobs[j].phase.result == result
  }

  lemma ResultStep(s: Runtime, a: Action, j: nat, result: Result)
    requires HasResult(Act(s, a), j, result)
    ensures HasResult(s, j, result) || (result == CancelledResult && Act(s, a).jobs[j].aborted) || EndedBy([a], j, result)
  {
    if a.FinishBody? && a.job == j && !HasResult(s, j, result) && j < |s.jobs| && !s.jobs[j].aborted {
      assert [a][0].FinishBody? && [a][0].job == j;
    }
  }

  lemma AbortStays(s: Runtime, a: Action, j: nat)
    requires j < |s.jobs| && s.jobs[j].aborted
    ensures j < |Act(s, a).jobs| && Act(s, a).jobs[j].aborted
  {
  }

  lemma {:induction false} AbortStaysOverRun(s: Runtime, actions: seq<Action>, j: nat)
    requires j < |s.jobs| && s.jobs[j].aborted
    ensures j < |Acts(s, actions).jobs| && Acts(s, actions).jobs[j].aborted
    decreases |actions|
  {
    hide Act;
    if actions != [] {
      AbortStays(s, actions[0], j);
      AbortStaysOverRun(Act(s, actions[0]), actions[1..], j);
    }
  }

  /** A result other than cancelled tells how the body ended, and only an aborted call is reported cancelled. */
  lemma {:induction false} ResultTellsEnding(s: Runtime, actions: seq<Action>, j: nat, result: Result)
    requires HasResult(Acts(s, actions), j, result)
    ensures || HasResult(s, j, result) || EndedBy(actions, j, result)
      || (result == CancelledResult && Acts(s, actions).jobs[j].aborted)
    decreases |actions|
  {
    hide Act;
    if actions != [] {
      var a, rest := actions[0], actions[1..];
      ResultTellsEnding(Act(s, a), rest, j, result);
      if EndedBy(rest, j, result) {
        var i :| 0 <= i < |rest| && rest[i].FinishBody? && rest[i].job == j
          && match rest[i].ending
             case Succeeded => result == Success
             case Failed => result == Failure
             case SideEffectStarted => result == Indeterminate;
        assert actions[i + 1] == rest[i];
      } else if HasResult(Act(s, a), j, result) {
        ResultStep(s, a, j, result);
        if EndedBy([a], j, result) {
          assert actions[0] == [a][0];
        } else if !HasResult(s, j, result) {
          AbortStaysOverRun(Act(s, a), rest, j);
        }
      }
    }
  }

  /** In every run: what a settled call reports. */
  lemma ReportedResult(actions: seq<Action>, j: nat, result: Result)
    requires HasResult(Acts(NewRuntime(), actions), j, result)
    ensures EndedBy(actions, j, result) || (result == CancelledResult && Acts(NewRuntime(), actions).jobs[j].aborted)
  {
    ResultTellsEnding(NewRuntime(), actions, j, result);
  }

  /** A body that ends settles its call, as cancelled exactly when the call was aborted. */
  lemma EndSettles(s: Runtime, j: nat, ending: Ending)
    requires j < |s.jobs| && s.jobs[j].phase.Running?
    ensures var s' := Act(s, FinishBody(j, ending));
      && j < |s'.jobs| && s'.jobs[j].phase.Ended?
      && (s'.jobs[j].phase.result == CancelledResult <==> s.jobs[j].aborted)
      && (!s.jobs[j].aborted ==> EndedBy([FinishBody(j, ending)], j, s'.jobs[j].phase.result))
      && var s'' := Act(s', ReturnResult(j)); s''.jobs[j].phase == Returned(s'.jobs[j].phase.result)
  {
    assert [FinishBody(j, ending)][0] == FinishBody(j, ending);
  }
}
