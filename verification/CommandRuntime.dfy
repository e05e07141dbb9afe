/** The part of the worker runtime that admits commands: the call map and the two lane maps, updated in
    place by each synchronous piece of `execute` and by `cancel`. */
module CommandRuntime {
  import opened Options
  import opened CommandLanes

  class CommandRuntime {
    var jobs: seq<Job>
    var calls: map<nat, nat>
    var ordinary: map<nat, nat>
    var annotation: map<nat, nat>
    var started: seq<nat>

    function State(): Runtime
      reads this
    {
      Runtime(jobs, calls, ordinary, annotation, started)
    }

    ghost predicate Valid()
      reads this
    {
      Inv(State())
    }

    constructor ()
      ensures Valid() && State() == NewRuntime()
    {
      jobs, calls, ordinary, annotation, started := [], map[], map[], map[], [];
    }

    /** `execute` up to its first suspension. */
    method Begin(callId: nat, surface: nat, kind: Kind) returns (job: nat)
      requires Valid()
      modifies this
      ensures Valid()
      ensures job == old(|jobs|) && State() == Execute(old(State()), callId, surface, kind)
    {
      ExecuteKeepsInv(State(), callId, surface, kind);
      hide Inv;
      job := |jobs|;
      calls := calls[callId := job];
      if kind.Dialog? {
        jobs := jobs + [Job(callId, surface, kind, None, false, Running)];
        started := started + [job];
        return;
      }
      var lanes := if kind.Annotation? then annotation else ordinary;
      var previous := if surface in lanes then Some(lanes[surface]) else None;
      if kind.Annotation? {
        annotation := annotation[surface := job];
      } else {
        ordinary := ordinary[surface := job];
      }
      jobs := jobs + [Job(callId, surface, kind, previous, false, Queued)];
    }

    method CancelById(callId: nat)
      requires Valid()
      modifies this`jobs
      ensures Valid()
      ensures State() == CancelCall(old(State()), callId)
    {
      ActKeepsInv(State(), CancelCommand(callId));
      hide Inv;
      if callId in calls && calls[callId] < |jobs| {
        jobs := jobs[calls[callId] := jobs[calls[callId]].(aborted := true)];
      }
    }

    /** The promise before a queued job is settled, and its `run` is called. A body is entered only when the
        call was not cancelled and every call before it on its lane is done. */
    method RunTurn(job: nat)
      requires Valid()
      modifies this`jobs, this`started
      ensures Valid()
      ensures State() == Turn(old(State()), job)
      ensures started != old(started) ==>
        && started == old(started) + [job] && job < |jobs| && !jobs[job].aborted
        && forall i :: 0 <= i < job && SameLane(jobs[i], jobs[job]) ==> Settled(jobs[i])
    {
      ActKeepsInv(State(), TakeTurn(job));
      hide Inv;
      if job < |jobs| && jobs[job].phase.Queued? && Ready(State(), job) {
        if jobs[job].aborted {
          jobs := jobs[job := jobs[job].(phase := Ended(CancelledResult))];
        } else {
          jobs := jobs[job := jobs[job].(phase := Running)];
          started := started + [job];
          EnteredInTurn(State(), job);
        }
      }
    }

    method EndBody(job: nat, ending: Ending)
      requires Valid()
      modifies this`jobs
      ensures Valid()
      ensures State() == Finish(old(State()), job, ending)
      ensures job < |jobs| && old(jobs)[job].phase.Running? && old(jobs)[job].aborted ==>
        jobs[job].phase == Ended(CancelledResult)
    {
      ActKeepsInv(State(), FinishBody(job, ending));
      hide Inv;
      if job < |jobs| && jobs[job].phase.Running? {
        jobs := jobs[job := jobs[job].(phase := Ended(Outcome(jobs[job].aborted, ending)))];
      }
    }

    method ForgetCall(callId: nat, job: nat)
      modifies this`calls
      ensures State() == ClearCall(old(State()), callId, job)
    {
      if callId in calls && calls[callId] == job {
        calls := calls - {callId};
      }
    }

    method ForgetLane(kind: Kind, surface: nat, job: nat)
      modifies this`ordinary, this`annotation
      ensures State() == ClearLane(old(State()), kind, surface, job)
    {
      if kind.Annotation? {
        if surface in annotation && annotation[surface] == job {
          annotation := annotation - {surface};
        }
      } else if kind.Ordinary? {
        if surface in ordinary && ordinary[surface] == job {
          ordinary := ordinary - {surface};
        }
      }
    }

    /** The `finally` block of `execute`. */
    method Leave(job: nat)
      requires Valid()
      modifies this
      ensures Valid()
      ensures State() == Return(old(State()), job)
    {
      ReturnKeepsInv(State(), job);
      hide Inv, ClearCall, ClearLane;
      if !(job < |jobs| && jobs[job].phase.Ended?) {
        return;
      }
      var ended := jobs[job];
      jobs := jobs[job := ended.(phase := Returned(ended.phase.result))];
      ForgetCall(ended.callId, job);
      ForgetLane(ended.kind, ended.surface, job);
    }
  }

  lemma EnteredInTurn(s: Runtime, j: nat)
    requires Inv(s) && j < |s.jobs| && s.jobs[j].phase.Running?
    ensures forall i :: 0 <= i < j && SameLane(s.jobs[i], s.jobs[j]) ==> Settled(s.jobs[i])
  {
  }
}
