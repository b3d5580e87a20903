// What the records a lease is read from say of the run's stages: the lease
// derivation looks at single approvals (internal/engine/lease.go,
// contract_binding.go), the replay at the whole chain (stage_state.go).
module StageLeases {
  import opened Vocabulary
  import opened CoreModel
  import opened StageProjection
  import opened StageMachine
  import Leases
  import Transitions

  // The i-th record takes the run from one stage to another.
  predicate Takes(log: seq<Record>, i: nat, from: Stage, to: Stage)
    requires i < |log|
  {
    StageOf(log[..i]) == from != to == StageOf(log[..i + 1])
  }

  lemma StageSnoc(log: seq<Record>, r: Record)
    ensures StageOf(log + [r]) ==
              if ApprovedTransition(r) && ValidStage(r.payload.approval.value.targetStage) then r.payload.approval.value.targetStage
              else StageOf(log)
  {
    assert (log + [r])[..|log|] == log;
  }

  lemma MoverIsApplied(runId: string, log: seq<Record>, r: Record)
    requires Step(runId, log, r) && ApprovedTransition(r)
    ensures r.payload.approval.value.currentStage == StageOf(log) && r.payload.approval.value.unitId == r.payload.unitId
  {
    assert ApplyStep(runId, log, r);
    var req: Transitions.Request, t: Stamp :|
      req.state == Projected(log) && Transitions.Evaluate(req).Legal? && r == Sealed(runId, log, ApplyContent(req, t));
  }

  // A record moves the run if and only if it is an approved transition, and
  // then from the stage its approval says to the stage its approval names.
  lemma StepTakes(runId: string, log: seq<Record>, r: Record)
    requires Step(runId, log, r)
    ensures StageOf(log + [r]) != StageOf(log) <==> ApprovedTransition(r)
    ensures ApprovedTransition(r) ==>
              var a := r.payload.approval.value;
              a.currentStage == StageOf(log) && a.targetStage == StageOf(log + [r]) && a.unitId == r.payload.unitId
  {
    StageSnoc(log, r);
    StepMovesOrEnds(runId, log, r);
    if ApprovedTransition(r) {
      MoverIsApplied(runId, log, r);
    }
  }

  // What one record does to the stage, as Takes says it.
  lemma StepTakesAt(log: seq<Record>, i: nat, before: Stage, after: Stage)
    requires i < |log| && before == StageOf(log[..i]) && after == StageOf(log[..i] + [log[i]])
    ensures StageOf(log[..i + 1]) == after
    ensures before != after ==> Takes(log, i, before, after)
  {
    assert log[..i + 1] == log[..i] + [log[i]];
  }

  lemma RecordTakes(runId: string, log: seq<Record>, i: nat)
    requires i < |log| && Step(runId, log[..i], log[i])
    ensures
      var a := log[i].payload.approval;
      && (ApprovedTransition(log[i]) ==> Takes(log, i, a.value.currentStage, a.value.targetStage) && a.value.unitId == log[i].payload.unitId)
      && (!ApprovedTransition(log[i]) ==> StageOf(log[..i + 1]) == StageOf(log[..i]))
  {
    var before, r := log[..i], log[i];
    StepTakes(runId, before, r);
    StepTakesAt(log, i, StageOf(before), StageOf(before + [r]));
  }

  // In a reachable chain a record issues a unit's lease if and only if it takes
  // the run to IMPLEMENTATION_AUTHORIZATION for that unit.
  lemma IssuerAuthorizes(runId: string, log: seq<Record>, i: nat, unit: string)
    requires Reachable(runId, log) && i < |log|
    ensures Leases.IssuesLease(log[i], unit) <==>
              && unit != "" && log[i].payload.unitId == unit
              && exists from :: Takes(log, i, from, ImplementationAuthorization)
  {
    StepAt(runId, log, i);
    RecordTakes(runId, log, i);
    var a := log[i].payload.approval;
    if ApprovedTransition(log[i]) {
      OnlyTwoAuthorize(StageOf(log[..i]));
      MoveIsLegal(runId, log, i);
    }
  }

  lemma OnlyTwoAuthorize(from: Stage)
    ensures Transitions.IsLegalEdge(from, ImplementationAuthorization) <==> from.RouteSelection? || from.IndependentValidation?
  {
  }

  lemma MoveIsLegal(runId: string, log: seq<Record>, i: nat)
    requires Reachable(runId, log) && i < |log| && ApprovedTransition(log[i])
    ensures Transitions.IsLegalEdge(StageOf(log[..i]), log[i].payload.approval.value.targetStage)
  {
    StepAt(runId, log, i);
    StepMovesOrEnds(runId, log[..i], log[i]);
  }

  // It approves the unit's route if and only if it takes the run there from
  // ROUTE_SELECTION.
  lemma RouteApprovalAuthorizes(runId: string, log: seq<Record>, i: nat, unit: string)
    requires Reachable(runId, log) && i < |log|
    ensures Leases.ApprovesRoute(log[i], unit) <==>
              log[i].payload.unitId == unit && Takes(log, i, RouteSelection, ImplementationAuthorization)
  {
    StepAt(runId, log, i);
    RecordTakes(runId, log, i);
  }

  // And it binds a contract if and only if it takes the run from the criteria
  // to PLANNING.
  lemma AcceptanceAdvances(runId: string, log: seq<Record>, i: nat)
    requires Reachable(runId, log) && i < |log|
    ensures Leases.AcceptsContract(log[i]) <==> Takes(log, i, AcceptanceCriteria, Planning)
  {
    StepAt(runId, log, i);
    RecordTakes(runId, log, i);
  }

  // So a run whose lease is bound to a contract has been at the criteria, and
  // left them for PLANNING.
  lemma BoundRunAccepted(runId: string, log: seq<Record>)
    requires Reachable(runId, log)
    ensures (exists i :: 0 <= i < |log| && Takes(log, i, AcceptanceCriteria, Planning)) <==> exists k :: Leases.LatestAcceptance(log, k)
  {
    if k :| Leases.LatestAcceptance(log, k) {
      AcceptanceAdvances(runId, log, k);
    }
    if i :| 0 <= i < |log| && Takes(log, i, AcceptanceCriteria, Planning) {
      AcceptanceAdvances(runId, log, i);
      var k := LastAcceptance(log, i);
    }
  }

  lemma LastAcceptance(log: seq<Record>, i: nat) returns (k: nat)
    requires i < |log| && Leases.AcceptsContract(log[i])
    ensures Leases.LatestAcceptance(log, k)
    decreases |log| - i
  {
    k := i;
    if j :| i < j < |log| && Leases.AcceptsContract(log[j]) {
      k := LastAcceptance(log, j);
    }
  }
}
