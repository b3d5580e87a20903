// When a lease generation's launches end (internal/engine/revocation.go).
module Revocation {
  import opened Vocabulary
  import opened CoreModel
  import opened Documents
  import PlanGraph

  // A return to a gate before implementation authorization.
  predicate EarlierGate(s: Stage) {
    s.Grounding? || s.AcceptanceCriteria? || s.Planning? || s.RouteSelection?
  }

  // The earlier of the approval's time and the record's, and the zero time
  // when the record's cannot be read.
  function EventTime(r: Record): int {
    var a := r.payload.approval;
    if !r.payload.timestamp.At? then ZERO_TIME
    else if a.Some? && a.value.timestamp.At? && a.value.timestamp.time < r.payload.timestamp.time then a.value.timestamp.time
    else r.payload.timestamp.time
  }

  // A dependency returning to an earlier gate, or correcting its implementation.
  predicate Undermines(a: Approval) {
    || EarlierGate(a.targetStage)
    || (a.currentStage.IndependentValidation? && a.targetStage.ImplementationAuthorization?)
  }

  predicate MoveRevokes(r: Record, deps: set<string>, unit: string, review: bool)
    requires ApprovedTransition(r)
  {
    var a := r.payload.approval.value;
    if a.targetStage.Grounding? || a.targetStage.AcceptanceCriteria? then true
    else if r.payload.unitId == unit || r.payload.unitId == "" then
      if review then EarlierGate(a.targetStage) || a.targetStage.ImplementationAuthorization? else !a.targetStage.ImplementationAuthorization?
    else r.payload.unitId in deps && Undermines(a)
  }

  predicate Revokes(r: Record, deps: set<string>, unit: string, issuer: int, review: bool) {
    && r.sequence > issuer
    && (TerminalRecord(r) || (ApprovedTransition(r) && MoveRevokes(r, deps, unit, review)))
  }

  // What ends a generation after its issuer: the run's outcome; any return to
  // GROUNDING or to the criteria; of the unit, or of none, for its launches any
  // move but another authorization, and for its reviews a return to an earlier
  // gate or another authorization; of a dependency, a return to an earlier gate
  // or a correction.
  lemma RevokesExactly(r: Record, deps: set<string>, unit: string, issuer: int, review: bool)
    ensures
      var a := r.payload.approval;
      var own := r.payload.unitId in {unit, ""};
      Revokes(r, deps, unit, issuer, review) <==>
        && r.sequence > issuer
        && (|| TerminalRecord(r)
            || (ApprovedTransition(r)
                && (|| a.value.targetStage in {Grounding, AcceptanceCriteria}
                    || (own && !review && !a.value.targetStage.ImplementationAuthorization?)
                    || (own && review && a.value.targetStage in {Planning, RouteSelection, ImplementationAuthorization})
                    || (!own && r.payload.unitId in deps
                        && (|| a.value.targetStage in {Planning, RouteSelection}
                            || (a.value.currentStage.IndependentValidation? && a.value.targetStage.ImplementationAuthorization?))))))
  {
  }

  // It does so at its own time or its approval's, whichever is earlier, and at
  // the zero time when its own cannot be read.
  lemma EventTimeExactly(r: Record)
    ensures !r.payload.timestamp.At? ==> EventTime(r) == 0
    ensures r.payload.timestamp.At? ==>
              var approved := r.payload.approval.Some? && r.payload.approval.value.timestamp.At?;
              && EventTime(r) <= r.payload.timestamp.time
              && (approved ==> EventTime(r) <= r.payload.approval.value.timestamp.time)
              && (EventTime(r) == r.payload.timestamp.time || (approved && EventTime(r) == r.payload.approval.value.timestamp.time))
  {
  }

  // The end the scan of records arrives at.
  function EndAfter(records: seq<Record>, deps: set<string>, unit: string, issuer: int, original: int,
            review: bool): int {
    if records == [] then original
    else
      var n := |records| - 1;
      var end := EndAfter(records[..n], deps, unit, issuer, original, review);
      if Revokes(records[n], deps, unit, issuer, review) && EventTime(records[n]) < end then EventTime(records[n]) else end
  }

  method ScanEnd(records: seq<Record>, deps: set<string>, unit: string, issuer: int, original: int,
            review: bool) returns (end: int)
    ensures end == EndAfter(records, deps, unit, issuer, original, review)
  {
    end := original;
    for i := 0 to |records|
      invariant end == EndAfter(records[..i], deps, unit, issuer, original, review)
    {
      assert records[..i + 1][..i] == records[..i];
      var r := records[i];
      if r.sequence <= issuer {
        continue;
      }
      if TerminalRecord(r) {
        end := Lower(end, r);
        continue;
      }
      if !ApprovedTransition(r) {
        continue;
      }
      var a := r.payload.approval.value;
      if a.targetStage.Grounding? || a.targetStage.AcceptanceCriteria? {
        end := Lower(end, r);
      } else if r.payload.unitId == unit || r.payload.unitId == "" {
        if (review && (EarlierGate(a.targetStage) || a.targetStage.ImplementationAuthorization?)) || (!review && !a.targetStage.ImplementationAuthorization?) {
          end := Lower(end, r);
        }
      } else if r.payload.unitId in deps {
        if Undermines(a) {
          end := Lower(end, r);
        }
      }
    }
    assert records[..|records|] == records;
  }

  function Lower(end: int, r: Record): int {
    if EventTime(r) < end then EventTime(r) else end
  }

  ghost function EndOf(records: seq<Record>, plan: Plan, unit: string, issuer: int, original: int): int {
    EndAfter(records, DependenciesOf(plan, unit), unit, issuer, original, false)
  }

  ghost function ReviewEndOf(records: seq<Record>, plan: Plan, unit: string, after: int, original: int): int {
    EndAfter(records, DependenciesOf(plan, unit), unit, after, original, true)
  }

  method RevokedAt(records: seq<Record>, plan: Plan, unit: string, issuer: int, original: int) returns (end: int)
    ensures end == EndOf(records, plan, unit, issuer, original)
  {
    var deps := PlanGraph.DependencyClosure(GraphOf(plan), unit);
    end := ScanEnd(records, deps, unit, issuer, original, false);
  }

  method RevokedReviewAt(records: seq<Record>, plan: Plan, unit: string, after: int, original: int) returns (end: int)
    ensures end == ReviewEndOf(records, plan, unit, after, original)
  {
    var deps := PlanGraph.DependencyClosure(GraphOf(plan), unit);
    end := ScanEnd(records, deps, unit, after, original, true);
  }

  // ---- what the scan computes ----

  // end is original, or the time of some applicable event, and no later than
  // any of them.
  ghost predicate Earliest(records: seq<Record>, deps: set<string>, unit: string, issuer: int, original: int,
            review: bool, end: int) {
    && end <= original
    && (forall r :: r in records && Revokes(r, deps, unit, issuer, review) ==> end <= EventTime(r))
    && (end == original || exists r :: r in records && Revokes(r, deps, unit, issuer, review) && end == EventTime(r))
  }

  lemma {:induction false} EndIsEarliest(records: seq<Record>, deps: set<string>, unit: string, issuer: int,
            original: int, review: bool)
    ensures Earliest(records, deps, unit, issuer, original, review, EndAfter(records, deps, unit, issuer, original, review))
  {
    if records != [] {
      var n := |records| - 1;
      EndIsEarliest(records[..n], deps, unit, issuer, original, review);
      assert records == records[..n] + [records[n]];
    }
  }

  // Only which records there are matters: not their order, nor repetition.
  lemma RecordOrderIrrelevant(records: seq<Record>, other: seq<Record>, deps: set<string>, unit: string,
            issuer: int, original: int, review: bool)
    requires forall r :: r in records <==> r in other
    ensures EndAfter(records, deps, unit, issuer, original, review) == EndAfter(other, deps, unit, issuer, original, review)
  {
    EndIsEarliest(records, deps, unit, issuer, original, review);
    EndIsEarliest(other, deps, unit, issuer, original, review);
  }

  // More records, or an earlier issuer, only end it sooner.
  lemma EndOnlyFalls(records: seq<Record>, later: seq<Record>, deps: set<string>, unit: string, issuer: int,
            sooner: int, original: int, review: bool)
    requires sooner <= issuer && forall r :: r in records ==> r in later
    ensures EndAfter(later, deps, unit, sooner, original, review) <= EndAfter(records, deps, unit, issuer, original, review)
  {
    EndIsEarliest(records, deps, unit, issuer, original, review);
    EndIsEarliest(later, deps, unit, sooner, original, review);
  }

  lemma Unrevoked(records: seq<Record>, deps: set<string>, unit: string, issuer: int, original: int, review: bool)
    requires forall r :: r in records ==> !Revokes(r, deps, unit, issuer, review)
    ensures EndAfter(records, deps, unit, issuer, original, review) == original
  {
    EndIsEarliest(records, deps, unit, issuer, original, review);
  }
}
