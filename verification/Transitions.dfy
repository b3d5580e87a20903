// Which transitions may be recorded: the edge tables
// (internal/engine/transitions.go), one approval (approval_binding.go) and one
// stage transition against a replayed chain (stage_state.go).
module Transitions {
  import opened Vocabulary
  import opened CoreModel
  import opened StageProjection
  import Chain

  datatype Reason =
    | UnknownSourceStage | UnknownTarget | MissingTarget | AmbiguousTarget | SourceEqualsTarget | UnlistedEdge
    | TerminalNotPermitted | RunTerminal | StageMismatch | OutcomeNotImplemented
    | MalformedApproval | ReusedNonce | StaleApproval | StaleWorktreeBinding
    | MissingRequiredEvidence | StaleRequiredEvidence
    | MalformedClassification | ClassificationRequired | FailurePrecedence | PartialCriteria

  datatype Verdict = Legal | Rejected(reason: Reason)

  // ---- edges ----

  function OrdinaryEdges(from: Stage): set<Stage> {
    match from
    case Grounding => {AcceptanceCriteria}
    case AcceptanceCriteria => {Planning}
    case Planning => {RouteSelection}
    case RouteSelection => {ImplementationAuthorization}
    case ImplementationAuthorization => {ImplementationReview, RouteSelection}
    case ImplementationReview => {Verification, RouteSelection}
    case Verification => {IndependentValidation, RouteSelection}
    case IndependentValidation => {ImplementationAuthorization, Planning, ReleaseAndClosure, RouteSelection}
    case ReleaseAndClosure => {RouteSelection, AcceptanceCriteria, Planning}
    case _ => {}
  }

  // An ordinary edge, or the return to GROUNDING or PLANNING that every stage has.
  predicate IsLegalEdge(from: Stage, to: Stage) {
    && ValidStage(from) && ValidStage(to) && from != to
    && (to.Grounding? || to.Planning? || to in OrdinaryEdges(from))
  }

  // The stages in the order a run meets them.
  function Rank(s: Stage): int {
    match s
    case Grounding => 0
    case AcceptanceCriteria => 1
    case Planning => 2
    case RouteSelection => 3
    case ImplementationAuthorization => 4
    case ImplementationReview => 5
    case Verification => 6
    case IndependentValidation => 7
    case ReleaseAndClosure => 8
    case _ => -1
  }

  // The edges: to the next gate, back to GROUNDING or PLANNING, back to route
  // selection once work was authorized, back to authorization from validation,
  // and back to the criteria from the closing stage.
  lemma EdgesExactly(from: Stage, to: Stage)
    ensures IsLegalEdge(from, to) <==>
              && Rank(from) >= 0 && Rank(to) >= 0 && from != to
              && (|| Rank(to) == Rank(from) + 1 || to.Grounding? || to.Planning?
                  || (to.RouteSelection? && Rank(from) >= Rank(ImplementationAuthorization))
                  || (to.ImplementationAuthorization? && from.IndependentValidation?)
                  || (to.AcceptanceCriteria? && from.ReleaseAndClosure?))
  {
  }

  // An edge goes back, or forward by one gate; only GROUNDING to PLANNING
  // passes one by.
  lemma EdgesSkipNoGate(from: Stage, to: Stage)
    requires IsLegalEdge(from, to)
    ensures Rank(to) < Rank(from) || Rank(to) == Rank(from) + 1 || (from.Grounding? && to.Planning?)
  {
  }

  predicate ClosureOutcome(o: Outcome) {
    o.VerifiedSuccess? || o.VerifiedWithWaivers?
  }

  predicate StoppingOutcome(o: Outcome) {
    o.Blocked? || o.Unknown? || o.Failed? || o.Aborted? || o.Partial?
  }

  function EvaluateTransition(source: Stage, toStage: Stage, toOutcome: Outcome): Verdict {
    if !ValidStage(source) then Rejected(UnknownSourceStage)
    else if !toStage.NoStage? && !toOutcome.NoOutcome? then Rejected(AmbiguousTarget)
    else if toStage.NoStage? && toOutcome.NoOutcome? then Rejected(MissingTarget)
    else if !toOutcome.NoOutcome? then
      if !ValidTerminalOutcome(toOutcome) then Rejected(UnknownTarget)
      else if ClosureOutcome(toOutcome) && !source.ReleaseAndClosure? then Rejected(TerminalNotPermitted)
      else if !ClosureOutcome(toOutcome) && !StoppingOutcome(toOutcome) then Rejected(TerminalNotPermitted)
      else Legal
    else if !ValidStage(toStage) then Rejected(UnknownTarget)
    else if source == toStage then Rejected(SourceEqualsTarget)
    else if !IsLegalEdge(source, toStage) then Rejected(UnlistedEdge)
    else Legal
  }

  // A proposal is legal exactly when it names one target: a stage along a
  // legal edge, or an outcome, a verified one only from RELEASE_AND_CLOSURE.
  lemma LegalProposals(source: Stage, toStage: Stage, toOutcome: Outcome)
    ensures EvaluateTransition(source, toStage, toOutcome).Legal? <==>
              || (toOutcome.NoOutcome? && IsLegalEdge(source, toStage))
              || (toStage.NoStage? && ValidStage(source) && ValidTerminalOutcome(toOutcome)
                  && (ClosureOutcome(toOutcome) ==> source.ReleaseAndClosure?))
  {
  }

  // ---- one approval ----

  function EvaluateApprovalBinding(a: Approval, expected: Approval, head: Anchor, sequence: int,
            usedNonces: set<string>,
                                   now: int, maxAge: int, worktree: string): Verdict {
    if !ApprovalComplete(a) then Rejected(MalformedApproval)
    else if a.nonce in usedNonces then Rejected(ReusedNonce)
    else if a.stageTime != StageTime(head, sequence) || a != expected then Rejected(StaleApproval)
    else if a.worktreeDigest != "" && a.worktreeDigest != worktree then Rejected(StaleWorktreeBinding)
    else if !a.timestamp.At? || maxAge <= 0 || now < a.timestamp.time || now - a.timestamp.time > maxAge then Rejected(StaleApproval)
    else Legal
  }

  // An approval is admissible if and only if it is complete, unspent, exactly
  // the one expected, raised for this chain position and worktree, and recent.
  lemma AdmissibleApprovals(a: Approval, expected: Approval, head: Anchor, sequence: int, usedNonces: set<string>,
            now: int, maxAge: int, worktree: string)
    ensures EvaluateApprovalBinding(a, expected, head, sequence, usedNonces, now, maxAge, worktree).Legal? <==>
              && ApprovalComplete(a) && a == expected && a.nonce !in usedNonces && a.stageTime == StageTime(head, sequence)
              && (a.worktreeDigest == "" || a.worktreeDigest == worktree)
              && a.timestamp.At? && 0 <= now - a.timestamp.time <= maxAge && 0 < maxAge
  {
  }

  // ---- required evidence ----

  // Evidence with the wanted output, taken at the revisions the approval binds.
  predicate Satisfies(e: Evidence, want: string, a: Approval) {
    && e.outputDigest == want
    && e.baseRevision == a.baseRevision
    && (a.producedHead != "" ==> e.headRevision == a.producedHead)
  }

  predicate Satisfied(evidence: seq<Evidence>, want: string, a: Approval) {
    exists i :: 0 <= i < |evidence| && Satisfies(evidence[i], want, a)
  }

  predicate Present(evidence: seq<Evidence>, want: string) {
    exists i :: 0 <= i < |evidence| && evidence[i].outputDigest == want
  }

  function EvidenceVerdict(evidence: seq<Evidence>, wants: seq<string>, a: Approval): Verdict {
    if wants == [] then Legal
    else if wants[0] == "" then Rejected(MalformedApproval)
    else if Satisfied(evidence, wants[0], a) then EvidenceVerdict(evidence, wants[1..], a)
    else if Present(evidence, wants[0]) then Rejected(StaleRequiredEvidence)
    else Rejected(MissingRequiredEvidence)
  }

  lemma {:induction false} EvidenceLegal(evidence: seq<Evidence>, wants: seq<string>, a: Approval)
    ensures EvidenceVerdict(evidence, wants, a).Legal? <==>
              forall i :: 0 <= i < |wants| ==> wants[i] != "" && Satisfied(evidence, wants[i], a)
  {
    if wants != [] {
      EvidenceLegal(evidence, wants[1..], a);
      assert forall i :: 0 < i < |wants| ==> wants[i] == wants[1..][i - 1];
    }
  }

  // requiredEvidenceReason.
  method RequiredEvidenceReason(evidence: seq<Evidence>, a: Approval) returns (v: Verdict)
    ensures v == EvidenceVerdict(evidence, a.requiredEvidence, a)
  {
    var wants := a.requiredEvidence;
    for i := 0 to |wants|
      invariant EvidenceVerdict(evidence, wants, a) == EvidenceVerdict(evidence, wants[i..], a)
    {
      var want := wants[i];
      assert wants[i..][1..] == wants[i + 1..];
      if want == "" {
        return Rejected(MalformedApproval);
      }
      var present, satisfied := false, false;
      var j := 0;
      while j < |evidence| && !satisfied
        invariant 0 <= j <= |evidence|
        invariant satisfied <==> exists k :: 0 <= k < j && Satisfies(evidence[k], want, a)
        invariant present <==> exists k :: 0 <= k < j && evidence[k].outputDigest == want
      {
        var e := evidence[j];
        if e.outputDigest == want {
          present := true;
          satisfied := e.baseRevision == a.baseRevision && (a.producedHead == "" || e.headRevision == a.producedHead);
        }
        j := j + 1;
      }
      if !satisfied {
        return if present then Rejected(StaleRequiredEvidence) else Rejected(MissingRequiredEvidence);
      }
    }
    return Legal;
  }

  // ---- one stage transition ----

  datatype Request = Request(
    classification: Option<Classification>, state: StageState, expected: Approval, presented: Approval,
    now: int, maxAge: int, worktree: string)

  predicate Resolved(c: Criterion) {
    c.disposition.Passed? || c.disposition.Waived?
  }

  predicate Unresolved(c: Criterion) {
    c.disposition.Pending? || c.disposition.FailedCriterion?
  }

  // Some criteria are settled, some are not, and each is one or the other.
  predicate Mixed(criteria: seq<Criterion>) {
    && (forall i :: 0 <= i < |criteria| ==> Resolved(criteria[i]) || Unresolved(criteria[i]))
    && (exists i :: 0 <= i < |criteria| && Resolved(criteria[i]))
    && (exists i :: 0 <= i < |criteria| && Unresolved(criteria[i]))
  }

  // The classification record the request would be filed as.
  function ClassificationDraft(req: Request): Record {
    Chain.Record(req.presented.runId, 0, Chain.Genesis, Chain.Genesis,
      Content(ClassificationRecord, req.presented.unitId, NoStamp, req.state.currentStage, Approved, NoOutcome, [], [], false, [],
              Some(req.presented), req.classification, None, None, None))
  }

  function ClassificationVerdict(req: Request): Verdict {
    var outcome := req.presented.targetOutcome;
    if req.classification.Some? then
      if ValidClassification(ClassificationDraft(req)) then Legal else Rejected(MalformedClassification)
    else if req.presented.classification.Some? then Rejected(MalformedClassification)
    else if ValidFailureOutcome(outcome) && req.state.failureOutcome != outcome then Rejected(ClassificationRequired)
    else if outcome.Partial? && !req.state.failureOutcome.NoOutcome? then Rejected(FailurePrecedence)
    else Legal
  }

  function Evaluate(req: Request): Verdict {
    var a := req.presented;
    if req.state.terminal then Rejected(RunTerminal)
    else if a.currentStage != req.state.currentStage then Rejected(StageMismatch)
    else
      var edge := EvaluateTransition(req.state.currentStage, a.targetStage, a.targetOutcome);
      if edge.Rejected? then edge
      else if !a.targetOutcome.NoOutcome? && !a.targetOutcome.Aborted? && !a.targetOutcome.Partial? && !ValidFailureOutcome(a.targetOutcome)
      then Rejected(OutcomeNotImplemented)
      else
        var binding := EvaluateApprovalBinding(a, req.expected, req.state.predecessorHead, req.state.sequence + 1,
                                               req.state.usedNonces, req.now, req.maxAge, req.worktree);
        if binding.Rejected? then binding
        else
          var evidence := EvidenceVerdict(req.state.evidence, a.requiredEvidence, a);
          if evidence.Rejected? then evidence
          else
            var classified := ClassificationVerdict(req);
            if classified.Rejected? then classified
            else if a.targetOutcome.Partial? && !Mixed(req.state.criteria) then Rejected(PartialCriteria)
            else Legal
  }

  // The target: a stage along a legal edge, or one of the stopping outcomes.
  predicate LegalTarget(current: Stage, a: Approval) {
    || (a.targetOutcome.NoOutcome? && IsLegalEdge(current, a.targetStage))
    || (a.targetStage.NoStage? && Rank(current) >= 0 && a.targetOutcome in {Aborted, Blocked, Unknown, Failed, Partial})
  }

  // A classification filed with the approval is the failure the approval
  // itself names, for a unit and a finding; without one, a failure has to be
  // the live classification of highest precedence already, and PARTIAL needs
  // that there is none and that the criteria are mixed.
  predicate LegalClassification(req: Request) {
    var a := req.presented;
    && a.classification == req.classification
    && (req.classification.Some? ==>
          && a.targetOutcome in {Blocked, Unknown, Failed} && a.targetOutcome == req.classification.value.outcome
          && NotBlank(req.classification.value.findingId) && NotBlank(a.unitId)
          && BindsHeadDiff(a.currentStage) == (a.producedHead != "") == (a.diffDigest != ""))
    && (req.classification.None? && a.targetOutcome in {Blocked, Unknown, Failed} ==> req.state.failureOutcome == a.targetOutcome)
    && (a.targetOutcome.Partial? ==> req.state.failureOutcome.NoOutcome? && PartlyMet(req.state.criteria))
  }

  // Some criterion passed or was waived, some is pending or failed, and no
  // disposition is any other.
  predicate PartlyMet(criteria: seq<Criterion>) {
    && (exists i :: 0 <= i < |criteria| && criteria[i].disposition in {Passed, Waived})
    && (exists i :: 0 <= i < |criteria| && criteria[i].disposition in {Pending, FailedCriterion})
    && forall i :: 0 <= i < |criteria| ==> !criteria[i].disposition.OtherDisposition?
  }

  // Some recorded output has this digest, was taken at the revision the
  // approval binds, and at the head it binds, if it binds one.
  predicate Evidenced(evidence: seq<Evidence>, want: string, a: Approval) {
    exists i :: 0 <= i < |evidence| && evidence[i].outputDigest == want
      && evidence[i].baseRevision == a.baseRevision && (a.producedHead == "" || evidence[i].headRevision == a.producedHead)
  }

  lemma SatisfiedExactly(evidence: seq<Evidence>, want: string, a: Approval)
    ensures Satisfied(evidence, want, a) <==> Evidenced(evidence, want, a)
  {
    if Satisfied(evidence, want, a) {
      var i :| 0 <= i < |evidence| && Satisfies(evidence[i], want, a);
      assert evidence[i].outputDigest == want;
    }
    if i :| 0 <= i < |evidence| && evidence[i].outputDigest == want && evidence[i].baseRevision == a.baseRevision
            && (a.producedHead == "" || evidence[i].headRevision == a.producedHead) {
      assert Satisfies(evidence[i], want, a);
    }
  }

  lemma EvidencedExactly(evidence: seq<Evidence>, wants: seq<string>, a: Approval)
    ensures EvidenceVerdict(evidence, wants, a).Legal? <==>
              forall i :: 0 <= i < |wants| ==> wants[i] != "" && Evidenced(evidence, wants[i], a)
  {
    EvidenceLegal(evidence, wants, a);
    forall i | 0 <= i < |wants| ensures Satisfied(evidence, wants[i], a) <==> Evidenced(evidence, wants[i], a) {
      SatisfiedExactly(evidence, wants[i], a);
    }
  }

  lemma MixedExactly(criteria: seq<Criterion>)
    ensures Mixed(criteria) <==> PartlyMet(criteria)
  {
    forall i | 0 <= i < |criteria|
      ensures Resolved(criteria[i]) <==> criteria[i].disposition in {Passed, Waived}
      ensures Unresolved(criteria[i]) <==> criteria[i].disposition in {Pending, FailedCriterion}
    {}
  }

  lemma TargetExactly(current: Stage, a: Approval)
    ensures LegalTarget(current, a) <==>
              && EvaluateTransition(current, a.targetStage, a.targetOutcome).Legal?
              && (a.targetOutcome.NoOutcome? || a.targetOutcome.Aborted? || a.targetOutcome.Partial? || ValidFailureOutcome(a.targetOutcome))
  {
    LegalProposals(current, a.targetStage, a.targetOutcome);
  }

  lemma ClassificationExactly(req: Request)
    requires ApprovalComplete(req.presented) && req.presented.currentStage == req.state.currentStage
    requires req.presented.timestamp.At?
    ensures LegalClassification(req) <==>
              ClassificationVerdict(req).Legal? && (req.presented.targetOutcome.Partial? ==>
                PartlyMet(req.state.criteria))
  {
  }

  // A stage transition is legal if and only if all of this holds, in no order:
  // the run is open and where the approval says, the target is legal, the
  // approval is admissible here and now, every digest it requires is satisfied
  // by recorded evidence, and its classification is in order.
  lemma LegalExactly(req: Request)
    ensures Evaluate(req).Legal? <==>
              && !req.state.terminal && req.presented.currentStage == req.state.currentStage
              && LegalTarget(req.state.currentStage, req.presented)
              && EvaluateApprovalBinding(req.presented, req.expected, req.state.predecessorHead, req.state.sequence + 1,
                                         req.state.usedNonces, req.now, req.maxAge, req.worktree).Legal?
              && (forall i :: 0 <= i < |req.presented.requiredEvidence| ==>
                    && req.presented.requiredEvidence[i] != ""
                    && Evidenced(req.state.evidence, req.presented.requiredEvidence[i], req.presented))
              && LegalClassification(req)
  {
    var a := req.presented;
    EvidencedExactly(req.state.evidence, a.requiredEvidence, a);
    MixedExactly(req.state.criteria);
    TargetExactly(req.state.currentStage, a);
    if ApprovalComplete(a) && a.timestamp.At? && a.currentStage == req.state.currentStage {
      ClassificationExactly(req);
    }
  }

  // The criteria loop of a PARTIAL outcome.
  method CriteriaMixed(criteria: seq<Criterion>) returns (mixed: bool)
    ensures mixed <==> Mixed(criteria)
  {
    var resolved, unresolved := false, false;
    for i := 0 to |criteria|
      invariant forall j :: 0 <= j < i ==> Resolved(criteria[j]) || Unresolved(criteria[j])
      invariant resolved <==> exists j :: 0 <= j < i && Resolved(criteria[j])
      invariant unresolved <==> exists j :: 0 <= j < i && Unresolved(criteria[j])
    {
      if Resolved(criteria[i]) {
        resolved := true;
      } else if Unresolved(criteria[i]) {
        unresolved := true;
      } else {
        return false;
      }
    }
    return resolved && unresolved;
  }

  method EvaluateStageTransition(req: Request) returns (v: Verdict)
    ensures v == Evaluate(req)
  {
    var a := req.presented;
    if req.state.terminal {
      return Rejected(RunTerminal);
    }
    if a.currentStage != req.state.currentStage {
      return Rejected(StageMismatch);
    }
    v := EvaluateTransition(req.state.currentStage, a.targetStage, a.targetOutcome);
    if v.Rejected? {
      return;
    }
    if !a.targetOutcome.NoOutcome? && !a.targetOutcome.Aborted? && !a.targetOutcome.Partial? && !ValidFailureOutcome(a.targetOutcome) {
      return Rejected(OutcomeNotImplemented);
    }
    v := EvaluateApprovalBinding(a, req.expected, req.state.predecessorHead, req.state.sequence + 1,
                                 req.state.usedNonces, req.now, req.maxAge, req.worktree);
    if v.Rejected? {
      return;
    }
    v := RequiredEvidenceReason(req.state.evidence, a);
    if v.Rejected? {
      return;
    }
    v := ClassificationVerdict(req);
    if v.Rejected? {
      return;
    }
    if a.targetOutcome.Partial? {
      var mixed := CriteriaMixed(req.state.criteria);
      if !mixed {
        return Rejected(PartialCriteria);
      }
    }
    return Legal;
  }
}
