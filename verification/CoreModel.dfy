// The core record of internal/model/types.go and the parts of its validation
// (internal/model/validate.go) that decide how a chain is replayed.
module CoreModel {
  import opened Vocabulary
  import opened Documents
  import Chain

  type Anchor = Chain.Anchor<Content>
  type Record = Chain.Record<Content>

  datatype Kind =
    | StageTransition | CriterionRecord | FindingRecord | WaiverRecord | EvidenceRecord | ReleaseRequest
    | OutcomeRecord | WaiverOperationRecord | FindingOverrideRecord | ClassificationRecord | OtherKind(text: string)

  datatype Classification = Classification(outcome: Outcome, findingId: string)

  // stage_time_digest: "<head anchor>:<sequence>", or any other text.
  datatype StageTime = NoStageTime | StageTime(head: Anchor, sequence: int) | OtherStageTime(text: string)

  datatype Approval = Approval(
    unitId: string, classification: Option<Classification>, runId: string, transitionDigest: string,
    currentStage: Stage, targetStage: Stage, targetOutcome: Outcome,
    repositoryIdentity: string, baseRevision: string, stageTime: StageTime, acceptedPlan: PlanDigest,
    requiredEvidence: seq<string>, activeWaivers: seq<Anchor>, nonce: string, approver: string, timestamp: Stamp,
    producedHead: string, diffDigest: string, worktreeDigest: string, contractDigest: ContractDigest)

  datatype Evidence = Evidence(outputDigest: string, baseRevision: string, headRevision: string)

  datatype WaiverAction = Grant | Expire | Withdraw | OtherAction(text: string)

  datatype WaiverOperation = WaiverOperation(
    unitId: string, action: WaiverAction, scope: Scope, justification: string, approver: string, timestamp: Stamp, nonce: string,
    repositoryIdentity: string, baseRevision: string, head: string, diffDigest: string)

  datatype FindingOverride = FindingOverride(
    unitId: string, findingId: string, disposition: FindingDisposition, justification: string, approver: string,
    timestamp: Stamp, nonce: string, repositoryIdentity: string, baseRevision: string)

  // A legacy waiver entry.
  datatype Waiver = Waiver(scope: Scope, active: bool)

  datatype Content = Content(
    kind: Kind, unitId: string, timestamp: Stamp, stage: Stage, control: Control, outcome: Outcome,
    criteria: seq<Criterion>, findings: seq<Finding>, findingsSnapshot: bool, waivers: seq<Waiver>,
    approval: Option<Approval>, classification: Option<Classification>, evidence: Option<Evidence>,
    waiverOperation: Option<WaiverOperation>, findingOverride: Option<FindingOverride>)

  // ---- validation ----

  predicate ValidApprovalTarget(a: Approval) {
    || (a.targetOutcome.NoOutcome? && ValidStage(a.targetStage))
    || (a.targetStage.NoStage? && ValidTerminalOutcome(a.targetOutcome))
  }

  // Review, verification, validation and release approvals bind head and diff.
  predicate BindsHeadDiff(s: Stage) {
    s.ImplementationReview? || s.Verification? || s.IndependentValidation? || s.ReleaseAndClosure?
  }

  predicate ApprovalComplete(a: Approval) {
    && a.runId != "" && a.transitionDigest != "" && a.repositoryIdentity != "" && a.baseRevision != ""
    && !a.stageTime.NoStageTime? && !a.acceptedPlan.NoPlan? && a.nonce != "" && a.approver != "" && !a.timestamp.NoStamp?
    && ValidStage(a.currentStage) && ValidApprovalTarget(a)
  }

  // validateApproval.
  predicate ValidApproval(a: Approval) {
    && ApprovalComplete(a)
    && (if BindsHeadDiff(a.currentStage) then a.producedHead != "" && a.diffDigest != "" else a.producedHead == "" && a.diffDigest == "")
  }

  // unicode.IsSpace.
  predicate IsSpace(c: char) {
    var n := c as int;
    9 <= n <= 13 || n in {0x20, 0x85, 0xA0, 0x1680, 0x2028, 0x2029, 0x202F, 0x205F, 0x3000} || 0x2000 <= n <= 0x200A
  }

  // strings.TrimSpace(s) != "".
  predicate NotBlank(s: string) {
    exists i :: 0 <= i < |s| && !IsSpace(s[i])
  }

  // ValidateClassification.
  predicate ValidClassification(r: Record) {
    var c := r.payload;
    if !c.kind.ClassificationRecord? then
      c.classification.None? && (c.approval.Some? ==> c.approval.value.classification.None?)
    else
      && c.classification.Some? && ValidFailureOutcome(c.classification.value.outcome)
      && NotBlank(c.classification.value.findingId) && NotBlank(c.unitId)
      && c.approval.Some? && ValidApproval(c.approval.value) && c.approval.value.timestamp.At?
      && c.control.Approved? && c.stage == c.approval.value.currentStage && c.unitId == c.approval.value.unitId
      && c.approval.value.classification == c.classification
      && c.approval.value.targetOutcome == c.classification.value.outcome && c.outcome.NoOutcome?
      && c.approval.value.runId == r.runId
  }

  predicate ValidScopeKind(k: ScopeKind) {
    !k.OtherScope?
  }

  predicate ValidWaiverOperation(w: WaiverOperation) {
    && !w.action.OtherAction? && ValidScopeKind(w.scope.kind) && w.scope.target != ""
    && w.justification != "" && w.approver != "" && !w.timestamp.NoStamp? && w.nonce != ""
  }

  predicate ValidFindingOverride(f: FindingOverride) {
    && f.findingId != "" && (f.disposition.Waivable? || f.disposition.Advisory?)
    && f.justification != "" && f.approver != "" && !f.timestamp.NoStamp? && f.nonce != ""
  }

  // HumanApprovedStateChange: a decision that names the affected unit and so
  // supersedes its classification.
  predicate HumanApprovedStateChange(r: Record) {
    var c := r.payload;
    || (c.kind.WaiverOperationRecord? && c.waiverOperation.Some? && c.unitId == c.waiverOperation.value.unitId
        && ValidWaiverOperation(c.waiverOperation.value))
    || (c.kind.FindingOverrideRecord? && c.findingOverride.Some? && c.unitId == c.findingOverride.value.unitId
        && ValidFindingOverride(c.findingOverride.value))
  }

  // An approved stage transition, whatever unit it names.
  predicate ApprovedTransition(r: Record) {
    r.payload.kind.StageTransition? && r.payload.control.Approved? && r.payload.approval.Some?
  }

  predicate TerminalRecord(r: Record) {
    r.payload.kind.OutcomeRecord? && ValidTerminalOutcome(r.payload.outcome)
  }
}
