// The controlled vocabularies of internal/model/types.go. Each Go string type
// becomes a datatype: its constants, the empty string, and any other text.
module Vocabulary {
  datatype Option<+T> = None | Some(value: T)

  datatype Stage =
    | Grounding | AcceptanceCriteria | Planning | RouteSelection | ImplementationAuthorization
    | ImplementationReview | Verification | IndependentValidation | ReleaseAndClosure
    | NoStage | OtherStage(text: string)

  predicate ValidStage(s: Stage) {
    !s.NoStage? && !s.OtherStage?
  }

  datatype Outcome =
    | Aborted | Blocked | Unknown | Failed | Partial | VerifiedWithWaivers | VerifiedSuccess
    | NoOutcome | OtherOutcome(text: string)

  predicate ValidTerminalOutcome(o: Outcome) {
    !o.NoOutcome? && !o.OtherOutcome?
  }

  predicate ValidFailureOutcome(o: Outcome) {
    o.Blocked? || o.Unknown? || o.Failed?
  }

  datatype Control = Draft | ReadyForReview | Approved | NoControl | OtherControl(text: string)

  datatype Disposition = Pending | Passed | FailedCriterion | Waived | OtherDisposition(text: string)

  datatype Criterion = Criterion(id: string, disposition: Disposition)

  datatype FindingDisposition = Block | Waivable | Advisory | OtherFinding(text: string)

  // unitId is empty for a finding nobody owns; advisory is its disposition
  // when the finding is ADVISORY, and empty otherwise.
  datatype Finding = Finding(id: string, unitId: string, disposition: FindingDisposition, advisory: string)

  datatype ScopeKind = CriterionScope | FindingScope | ArtifactScope | OtherScope(text: string)

  datatype Scope = Scope(kind: ScopeKind, target: string)

  // Go's zero time, which also stands for "unset".
  const ZERO_TIME: int := 0

  // A timestamp field: empty, not a time, or a time.
  datatype Stamp = NoStamp | Unreadable | At(time: int)
}
