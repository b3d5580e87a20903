// The chains a run can reach: what each writer of the core log may append, and
// what every reachable log therefore satisfies (internal/transition/apply.go,
// internal/pilot/run.go, cmd/hma/resolve.go and the writers of plain records).
module StageMachine {
  import opened Vocabulary
  import opened CoreModel
  import opened Documents
  import opened StageProjection
  import opened Transitions
  import Chain
  import Resolution
  import Resolving

  // ---- validation that every append applies (internal/model/validate.go) ----

  predicate ValidApprovalUse(r: Record) {
    var c := r.payload;
    c.approval.Some? ==>
      && ValidApproval(c.approval.value)
      && c.unitId == c.approval.value.unitId
      && (c.kind.StageTransition? ==> c.stage == c.approval.value.currentStage)
      && (!c.approval.value.targetOutcome.NoOutcome? ==>
            && (c.kind.OutcomeRecord? || c.kind.ClassificationRecord?)
            && (c.kind.OutcomeRecord? ==> c.outcome == c.approval.value.targetOutcome)
            && c.stage == c.approval.value.currentStage && c.control.Approved?)
  }

  predicate ValidCore(r: Record) {
    var c := r.payload;
    && ValidApprovalUse(r) && ValidClassification(r)
    && (c.kind.StageTransition? && c.control.Approved? ==> c.approval.Some?)
    && (c.waiverOperation.Some? ==> ValidWaiverOperation(c.waiverOperation.value) && c.unitId == c.waiverOperation.value.unitId)
    && (c.findingOverride.Some? ==> ValidFindingOverride(c.findingOverride.value) && c.unitId == c.findingOverride.value.unitId)
  }

  function Sealed(runId: string, log: seq<Record>, content: Content): Record {
    Chain.Record(runId, |log| + 1, Chain.Tail(log), Chain.Digest(runId, |log| + 1, Chain.Tail(log), content), content)
  }

  // ---- what each writer builds ----

  // Apply: a transition, unless the approval names an outcome, unless it is a
  // classification.
  function ApplyContent(req: Request, timestamp: Stamp): Content {
    var a := req.presented;
    var base := Content(StageTransition, a.unitId, timestamp, req.state.currentStage, Approved, NoOutcome, [], [], false, [],
                        Some(a), None, None, None, None);
    var outcome := if a.targetOutcome.NoOutcome? then base
                   else base.(kind := OutcomeRecord, outcome := a.targetOutcome, criteria := req.state.criteria);
    if req.classification.None? then outcome
    else outcome.(kind := ClassificationRecord, classification := req.classification, outcome := NoOutcome, criteria := [])
  }

  ghost predicate ApplyStep(runId: string, log: seq<Record>, r: Record) {
    exists req: Request, t: Stamp ::
      req.state == Projected(log) && Evaluate(req).Legal? && r == Sealed(runId, log, ApplyContent(req, t))
  }

  // The pilot files the approval it checked as awaiting review.
  function PilotContent(a: Approval, timestamp: Stamp): Content {
    Content(StageTransition, a.unitId, timestamp, a.currentStage, ReadyForReview, NoOutcome, [], [], false, [], Some(a), None, None, None, None)
  }

  predicate PilotAdmits(log: seq<Record>, a: Approval, expected: Approval, now: int, maxAge: int, worktree: string) {
    var s := Projected(log);
    EvaluateApprovalBinding(a, expected, s.predecessorHead, s.sequence + 1, s.usedNonces, now, maxAge, worktree).Legal?
  }

  ghost predicate PilotStep(runId: string, log: seq<Record>, r: Record) {
    exists a, expected, now, maxAge, worktree, t ::
      PilotAdmits(log, a, expected, now, maxAge, worktree) && r == Sealed(runId, log, PilotContent(a, t))
  }

  // Evidence, criteria and findings, from the other commands: no approval, no
  // operation, no classification and no outcome.
  predicate Plain(c: Content) {
    && (c.kind.EvidenceRecord? || c.kind.CriterionRecord? || c.kind.FindingRecord?)
    && c.approval.None? && c.classification.None? && c.waiverOperation.None? && c.findingOverride.None?
  }

  // A record some writer builds after reading log.
  ghost predicate Proposed(runId: string, log: seq<Record>, r: Record) {
    || ApplyStep(runId, log, r) || PilotStep(runId, log, r) || Resolving.ResolveStep(runId, log, r)
    || (Plain(r.payload) && r == Sealed(runId, log, r.payload))
  }

  ghost predicate Step(runId: string, log: seq<Record>, r: Record) {
    ValidCore(r) && Proposed(runId, log, r)
  }

  ghost predicate Reachable(runId: string, log: seq<Record>)
    decreases |log|
  {
    log == [] || (Reachable(runId, log[..|log| - 1]) && Step(runId, log[..|log| - 1], log[|log| - 1]))
  }

  // ---- what one step can do ----

  // The record moves the run along a legal edge, ends it, or does neither.
  predicate Moves(log: seq<Record>, r: Record) {
    && ApprovedTransition(r) && OutcomeOf(log).NoOutcome?
    && IsLegalEdge(StageOf(log), r.payload.approval.value.targetStage)
  }

  predicate Ends(log: seq<Record>, r: Record) {
    var o := r.payload.outcome;
    && TerminalRecord(r) && OutcomeOf(log).NoOutcome?
    && (ValidFailureOutcome(o) ==> Precedence(LiveOf(log)) == o)
    && (o.Partial? ==> Precedence(LiveOf(log)).NoOutcome? && Mixed(CriteriaOf(log)))
    && !ClosureOutcome(o)
  }

  lemma ApplyMovesOrEnds(runId: string, log: seq<Record>, req: Request, t: Stamp)
    requires req.state == Projected(log) && Evaluate(req).Legal? && ValidCore(Sealed(runId, log, ApplyContent(req, t)))
    ensures
      var r := Sealed(runId, log, ApplyContent(req, t));
      && (ApprovedTransition(r) ==> Moves(log, r))
      && (TerminalRecord(r) ==> Ends(log, r))
      && (r.payload.classification.Some? ==> OutcomeOf(log).NoOutcome?)
  {
    OutcomeIsTerminal(log);
    LegalProposals(req.state.currentStage, req.presented.targetStage, req.presented.targetOutcome);
  }

  lemma StepMovesOrEnds(runId: string, log: seq<Record>, r: Record)
    requires Step(runId, log, r)
    ensures r == Sealed(runId, log, r.payload)
    ensures ApprovedTransition(r) ==> Moves(log, r)
    ensures TerminalRecord(r) ==> Ends(log, r)
  {
    if ApplyStep(runId, log, r) {
      var req: Request, t: Stamp :|
        req.state == Projected(log) && Evaluate(req).Legal? && r == Sealed(runId, log, ApplyContent(req, t));
      ApplyMovesOrEnds(runId, log, req, t);
    }
  }

  // What an applied approval does to the run: it moves it to the stage the
  // approval names, or ends it with the outcome the approval names, or, with a
  // classification, does neither and makes that the unit's.
  lemma AppliedEffect(runId: string, log: seq<Record>, req: Request, t: Stamp)
    requires req.state == Projected(log) && Evaluate(req).Legal? && ValidCore(Sealed(runId, log, ApplyContent(req, t)))
    ensures
      var a, after := req.presented, log + [Sealed(runId, log, ApplyContent(req, t))];
      && (a.targetOutcome.NoOutcome? ==> StageOf(after) == a.targetStage && OutcomeOf(after) == OutcomeOf(log))
      && (!a.targetOutcome.NoOutcome? && req.classification.None? ==>
            StageOf(after) == StageOf(log) && OutcomeOf(after) == a.targetOutcome)
      && (req.classification.Some? ==>
            && StageOf(after) == StageOf(log) && OutcomeOf(after) == OutcomeOf(log)
            && a.unitId in LiveOf(after) && LiveOf(after)[a.unitId] == req.classification.value.outcome)
  {
    var r := Sealed(runId, log, ApplyContent(req, t));
    assert (log + [r])[..|log|] == log;
    LegalExactly(req);
  }

  // The approval the pilot files moves nothing and ends nothing.
  lemma PilotMovesNothing(runId: string, log: seq<Record>, a: Approval, t: Stamp)
    ensures StageOf(log + [Sealed(runId, log, PilotContent(a, t))]) == StageOf(log)
    ensures OutcomeOf(log + [Sealed(runId, log, PilotContent(a, t))]) == OutcomeOf(log)
  {
    var r := Sealed(runId, log, PilotContent(a, t));
    assert (log + [r])[..|log|] == log;
  }

  // The nonces a record carries are one fresh nonce.
  predicate SpendsOne(log: seq<Record>, r: Record) {
    |NoncesIn(r)| == 1 && NoncesIn(r)[0] !in NoncesOf(log)
  }

  lemma ApplySpendsOne(runId: string, log: seq<Record>, req: Request, t: Stamp)
    requires req.state == Projected(log) && Evaluate(req).Legal?
    ensures SpendsOne(log, Sealed(runId, log, ApplyContent(req, t)))
  {
    assert NoncesIn(Sealed(runId, log, ApplyContent(req, t))) == [req.presented.nonce];
  }

  lemma PilotSpendsOne(runId: string, log: seq<Record>, a: Approval, expected: Approval, now: int, maxAge: int,
            worktree: string, t: Stamp)
    requires PilotAdmits(log, a, expected, now, maxAge, worktree)
    ensures SpendsOne(log, Sealed(runId, log, PilotContent(a, t)))
  {
    assert NoncesIn(Sealed(runId, log, PilotContent(a, t))) == [a.nonce];
  }

  lemma ResolveSpendsOne(runId: string, log: seq<Record>, req: Resolving.Request, t: Stamp)
    requires Resolving.Admitted(log, req) && ValidCore(Resolving.Filed(runId, log, t, req))
    ensures SpendsOne(log, Resolving.Filed(runId, log, t, req))
  {
    var nonce := if req.operation.Some? then req.operation.value.nonce else req.override.value.nonce;
    assert NoncesIn(Resolving.Filed(runId, log, t, req)) == [nonce];
  }

  // A step spends one fresh challenge nonce, or none and carries no human decision.
  lemma StepSpendsFresh(runId: string, log: seq<Record>, r: Record)
    requires Step(runId, log, r)
    ensures SpendsOne(log, r) || (NoncesIn(r) == [] && Plain(r.payload))
  {
    if ApplyStep(runId, log, r) {
      var req: Request, t: Stamp :|
        req.state == Projected(log) && Evaluate(req).Legal? && r == Sealed(runId, log, ApplyContent(req, t));
      ApplySpendsOne(runId, log, req, t);
    } else if PilotStep(runId, log, r) {
      var a, expected, now, maxAge, worktree, t :|
        PilotAdmits(log, a, expected, now, maxAge, worktree) && r == Sealed(runId, log, PilotContent(a, t));
      PilotSpendsOne(runId, log, a, expected, now, maxAge, worktree, t);
    } else if Resolving.ResolveStep(runId, log, r) {
      var req, t :| Resolving.Admitted(log, req) && r == Resolving.Filed(runId, log, t, req);
      ResolveSpendsOne(runId, log, req, t);
    }
  }

  // ---- every reachable log ----

  // What every record of a reachable log did, whoever wrote it.
  predicate Lawful(runId: string, log: seq<Record>, r: Record) {
    && ValidCore(r) && r == Sealed(runId, log, r.payload)
    && (ApprovedTransition(r) ==> Moves(log, r))
    && (TerminalRecord(r) ==> Ends(log, r))
    && (SpendsOne(log, r) || (NoncesIn(r) == [] && Plain(r.payload)))
  }

  predicate AllLawful(runId: string, log: seq<Record>) {
    forall i :: 0 <= i < |log| ==> Lawful(runId, log[..i], log[i])
  }

  lemma StepIsLawful(runId: string, log: seq<Record>, r: Record)
    requires Step(runId, log, r)
    ensures Lawful(runId, log, r)
  {
    StepMovesOrEnds(runId, log, r);
    StepSpendsFresh(runId, log, r);
  }

  lemma LawfulSnoc(runId: string, log: seq<Record>)
    requires log != [] && AllLawful(runId, log[..|log| - 1]) && Lawful(runId, log[..|log| - 1], log[|log| - 1])
    ensures AllLawful(runId, log)
  {
    var before := log[..|log| - 1];
    forall i | 0 <= i < |log| ensures Lawful(runId, log[..i], log[i]) {
      assert i < |before| ==> log[..i] == before[..i] && log[i] == before[i];
    }
  }

  lemma LawfulPrefix(runId: string, log: seq<Record>, n: nat)
    requires AllLawful(runId, log) && n <= |log|
    ensures AllLawful(runId, log[..n])
  {
    forall i | 0 <= i < n ensures Lawful(runId, log[..n][..i], log[..n][i]) {
      assert log[..n][..i] == log[..i];
    }
  }

  lemma LastIsLawful(runId: string, log: seq<Record>)
    requires Reachable(runId, log) && log != []
    ensures Reachable(runId, log[..|log| - 1]) && Lawful(runId, log[..|log| - 1], log[|log| - 1])
  {
    StepIsLawful(runId, log[..|log| - 1], log[|log| - 1]);
  }

  lemma {:induction false} ReachableIsLawful(runId: string, log: seq<Record>)
    requires Reachable(runId, log)
    ensures AllLawful(runId, log)
    decreases |log|
  {
    if log != [] {
      LastIsLawful(runId, log);
      ReachableIsLawful(runId, log[..|log| - 1]);
      LawfulSnoc(runId, log);
    }
  }

  lemma LawfulIsChain(runId: string, log: seq<Record>)
    requires AllLawful(runId, log)
    ensures Chain.IsChain(runId, ValidCore, log)
  {
    forall i | 0 <= i < |log| ensures Chain.Follows(runId, log[..i], log[i]) && ValidCore(log[i]) {
      assert Lawful(runId, log[..i], log[i]);
    }
  }

  lemma {:induction false} ReachableIsChain(runId: string, log: seq<Record>)
    requires Reachable(runId, log)
    ensures Chain.IsChain(runId, ValidCore, log)
  {
    ReachableIsLawful(runId, log);
    LawfulIsChain(runId, log);
  }

  // The stages a log passes through, in order.
  function Stages(log: seq<Record>): (walk: seq<Stage>)
    ensures walk != [] && walk[0] == Grounding
    ensures walk[|walk| - 1] == StageOf(log)
  {
    if log == [] then [Grounding]
    else
      var before, r := log[..|log| - 1], log[|log| - 1];
      if ApprovedTransition(r) && ValidStage(r.payload.approval.value.targetStage)
      then Stages(before) + [r.payload.approval.value.targetStage] else Stages(before)
  }

  predicate LegalWalk(walk: seq<Stage>) {
    forall i :: 0 <= i < |walk| - 1 ==> IsLegalEdge(walk[i], walk[i + 1])
  }

  lemma {:induction false} LawfulWalk(runId: string, log: seq<Record>)
    requires AllLawful(runId, log)
    ensures LegalWalk(Stages(log))
    decreases |log|
  {
    if log != [] {
      var n := |log| - 1;
      LawfulPrefix(runId, log, n);
      LawfulWalk(runId, log[..n]);
      assert Lawful(runId, log[..n], log[n]);
    }
  }

  // The stages of a reachable log are a walk of legal edges from GROUNDING.
  lemma {:induction false} StagesAreALegalWalk(runId: string, log: seq<Record>)
    requires Reachable(runId, log)
    ensures LegalWalk(Stages(log)) && Stages(log)[0] == Grounding && Stages(log)[|Stages(log)| - 1] == StageOf(log)
  {
    ReachableIsLawful(runId, log);
    LawfulWalk(runId, log);
  }

  // No gate from PLANNING on is skipped: by the time a run is at a stage, it
  // has been at every gate between PLANNING and it.
  lemma {:induction false} NoGateSkipped(walk: seq<Stage>, i: nat, gate: int)
    requires LegalWalk(walk) && i < |walk| && walk[0].Grounding? && Rank(Planning) <= gate <= Rank(walk[i])
    ensures exists j :: 0 <= j <= i && Rank(walk[j]) == gate
  {
    if gate == Rank(walk[i]) {
      assert Rank(walk[i]) == gate;
    } else {
      EdgesSkipNoGate(walk[i - 1], walk[i]);
      NoGateSkipped(walk, i - 1, gate);
    }
  }

  // The walk is at PLANNING or beyond for the first time.
  predicate FirstBeyond(walk: seq<Stage>, i: nat) {
    && 0 < i < |walk| && Rank(walk[i]) >= Rank(Planning)
    && forall k :: 0 <= k < i ==> Rank(walk[k]) < Rank(Planning)
  }

  // ACCEPTANCE_CRITERIA can be: every stage may move to PLANNING, GROUNDING
  // too. A walk gets beyond it with the criteria accepted if and only if its
  // first move is to accept them.
  lemma AcceptanceIffFirstMove(walk: seq<Stage>, i: nat)
    requires LegalWalk(walk) && walk != [] && walk[0].Grounding? && FirstBeyond(walk, i)
    ensures (exists j :: 0 <= j < i && walk[j].AcceptanceCriteria?) <==> walk[1].AcceptanceCriteria?
  {
    assert IsLegalEdge(walk[0], walk[1]);
    assert i > 1 ==> Rank(walk[1]) < Rank(Planning);
  }

  lemma RunAcceptsFirst(runId: string, log: seq<Record>, i: nat)
    requires Reachable(runId, log) && FirstBeyond(Stages(log), i)
    ensures (exists j :: 0 <= j < i && Stages(log)[j].AcceptanceCriteria?) <==> Stages(log)[1].AcceptanceCriteria?
  {
    StagesAreALegalWalk(runId, log);
    AcceptanceIffFirstMove(Stages(log), i);
  }

  // An approval of PLANNING for a run with no record yet.
  function PlanFirst(runId: string): Approval {
    Approval("unit", None, runId, "digest", Grounding, Planning, NoOutcome, "repository", "base", StageTime(Chain.Genesis, 1),
             OtherPlan("plan"), [], [], "nonce", "human", At(1), "", "", "", NoContract)
  }

  // A run that no approval of its criteria precedes.
  lemma AcceptanceCanBeSkipped(runId: string)
    requires runId != ""
    ensures exists log :: Reachable(runId, log) && Stages(log) == [Grounding, Planning]
  {
    var a := PlanFirst(runId);
    var req := Request(None, Projected([]), a, a, 1, 1, "");
    var r := Sealed(runId, [], ApplyContent(req, At(1)));
    LegalExactly(req);
    assert ValidCore(r);
    assert ApplyStep(runId, [], r);
    assert [r][..0] == [];
    assert Reachable(runId, [r][..0]);
    assert Reachable(runId, [r]);
    assert Stages([r][..0]) == [Grounding];
    assert Stages([r]) == [Grounding, Planning];
  }

  lemma EndsWith(log: seq<Record>, r: Record)
    requires TerminalRecord(r)
    ensures OutcomeOf(log + [r]) == r.payload.outcome && StageOf(log + [r]) == StageOf(log)
  {
    assert (log + [r])[..|log|] == log;
  }

  lemma OutcomeSnoc(log: seq<Record>, r: Record)
    requires !TerminalRecord(r) && !ApprovedTransition(r)
    ensures OutcomeOf(log + [r]) == OutcomeOf(log) && StageOf(log + [r]) == StageOf(log)
  {
    assert (log + [r])[..|log|] == log;
  }

  // Nothing moves or ends a run that has ended.
  lemma QuietAt(runId: string, log: seq<Record>, j: nat)
    requires AllLawful(runId, log) && j < |log| && !OutcomeOf(log[..j]).NoOutcome?
    ensures !TerminalRecord(log[j]) && !ApprovedTransition(log[j])
    ensures OutcomeOf(log[..j + 1]) == OutcomeOf(log[..j]) && StageOf(log[..j + 1]) == StageOf(log[..j])
  {
    assert Lawful(runId, log[..j], log[j]);
    OutcomeSnoc(log[..j], log[j]);
    assert log[..j + 1] == log[..j] + [log[j]];
  }

  lemma EndsAt(log: seq<Record>, i: nat)
    requires i < |log| && TerminalRecord(log[i])
    ensures OutcomeOf(log[..i + 1]) == log[i].payload.outcome && StageOf(log[..i + 1]) == StageOf(log[..i])
  {
    EndsWith(log[..i], log[i]);
    assert log[..i + 1] == log[..i] + [log[i]];
  }

  // Ended with this outcome at this stage.
  predicate EndedAs(log: seq<Record>, n: nat, o: Outcome, s: Stage)
    requires n <= |log|
  {
    OutcomeOf(log[..n]) == o && StageOf(log[..n]) == s
  }

  lemma {:induction false} EndIsKept(runId: string, log: seq<Record>, from: nat, j: nat, o: Outcome, s: Stage)
    requires AllLawful(runId, log) && from <= j <= |log| && EndedAs(log, from, o, s) && !o.NoOutcome?
    ensures EndedAs(log, j, o, s)
    decreases j - from
  {
    if from < j {
      QuietAt(runId, log, from);
      EndIsKept(runId, log, from + 1, j, o, s);
    }
  }

  // The first terminal outcome is the last: after it no stage changes, no
  // outcome is recorded and none replaces it.
  lemma OutcomeIsAbsorbing(runId: string, log: seq<Record>, i: nat, j: nat)
    requires Reachable(runId, log) && i < j <= |log| && TerminalRecord(log[i])
    ensures OutcomeOf(log[..j]) == log[i].payload.outcome && StageOf(log[..j]) == StageOf(log[..i])
    ensures j < |log| ==> !TerminalRecord(log[j]) && !ApprovedTransition(log[j])
  {
    ReachableIsLawful(runId, log);
    EndsAt(log, i);
    EndIsKept(runId, log, i + 1, j, log[i].payload.outcome, StageOf(log[..i]));
    if j < |log| {
      QuietAt(runId, log, j);
    }
  }

  // Why a run ended. A failure is the live classification of highest
  // precedence; PARTIAL needs no live failure and criteria of both kinds; the
  // verified outcomes are never recorded.
  lemma OutcomeIsEarned(runId: string, log: seq<Record>, i: nat)
    requires Reachable(runId, log) && i < |log| && TerminalRecord(log[i])
    ensures Ends(log[..i], log[i])
    ensures log[i].payload.outcome in {Aborted, Blocked, Unknown, Failed, Partial}
  {
    ReachableIsLawful(runId, log);
    assert Lawful(runId, log[..i], log[i]);
  }

  // ---- human resolutions ----

  lemma LastStep(runId: string, log: seq<Record>)
    requires Reachable(runId, log) && log != []
    ensures Reachable(runId, log[..|log| - 1]) && Step(runId, log[..|log| - 1], log[|log| - 1])
  {
  }

  lemma {:induction false} ReachablePrefix(runId: string, log: seq<Record>, n: nat)
    requires Reachable(runId, log) && n <= |log|
    ensures Reachable(runId, log[..n])
    decreases |log|
  {
    if n < |log| {
      LastStep(runId, log);
      ReachablePrefix(runId, log[..|log| - 1], n);
      assert log[..|log| - 1][..n] == log[..n];
    } else {
      assert log[..n] == log;
    }
  }

  lemma StepAt(runId: string, log: seq<Record>, i: nat)
    requires Reachable(runId, log) && i < |log|
    ensures Step(runId, log[..i], log[i])
  {
    ReachablePrefix(runId, log, i + 1);
    LastStep(runId, log[..i + 1]);
    assert log[..i + 1][..i] == log[..i];
  }

  lemma ResolutionsAreResolved(runId: string, log: seq<Record>, r: Record)
    requires Step(runId, log, r) && (r.payload.waiverOperation.Some? || r.payload.findingOverride.Some?)
    ensures Resolving.ResolveStep(runId, log, r)
  {
  }

  // In every reachable log, each waiver operation was one that applied where it
  // was filed: no grant waives a finding that blocks or anything already
  // waived, and none ends what is not. Each override moved a finding that did
  // not block and that HMA had not raised.
  lemma EveryResolutionApplied(runId: string, log: seq<Record>, i: nat)
    requires Reachable(runId, log) && i < |log|
    ensures log[i].payload.waiverOperation.Some? ==>
              Resolving.Applicable(log[i].payload.waiverOperation.value, CriteriaOf(log[..i]), Resolution.FindingsOf(log[..i]),
                                   Resolution.WaiversOf(log[..i]))
    ensures log[i].payload.findingOverride.Some? ==>
              Resolving.Overridable(log[i].payload.findingOverride.value.findingId, Resolution.FindingsOf(log[..i]))
  {
    StepAt(runId, log, i);
    if log[i].payload.waiverOperation.Some? || log[i].payload.findingOverride.Some? {
      ResolutionsAreResolved(runId, log[..i], log[i]);
      var req, t :| Resolving.Admitted(log[..i], req) && log[i] == Resolving.Filed(runId, log[..i], t, req);
      Resolving.LegalExactly(req);
    }
  }

  // ---- nonces ----

  function SpentNonces(log: seq<Record>): seq<string> {
    if log == [] then [] else SpentNonces(log[..|log| - 1]) + NoncesIn(log[|log| - 1])
  }

  predicate Distinct(s: seq<string>) {
    forall i, j :: 0 <= i < j < |s| ==> s[i] != s[j]
  }

  lemma {:induction false} SpentAreUsed(log: seq<Record>)
    ensures forall n :: n in SpentNonces(log) <==> n in NoncesOf(log)
    decreases |log|
  {
    if log != [] {
      var before, r := log[..|log| - 1], log[|log| - 1];
      assert log == before + [r];
      SpentAreUsed(before);
      NoncesSnoc(before, r);
    }
  }

  lemma DistinctGrows(s: seq<string>, t: seq<string>)
    requires Distinct(s) && |t| <= 1 && (t != [] ==> t[0] !in s)
    ensures Distinct(s + t)
  {
  }

  lemma {:induction false} LawfulNonces(runId: string, log: seq<Record>)
    requires AllLawful(runId, log)
    ensures Distinct(SpentNonces(log))
    decreases |log|
  {
    if log != [] {
      var before, r := log[..|log| - 1], log[|log| - 1];
      LawfulPrefix(runId, log, |log| - 1);
      LawfulNonces(runId, before);
      SpentAreUsed(before);
      assert Lawful(runId, before, r);
      DistinctGrows(SpentNonces(before), NoncesIn(r));
    }
  }

  // Across approvals, waiver operations and finding overrides, no challenge
  // nonce is spent twice, and each of those records spends one.
  lemma NoncesAreSingleUse(runId: string, log: seq<Record>)
    requires Reachable(runId, log)
    ensures Distinct(SpentNonces(log))
    ensures forall i :: 0 <= i < |log| ==> |NoncesIn(log[i])| == 1 || Plain(log[i].payload)
  {
    ReachableIsLawful(runId, log);
    LawfulNonces(runId, log);
    forall i | 0 <= i < |log| ensures |NoncesIn(log[i])| == 1 || Plain(log[i].payload) {
      assert Lawful(runId, log[..i], log[i]);
    }
  }

  // ---- live classifications ----

  predicate Classifies(r: Record, unit: string) {
    r.payload.kind.ClassificationRecord? && ValidClassification(r) && r.payload.unitId == unit
  }

  predicate Supersedes(r: Record, unit: string) {
    Classifies(r, unit) || (r.payload.unitId == unit && unit != "" && HumanApprovedStateChange(r))
  }

  // The same of a record that some writer filed: it carries a classification, a
  // waiver operation or an override, and is of the unit.
  predicate Decides(r: Record, unit: string) {
    var c := r.payload;
    c.unitId == unit != "" && (c.classification.Some? || c.waiverOperation.Some? || c.findingOverride.Some?)
  }

  lemma StepDecides(runId: string, log: seq<Record>, r: Record, unit: string)
    requires Step(runId, log, r)
    ensures Supersedes(r, unit) <==> Decides(r, unit)
    ensures Classifies(r, unit) <==> r.payload.classification.Some? && r.payload.unitId == unit
  {
    if r.payload.waiverOperation.Some? || r.payload.findingOverride.Some? {
      assert Resolving.ResolveStep(runId, log, r);
    }
  }

  ghost predicate LiveAt(log: seq<Record>, unit: string, outcome: Outcome, i: int) {
    && 0 <= i < |log| && Classifies(log[i], unit) && log[i].payload.classification.value.outcome == outcome
    && forall k :: i < k < |log| ==> !Supersedes(log[k], unit)
  }

  predicate LiveAs(log: seq<Record>, unit: string, outcome: Outcome) {
    unit in LiveOf(log) && LiveOf(log)[unit] == outcome
  }

  lemma LiveSnoc(log: seq<Record>, r: Record, unit: string, outcome: Outcome)
    ensures LiveAs(log + [r], unit, outcome) <==>
              if Classifies(r, unit) then r.payload.classification.value.outcome == outcome
              else LiveAs(log, unit, outcome) && !Supersedes(r, unit)
  {
    assert (log + [r])[..|log|] == log;
  }

  lemma LiveAtSnoc(log: seq<Record>, r: Record, unit: string, outcome: Outcome)
    ensures (exists i :: LiveAt(log + [r], unit, outcome, i)) <==>
              if Classifies(r, unit) then r.payload.classification.value.outcome == outcome
              else (exists i :: LiveAt(log, unit, outcome, i)) && !Supersedes(r, unit)
  {
    var all := log + [r];
    assert all[|log|] == r;
    if Classifies(r, unit) {
      assert r.payload.classification.value.outcome == outcome ==> LiveAt(all, unit, outcome, |log|);
    } else {
      forall i | LiveAt(log, unit, outcome, i) && !Supersedes(r, unit) ensures LiveAt(all, unit, outcome, i) {}
      forall i | LiveAt(all, unit, outcome, i) ensures LiveAt(log, unit, outcome, i) {
        assert forall k :: 0 <= k < |log| ==> log[k] == all[k];
      }
    }
  }

  // A unit's live outcome is its latest classification, unless a later human
  // decision about the unit superseded it.
  lemma {:induction false} LiveMeansLatest(log: seq<Record>, unit: string, outcome: Outcome)
    ensures LiveAs(log, unit, outcome) <==> exists i :: LiveAt(log, unit, outcome, i)
    decreases |log|
  {
    if log != [] {
      var before, r := log[..|log| - 1], log[|log| - 1];
      assert log == before + [r];
      LiveMeansLatest(before, unit, outcome);
      LiveSnoc(before, r, unit, outcome);
      LiveAtSnoc(before, r, unit, outcome);
    }
  }

  // In a reachable log that is the unit's latest classification, unless a
  // waiver operation or an override of the unit came after it.
  predicate LatestDecision(log: seq<Record>, unit: string, outcome: Outcome, i: int) {
    && 0 <= i < |log| && Decides(log[i], unit) && (forall k :: i < k < |log| ==> !Decides(log[k], unit))
    && log[i].payload.classification.Some? && log[i].payload.classification.value.outcome == outcome
  }

  lemma RunLive(runId: string, log: seq<Record>, unit: string, outcome: Outcome)
    requires Reachable(runId, log)
    ensures LiveAs(log, unit, outcome) <==> exists i :: LatestDecision(log, unit, outcome, i)
  {
    LiveMeansLatest(log, unit, outcome);
    forall i | 0 <= i < |log|
      ensures Supersedes(log[i], unit) <==> Decides(log[i], unit)
      ensures Classifies(log[i], unit) <==> log[i].payload.classification.Some? && log[i].payload.unitId == unit
    {
      StepAt(runId, log, i);
      StepDecides(runId, log[..i], log[i], unit);
    }
    forall i ensures LiveAt(log, unit, outcome, i) <==> LatestDecision(log, unit, outcome, i) {}
  }

  // How severe a failure is.
  function Severity(o: Outcome): nat {
    match o
    case Blocked => 3
    case Unknown => 2
    case Failed => 1
    case _ => 0
  }

  lemma PrecedenceIsWorst(live: map<string, Outcome>)
    ensures forall u :: u in live ==> Severity(live[u]) <= Severity(Precedence(live))
    ensures Severity(Precedence(live)) > 0 ==> exists u :: u in live && live[u] == Precedence(live)
    ensures Severity(Precedence(live)) == 0 ==> Precedence(live) == NoOutcome
  {
  }

  ghost predicate FailsAs(log: seq<Record>, unit: string, o: Outcome) {
    exists k :: LatestDecision(log, unit, o, k)
  }

  // Some unit's latest decision is this failure.
  ghost predicate Failing(log: seq<Record>, o: Outcome) {
    exists u :: FailsAs(log, u, o)
  }

  ghost predicate LiveSomewhere(log: seq<Record>, o: Outcome) {
    exists u :: LiveAs(log, u, o)
  }

  lemma FailingIsLive(runId: string, log: seq<Record>, o: Outcome)
    requires Reachable(runId, log)
    ensures Failing(log, o) <==> LiveSomewhere(log, o)
  {
    forall u ensures LiveAs(log, u, o) <==> FailsAs(log, u, o) {
      RunLive(runId, log, u, o);
    }
  }

  // The replayed failure is the most severe of those.
  ghost predicate WorstIs(log: seq<Record>, worst: Outcome) {
    && (Severity(worst) > 0 ==> Failing(log, worst))
    && (forall p :: Failing(log, p) ==> Severity(p) <= Severity(worst))
  }

  lemma WorstIsReplayed(runId: string, log: seq<Record>)
    requires Reachable(runId, log)
    ensures WorstIs(log, Precedence(LiveOf(log)))
  {
    var live := LiveOf(log);
    PrecedenceIsWorst(live);
    forall p ensures Failing(log, p) <==> LiveSomewhere(log, p) {
      FailingIsLive(runId, log, p);
    }
    forall p ensures LiveSomewhere(log, p) <==> exists u :: u in live && live[u] == p {
      assert forall u :: LiveAs(log, u, p) <==> u in live && live[u] == p;
    }
  }

  // A run ends in a failure only when some unit's latest decision is that
  // failure and none is a more severe one, and in PARTIAL only when no unit's is
  // a failure at all.
  lemma FailureIsWorst(runId: string, log: seq<Record>, i: nat)
    requires Reachable(runId, log) && i < |log| && TerminalRecord(log[i])
    ensures
      var o := log[i].payload.outcome;
      && (Severity(o) > 0 ==> Failing(log[..i], o))
      && (Severity(o) > 0 || o.Partial? ==> forall p :: Failing(log[..i], p) ==> Severity(p) <= Severity(o))
  {
    StepAt(runId, log, i);
    ReachablePrefix(runId, log, i);
    WorstIsReplayed(runId, log[..i]);
    StepMovesOrEnds(runId, log[..i], log[i]);
    EndIsWorst(log[..i], log[i]);
  }

  lemma EndIsWorst(log: seq<Record>, r: Record)
    requires WorstIs(log, Precedence(LiveOf(log))) && Ends(log, r)
    ensures
      var o := r.payload.outcome;
      && (Severity(o) > 0 ==> Failing(log, o))
      && (Severity(o) > 0 || o.Partial? ==> forall p :: Failing(log, p) ==> Severity(p) <= Severity(o))
  {
  }

  // ---- an approval is for one chain ----

  predicate RaisedOn(log: seq<Record>, a: Approval) {
    a.stageTime == StageTime(Chain.Tail(log), |log| + 1)
  }

  lemma TransitionIsRaisedOn(runId: string, log: seq<Record>, r: Record)
    requires ApplyStep(runId, log, r) || PilotStep(runId, log, r)
    ensures r.payload.approval.Some? && RaisedOn(log, r.payload.approval.value)
  {
    if PilotStep(runId, log, r) {
      var a, expected, now, maxAge, worktree, t :|
        PilotAdmits(log, a, expected, now, maxAge, worktree) && r == Sealed(runId, log, PilotContent(a, t));
    }
  }

  // A human decision that is admissible on two reachable chains of a run was
  // taken about one: the position it binds names the whole history.
  lemma {:induction false} ApprovalNamesItsChain(runId: string, one: seq<Record>, other: seq<Record>, r: Record,
            s: Record)
    requires Reachable(runId, one) && Reachable(runId, other)
    requires ApplyStep(runId, one, r) || PilotStep(runId, one, r)
    requires ApplyStep(runId, other, s) || PilotStep(runId, other, s)
    requires r.payload.approval == s.payload.approval
    ensures one == other
  {
    TransitionIsRaisedOn(runId, one, r);
    TransitionIsRaisedOn(runId, other, s);
    ReachableIsChain(runId, one);
    ReachableIsChain(runId, other);
    Chain.AnchorNamesChain(runId, ValidCore, one, other);
  }
}
