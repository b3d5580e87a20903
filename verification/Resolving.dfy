// One human resolution: a waiver operation or a finding override, evaluated
// against the projected chain (internal/engine/resolution.go) and filed as a
// record (cmd/hma/resolve.go).
module Resolving {
  import opened Vocabulary
  import opened CoreModel
  import opened Resolution
  import StageProjection
  import Chain

  datatype Reason =
    | MultipleOperations | MissingOperation | TargetNotFound | WaiveBlockFinding | OverrideBlock | OverrideEstablished
    | AlreadyWaived | NoActiveWaiver | ReusedNonce | StalePosition | InvalidOperation
    | StaleRepository | StaleRevision | StaleHead | StaleDiff

  datatype Verdict = Legal | Rejected(reason: Reason)

  // The repository as the host observes it now.
  datatype Live = Live(repository: string, baseRevision: string, head: string, diff: string)

  // expectedHead is Genesis when the request binds no chain position.
  datatype Request = Request(
    operation: Option<WaiverOperation>, override: Option<FindingOverride>, state: ResolutionState,
    expectedHead: Anchor, head: Anchor, live: Live)

  // ---- evaluation ----

  predicate Bound(declared: string, live: string) {
    declared == "" || declared == live
  }

  predicate HasCriterion(criteria: seq<Criterion>, id: string) {
    exists i :: 0 <= i < |criteria| && criteria[i].id == id
  }

  // The first finding with this id.
  function FindFinding(findings: seq<Finding>, id: string): (r: Option<Finding>)
    ensures r.None? <==> forall i :: 0 <= i < |findings| ==> findings[i].id != id
    ensures r.Some? ==> r.value in findings && r.value.id == id
  {
    if findings == [] then None
    else if findings[0].id == id then Some(findings[0])
    else FindFinding(findings[1..], id)
  }

  // A finding HMA raised itself: its id starts "HMA-", or names an HMA- source.
  predicate Established(id: string) {
    || "HMA-" <= id
    || exists i :: 0 <= i <= |id| && "/HMA-" <= id[i..]
  }

  function EvaluateGrant(w: WaiverOperation, state: ResolutionState): Verdict {
    var finding := FindFinding(state.findings, w.scope.target);
    if w.scope.kind.CriterionScope? && !HasCriterion(state.criteria, w.scope.target) then Rejected(TargetNotFound)
    else if w.scope.kind.FindingScope? && finding.None? then Rejected(TargetNotFound)
    else if w.scope.kind.FindingScope? && finding.value.disposition.Block? then Rejected(WaiveBlockFinding)
    else if w.scope.kind.OtherScope? then Rejected(TargetNotFound)
    else if w.scope in state.activeWaivers then Rejected(AlreadyWaived)
    else Legal
  }

  function EvaluateOperation(w: WaiverOperation, state: ResolutionState): Verdict {
    if w.action.OtherAction? then Rejected(InvalidOperation)
    else if w.action.Grant? then EvaluateGrant(w, state)
    else if w.scope !in state.activeWaivers then Rejected(NoActiveWaiver)
    else Legal
  }

  function EvaluateOverride(f: FindingOverride, state: ResolutionState): Verdict {
    var finding := FindFinding(state.findings, f.findingId);
    if finding.None? then Rejected(TargetNotFound)
    else if finding.value.disposition.Block? then Rejected(OverrideBlock)
    else if Established(f.findingId) then Rejected(OverrideEstablished)
    else Legal
  }

  function EvaluateResolution(req: Request): Verdict {
    if req.operation.Some? && req.override.Some? then Rejected(MultipleOperations)
    else if req.operation.None? && req.override.None? then Rejected(MissingOperation)
    else if req.expectedHead != Chain.Genesis && req.expectedHead != req.head then Rejected(StalePosition)
    else
      var (nonce, repository, revision) :=
        if req.operation.Some?
        then (req.operation.value.nonce, req.operation.value.repositoryIdentity, req.operation.value.baseRevision)
        else (req.override.value.nonce, req.override.value.repositoryIdentity, req.override.value.baseRevision);
      if !Bound(repository, req.live.repository) then Rejected(StaleRepository)
      else if !Bound(revision, req.live.baseRevision) then Rejected(StaleRevision)
      else if req.operation.Some? && !Bound(req.operation.value.head, req.live.head) then Rejected(StaleHead)
      else if req.operation.Some? && !Bound(req.operation.value.diffDigest, req.live.diff) then Rejected(StaleDiff)
      else if nonce != "" && nonce in req.state.usedNonces then Rejected(ReusedNonce)
      else if req.operation.Some? then EvaluateOperation(req.operation.value, req.state)
      else EvaluateOverride(req.override.value, req.state)
  }

  // ---- exactly when a resolution is legal ----

  // The first finding in the list with this id is at j.
  predicate FirstIs(findings: seq<Finding>, id: string, j: int) {
    && 0 <= j < |findings| && findings[j].id == id
    && forall k :: 0 <= k < j ==> findings[k].id != id
  }

  // What may be waived: a criterion there is, a finding there is and that does
  // not block, or any artifact.
  ghost predicate Waivable(scope: Scope, criteria: seq<Criterion>, findings: seq<Finding>) {
    match scope.kind
    case CriterionScope => exists i :: 0 <= i < |criteria| && criteria[i].id == scope.target
    case FindingScope => exists j :: FirstIs(findings, scope.target, j) && !findings[j].disposition.Block?
    case ArtifactScope => true
    case OtherScope(_) => false
  }

  // A grant needs something that may be waived and is not; an ending needs an
  // active waiver.
  ghost predicate Applicable(w: WaiverOperation, criteria: seq<Criterion>, findings: seq<Finding>, active: set<Scope>) {
    match w.action
    case Grant => Waivable(w.scope, criteria, findings) && w.scope !in active
    case Expire => w.scope in active
    case Withdraw => w.scope in active
    case OtherAction(_) => false
  }

  // What may be overridden: a finding there is, that does not block, and whose
  // id, or the source's part of it, does not start "HMA-".
  ghost predicate Overridable(id: string, findings: seq<Finding>) {
    && (exists j :: FirstIs(findings, id, j) && !findings[j].disposition.Block?)
    && !(|id| >= 4 && id[..4] == "HMA-") && forall i :: 0 <= i < |id| ==> !NamesHma(id, i)
  }

  predicate NamesHma(id: string, i: nat) {
    i + 5 <= |id| && id[i..i + 5] == "/HMA-"
  }

  // The values a waiver operation declares are the live ones, where it
  // declares any, and its nonce is fresh.
  predicate OperationBound(w: WaiverOperation, live: Live, used: set<string>) {
    && (w.repositoryIdentity == "" || w.repositoryIdentity == live.repository)
    && (w.baseRevision == "" || w.baseRevision == live.baseRevision)
    && (w.head == "" || w.head == live.head) && (w.diffDigest == "" || w.diffDigest == live.diff)
    && (w.nonce == "" || w.nonce !in used)
  }

  predicate OverrideBound(f: FindingOverride, live: Live, used: set<string>) {
    && (f.repositoryIdentity == "" || f.repositoryIdentity == live.repository)
    && (f.baseRevision == "" || f.baseRevision == live.baseRevision)
    && (f.nonce == "" || f.nonce !in used)
  }

  lemma {:induction false} FindsFirst(findings: seq<Finding>, id: string)
    ensures FindFinding(findings, id).Some? <==> exists j :: FirstIs(findings, id, j)
    ensures forall j :: FirstIs(findings, id, j) ==> FindFinding(findings, id) == Some(findings[j])
  {
    if FindFinding(findings, id).Some? {
      var j := IndexOf(findings, id);
      assert FirstIs(findings, id, j);
    }
    forall j | FirstIs(findings, id, j) ensures FindFinding(findings, id) == Some(findings[j]) {
      assert findings[j].id == id;
      var i := IndexOf(findings, id);
      assert i == j;
    }
  }

  lemma EstablishedExactly(id: string)
    ensures Established(id) <==>
              (|id| >= 4 && id[..4] == "HMA-") || exists i :: 0 <= i < |id| && NamesHma(id, i)
  {
    forall i | 0 <= i <= |id| ensures "/HMA-" <= id[i..] <==> NamesHma(id, i) {
      if i + 5 <= |id| {
        assert id[i..][..5] == id[i..i + 5];
      }
    }
    if |id| >= 4 && id[..4] == "HMA-" {
      assert "HMA-" <= id;
    }
  }

  lemma ApplicableExactly(w: WaiverOperation, state: ResolutionState)
    ensures EvaluateOperation(w, state).Legal? <==> Applicable(w, state.criteria, state.findings, state.activeWaivers)
  {
    FindsFirst(state.findings, w.scope.target);
  }

  lemma OverridableExactly(f: FindingOverride, state: ResolutionState)
    ensures EvaluateOverride(f, state).Legal? <==> Overridable(f.findingId, state.findings)
  {
    FindsFirst(state.findings, f.findingId);
    EstablishedExactly(f.findingId);
  }

  // A resolution is legal if and only if all of this holds, in no order: it is
  // one operation or one override, raised at this chain position if it names
  // one, against the live repository where it says which, with a fresh nonce,
  // on something it may be done to.
  lemma LegalExactly(req: Request)
    ensures EvaluateResolution(req).Legal? <==>
              && (req.expectedHead == Chain.Genesis || req.expectedHead == req.head)
              && (req.operation.Some? <==> req.override.None?)
              && (req.operation.Some? ==>
                    && OperationBound(req.operation.value, req.live, req.state.usedNonces)
                    && Applicable(req.operation.value, req.state.criteria, req.state.findings, req.state.activeWaivers))
              && (req.override.Some? ==>
                    && OverrideBound(req.override.value, req.live, req.state.usedNonces)
                    && Overridable(req.override.value.findingId, req.state.findings))
  {
    if req.operation.Some? {
      ApplicableExactly(req.operation.value, req.state);
    }
    if req.override.Some? {
      OverridableExactly(req.override.value, req.state);
    }
  }

  // ---- the record it is filed as ----

  function Filed(runId: string, log: seq<Record>, timestamp: Stamp, req: Request): Record
    requires req.operation.Some? || req.override.Some?
  {
    var unit := if req.operation.Some? then req.operation.value.unitId else req.override.value.unitId;
    var kind := if req.operation.Some? then WaiverOperationRecord else FindingOverrideRecord;
    var content := Content(kind, unit, timestamp, NoStage, NoControl, NoOutcome, [], [], false, [], None, None, None,
                           req.operation, if req.operation.Some? then None else req.override);
    Chain.Record(runId, |log| + 1, Chain.Tail(log), Chain.Digest(runId, |log| + 1, Chain.Tail(log), content), content)
  }

  // A request as resolve raises it against a loaded chain, found legal.
  predicate Admitted(log: seq<Record>, req: Request) {
    req.state == Projected(log) && req.head == Chain.Tail(log) && EvaluateResolution(req).Legal?
  }

  // What a filed resolution does to the projection, and only that: a grant
  // activates one inactive scope, any other operation ends one active scope,
  // and an override moves one existing finding that does not block.
  lemma ResolutionEffect(runId: string, log: seq<Record>, timestamp: Stamp, req: Request)
    requires Admitted(log, req)
    ensures
      var before, after := Projected(log), Projected(log + [Filed(runId, log, timestamp, req)]);
      && after.criteria == before.criteria
      && (req.operation.Some? ==>
            var w := req.operation.value;
            && after.findings == before.findings
            && (w.action.Grant? ==> w.scope !in before.activeWaivers && after.activeWaivers == before.activeWaivers + {w.scope})
            && (!w.action.Grant? ==> w.scope in before.activeWaivers && after.activeWaivers == before.activeWaivers - {w.scope})
            && (w.nonce != "" ==> w.nonce !in before.usedNonces && after.usedNonces == before.usedNonces + {w.nonce}))
      && (req.override.Some? ==>
            var f := req.override.value;
            && after.activeWaivers == before.activeWaivers
            && Moved(before.findings, after.findings, f)
            && (f.nonce != "" ==> f.nonce !in before.usedNonces && after.usedNonces == before.usedNonces + {f.nonce}))
  {
    var r := Filed(runId, log, timestamp, req);
    assert (log + [r])[..|log|] == log;
    StageProjection.NoncesSnoc(log, r);
    if req.override.Some? {
      var f := req.override.value;
      var j := IndexOf(Projected(log).findings, f.findingId);
      OverrideChangesFirst(Projected(log).findings, f, j);
    }
  }

  // Exactly one finding moved: the first with the override's id, which did not block.
  ghost predicate Moved(before: seq<Finding>, after: seq<Finding>, f: FindingOverride) {
    exists j :: 0 <= j < |before| && before[j].id == f.findingId && !before[j].disposition.Block?
             && after == before[j := Finding(before[j].id, before[j].unitId, f.disposition,
                                             if f.disposition.Advisory? then before[j].advisory else "")]
  }

  lemma {:induction false} IndexOf(findings: seq<Finding>, id: string) returns (j: nat)
    requires FindFinding(findings, id).Some?
    ensures j < |findings| && findings[j] == FindFinding(findings, id).value && findings[j].id == id
    ensures forall k :: 0 <= k < j ==> findings[k].id != id
  {
    if findings[0].id == id {
      j := 0;
    } else {
      var i := IndexOf(findings[1..], id);
      j := i + 1;
      assert forall k :: 0 < k < j ==> findings[k] == findings[1..][k - 1];
    }
  }

  // The same operation is never legal twice in a row, whatever its nonce: a
  // granted scope cannot be granted, nor an ended one ended, again.
  lemma NotTwice(runId: string, log: seq<Record>, timestamp: Stamp, req: Request, again: Request)
    requires Admitted(log, req) && req.operation.Some?
    requires again.operation == req.operation && again.state == Projected(log + [Filed(runId, log, timestamp, req)])
    ensures EvaluateResolution(again).Rejected?
  {
    ResolutionEffect(runId, log, timestamp, req);
  }

  lemma OperationEffect(runId: string, log: seq<Record>, timestamp: Stamp, req: Request)
    requires Admitted(log, req) && req.operation.Some?
    ensures
      var w := req.operation.value;
      var after := WaiversOf(log + [Filed(runId, log, timestamp, req)]);
      if w.action.Grant? then w.scope !in WaiversOf(log) && after == WaiversOf(log) + {w.scope}
      else w.scope in WaiversOf(log) && after == WaiversOf(log) - {w.scope}
  {
    assert (log + [Filed(runId, log, timestamp, req)])[..|log|] == log;
  }

  // Ending what was granted restores the active waivers, and granting what was
  // ended does too.
  lemma GrantEndRoundTrip(runId: string, log: seq<Record>, t1: Stamp, t2: Stamp, req: Request, back: Request)
    requires Admitted(log, req) && req.operation.Some? && back.operation.Some?
    requires Admitted(log + [Filed(runId, log, t1, req)], back)
    requires back.operation.value.scope == req.operation.value.scope
    ensures back.operation.value.action.Grant? <==> !req.operation.value.action.Grant?
    ensures
      var one := log + [Filed(runId, log, t1, req)];
      WaiversOf(one + [Filed(runId, one, t2, back)]) == WaiversOf(log)
  {
    OperationEffect(runId, log, t1, req);
    OperationEffect(runId, log + [Filed(runId, log, t1, req)], t2, back);
  }

  // ---- whole runs ----

  ghost predicate ResolveStep(runId: string, log: seq<Record>, r: Record) {
    exists req, t :: Admitted(log, req) && r == Filed(runId, log, t, req)
  }

  // later extends log by resolutions alone.
  ghost predicate OnlyResolved(runId: string, log: seq<Record>, later: seq<Record>)
    decreases |later|
  {
    || later == log
    || (|later| > |log| && OnlyResolved(runId, log, later[..|later| - 1]) && ResolveStep(runId, later[..|later| - 1], later[|later| - 1]))
  }

  // The same list of findings, with every blocking one exactly as it was and
  // no other one blocking.
  ghost predicate BlockersKept(before: seq<Finding>, after: seq<Finding>) {
    && |after| == |before|
    && forall i :: 0 <= i < |before| ==>
         && after[i].id == before[i].id && after[i].unitId == before[i].unitId
         && (before[i].disposition.Block? ==> after[i] == before[i])
         && (after[i].disposition.Block? ==> before[i].disposition.Block?)
  }

  lemma MovedKeepsBlockers(before: seq<Finding>, after: seq<Finding>, f: FindingOverride)
    requires Moved(before, after, f) && !f.disposition.Block?
    ensures BlockersKept(before, after)
  {
  }

  lemma StepKeepsBlockers(runId: string, log: seq<Record>, t: Stamp, req: Request)
    requires Admitted(log, req) && (req.override.Some? ==> ValidFindingOverride(req.override.value))
    ensures BlockersKept(FindingsOf(log), FindingsOf(log + [Filed(runId, log, t, req)]))
  {
    ResolutionEffect(runId, log, t, req);
    if req.override.Some? {
      MovedKeepsBlockers(FindingsOf(log), FindingsOf(log + [Filed(runId, log, t, req)]), req.override.value);
    }
  }

  lemma ResolvedKeepsBlockers(runId: string, log: seq<Record>, r: Record)
    requires ResolveStep(runId, log, r)
    requires r.payload.findingOverride.Some? ==> ValidFindingOverride(r.payload.findingOverride.value)
    ensures BlockersKept(FindingsOf(log), FindingsOf(log + [r]))
  {
    var req, t :| Admitted(log, req) && r == Filed(runId, log, t, req);
    StepKeepsBlockers(runId, log, t, req);
  }

  lemma BlockersKeptTransitive(a: seq<Finding>, b: seq<Finding>, c: seq<Finding>)
    requires BlockersKept(a, b) && BlockersKept(b, c)
    ensures BlockersKept(a, c)
  {
    forall i | 0 <= i < |a| ensures a[i].disposition.Block? ==> c[i] == a[i] {
      assert b[i].id == a[i].id;
    }
  }

  // However many resolutions are filed, and in whatever order, no blocking
  // finding is changed and none is added.
  lemma {:induction false} BlockersOutlastResolution(runId: string, log: seq<Record>, later: seq<Record>)
    requires OnlyResolved(runId, log, later)
    requires forall r :: r in later && r.payload.findingOverride.Some? ==> ValidFindingOverride(r.payload.findingOverride.value)
    ensures BlockersKept(FindingsOf(log), FindingsOf(later))
    decreases |later|
  {
    if later != log {
      var n := |later| - 1;
      var before, r := later[..n], later[n];
      BlockersOutlastResolution(runId, log, before);
      assert later == before + [r];
      assert r in later;
      ResolvedKeepsBlockers(runId, before, r);
      BlockersKeptTransitive(FindingsOf(log), FindingsOf(before), FindingsOf(later));
    }
  }
}
