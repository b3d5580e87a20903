// Replaying a core chain into the stage a run has reached
// (internal/engine/stage_state.go, ProjectStageState).
module StageProjection {
  import opened Vocabulary
  import opened CoreModel
  import Chain

  datatype StageState = StageState(
    currentStage: Stage, sequence: int, predecessorHead: Anchor, failureOutcome: Outcome,
    terminal: bool, outcome: Outcome, usedNonces: set<string>, evidence: seq<Evidence>, criteria: seq<Criterion>)

  // ---- what a chain says, each part as a fold over its records ----

  function StageOf(log: seq<Record>): Stage {
    if log == [] then Grounding
    else
      var r := log[|log| - 1];
      if ApprovedTransition(r) && ValidStage(r.payload.approval.value.targetStage)
      then r.payload.approval.value.targetStage else StageOf(log[..|log| - 1])
  }

  // The last terminal outcome, or none.
  function OutcomeOf(log: seq<Record>): Outcome {
    if log == [] then NoOutcome
    else if TerminalRecord(log[|log| - 1]) then log[|log| - 1].payload.outcome
    else OutcomeOf(log[..|log| - 1])
  }

  function CriteriaOf(log: seq<Record>): seq<Criterion> {
    if log == [] then []
    else if log[|log| - 1].payload.criteria != [] then log[|log| - 1].payload.criteria
    else CriteriaOf(log[..|log| - 1])
  }

  function EvidenceOf(log: seq<Record>): seq<Evidence> {
    if log == [] then []
    else
      var e := log[|log| - 1].payload.evidence;
      EvidenceOf(log[..|log| - 1]) + if e.Some? then [e.value] else []
  }

  // The classifications still in force, by unit.
  function LiveOf(log: seq<Record>): map<string, Outcome> {
    if log == [] then map[]
    else
      var r := log[|log| - 1];
      var kept := if r.payload.unitId != "" && HumanApprovedStateChange(r) then LiveOf(log[..|log| - 1]) - {r.payload.unitId}
                  else LiveOf(log[..|log| - 1]);
      if r.payload.kind.ClassificationRecord? && ValidClassification(r)
      then kept[r.payload.unitId := r.payload.classification.value.outcome] else kept
  }

  // The challenge nonces one record spends, of any record family.
  function NoncesIn(r: Record): seq<string> {
    var c := r.payload;
    (if c.approval.Some? && c.approval.value.nonce != "" then [c.approval.value.nonce] else [])
    + (if c.waiverOperation.Some? && c.waiverOperation.value.nonce != "" then [c.waiverOperation.value.nonce] else [])
    + (if c.findingOverride.Some? && c.findingOverride.value.nonce != "" then [c.findingOverride.value.nonce] else [])
  }

  function NoncesOf(log: seq<Record>): set<string> {
    set i, n | 0 <= i < |log| && n in NoncesIn(log[i]) :: n
  }

  // The outcome of highest precedence among the live classifications: BLOCKED
  // before UNKNOWN before FAILED.
  function Precedence(live: map<string, Outcome>): Outcome {
    if exists u :: u in live && live[u].Blocked? then Blocked
    else if exists u :: u in live && live[u].Unknown? then Unknown
    else if exists u :: u in live && live[u].Failed? then Failed
    else NoOutcome
  }

  function Projected(log: seq<Record>): StageState {
    StageState(StageOf(log), |log|, Chain.Tail(log), Precedence(LiveOf(log)),
               OutcomeOf(log) != NoOutcome, OutcomeOf(log), NoncesOf(log), EvidenceOf(log), CriteriaOf(log))
  }

  // ---- each fold, said of the whole chain ----

  // The record moves the run to this stage.
  predicate MovesTo(r: Record, to: Stage) {
    && r.payload.kind.StageTransition? && r.payload.control.Approved? && r.payload.approval.Some?
    && r.payload.approval.value.targetStage == to && ValidStage(to)
  }

  ghost predicate LastMove(log: seq<Record>, k: int, to: Stage) {
    0 <= k < |log| && MovesTo(log[k], to) && forall i, other :: k < i < |log| ==> !MovesTo(log[i], other)
  }

  // The run is at the stage of the last record that moved it, or at GROUNDING.
  lemma {:induction false} StageIsLast(log: seq<Record>)
    ensures forall k, to :: LastMove(log, k, to) ==> StageOf(log) == to
    ensures (forall i, to :: 0 <= i < |log| ==> !MovesTo(log[i], to)) ==> StageOf(log) == Grounding
  {
    if log != [] {
      var n := |log| - 1;
      StageIsLast(log[..n]);
      assert forall i :: 0 <= i < n ==> log[..n][i] == log[i];
      if ApprovedTransition(log[n]) {
        var target := log[n].payload.approval.value.targetStage;
        assert MovesTo(log[n], target) <==> ValidStage(target);
      }
      forall k, to | LastMove(log, k, to) ensures StageOf(log) == to {
        if k < n {
          assert ApprovedTransition(log[n]) ==> !MovesTo(log[n], log[n].payload.approval.value.targetStage);
          assert LastMove(log[..n], k, to);
        }
      }
    }
  }

  predicate EndsAs(r: Record, o: Outcome) {
    r.payload.kind.OutcomeRecord? && r.payload.outcome == o && !o.NoOutcome? && !o.OtherOutcome?
  }

  ghost predicate LastEnd(log: seq<Record>, k: int, o: Outcome) {
    0 <= k < |log| && EndsAs(log[k], o) && forall i, other :: k < i < |log| ==> !EndsAs(log[i], other)
  }

  // The outcome is that of the last record that ends the run, or none.
  lemma {:induction false} OutcomeIsLast(log: seq<Record>)
    ensures forall k, o :: LastEnd(log, k, o) ==> OutcomeOf(log) == o
    ensures (forall i, o :: 0 <= i < |log| ==> !EndsAs(log[i], o)) ==> OutcomeOf(log) == NoOutcome
  {
    if log != [] {
      var n := |log| - 1;
      OutcomeIsLast(log[..n]);
      assert forall i :: 0 <= i < n ==> log[..n][i] == log[i];
      assert TerminalRecord(log[n]) <==> EndsAs(log[n], log[n].payload.outcome);
      forall k, o | LastEnd(log, k, o) ensures OutcomeOf(log) == o {
        if k < n {
          assert LastEnd(log[..n], k, o);
        }
      }
    }
  }

  predicate LastCriteria(log: seq<Record>, k: int) {
    0 <= k < |log| && log[k].payload.criteria != [] && forall i :: k < i < |log| ==> log[i].payload.criteria == []
  }

  // The criteria are the last list recorded that is not empty.
  lemma {:induction false} CriteriaAreLast(log: seq<Record>)
    ensures forall k :: LastCriteria(log, k) ==> CriteriaOf(log) == log[k].payload.criteria
    ensures (forall i :: 0 <= i < |log| ==> log[i].payload.criteria == []) ==> CriteriaOf(log) == []
  {
    if log != [] {
      var n := |log| - 1;
      CriteriaAreLast(log[..n]);
      assert forall i :: 0 <= i < n ==> log[..n][i] == log[i];
    }
  }

  // The evidence is all that was recorded, and nothing else.
  lemma {:induction false} EvidenceIsRecorded(log: seq<Record>)
    ensures forall e :: e in EvidenceOf(log) <==> exists i :: 0 <= i < |log| && log[i].payload.evidence == Some(e)
  {
    if log != [] {
      var n := |log| - 1;
      EvidenceIsRecorded(log[..n]);
      forall e ensures e in EvidenceOf(log) <==> exists i :: 0 <= i < |log| && log[i].payload.evidence == Some(e) {
        if i :| 0 <= i < |log| && log[i].payload.evidence == Some(e) && i < n {
          assert log[..n][i] == log[i];
        }
      }
    }
  }

  // A nonce is used once any approval, waiver operation or override carries it.
  lemma NoncesAreCarried(log: seq<Record>, n: string)
    ensures n in NoncesOf(log) <==> n != "" && exists i :: 0 <= i < |log| && Carries(log[i], n)
  {
    forall i | 0 <= i < |log| ensures n in NoncesIn(log[i]) <==> n != "" && Carries(log[i], n) {}
  }

  predicate Carries(r: Record, n: string) {
    || (r.payload.approval.Some? && r.payload.approval.value.nonce == n)
    || (r.payload.waiverOperation.Some? && r.payload.waiverOperation.value.nonce == n)
    || (r.payload.findingOverride.Some? && r.payload.findingOverride.value.nonce == n)
  }

  lemma NoncesSnoc(log: seq<Record>, r: Record)
    ensures NoncesOf(log + [r]) == NoncesOf(log) + set n | n in NoncesIn(r)
  {
    var all := log + [r];
    forall n | n in NoncesOf(log) ensures n in NoncesOf(all) {
      var i :| 0 <= i < |log| && n in NoncesIn(log[i]);
      assert n in NoncesIn(all[i]);
    }
    forall n | n in NoncesIn(r) ensures n in NoncesOf(all) {
      assert all[|log|] == r;
    }
  }

  lemma {:induction false} OutcomeIsTerminal(log: seq<Record>)
    ensures OutcomeOf(log).NoOutcome? || ValidTerminalOutcome(OutcomeOf(log))
  {
    if log != [] {
      OutcomeIsTerminal(log[..|log| - 1]);
    }
  }

  // The live classifications after one record.
  method UpdateLive(live: map<string, Outcome>, ghost log: seq<Record>, r: Record) returns (out: map<string, Outcome>)
    requires live == LiveOf(log)
    ensures out == LiveOf(log + [r])
  {
    assert (log + [r])[..|log|] == log;
    out := live;
    if r.payload.unitId != "" && HumanApprovedStateChange(r) {
      out := out - {r.payload.unitId};
    }
    if r.payload.kind.ClassificationRecord? && ValidClassification(r) {
      out := out[r.payload.unitId := r.payload.classification.value.outcome];
    }
  }

  method ProjectStageState(records: seq<Record>) returns (state: StageState)
    ensures state == Projected(records)
  {
    var stage, outcome, terminal := Grounding, NoOutcome, false;
    var usedNonces: set<string>, evidence: seq<Evidence>, criteria: seq<Criterion> := {}, [], [];
    var live: map<string, Outcome> := map[];
    for i := 0 to |records|
      invariant live == LiveOf(records[..i])
      invariant stage == StageOf(records[..i])
      invariant outcome == OutcomeOf(records[..i]) && terminal == (outcome != NoOutcome)
      invariant usedNonces == NoncesOf(records[..i])
      invariant evidence == EvidenceOf(records[..i]) && criteria == CriteriaOf(records[..i])
    {
      ghost var before, after := records[..i], records[..i + 1];
      var r := records[i];
      var c := r.payload;
      assert after == before + [r] && after[..i] == before && after[i] == r;
      NoncesSnoc(before, r);
      live := UpdateLive(live, before, r);
      if |c.criteria| > 0 {
        criteria := c.criteria;
      }
      if ApprovedTransition(r) && ValidStage(c.approval.value.targetStage) {
        stage := c.approval.value.targetStage;
      }
      if TerminalRecord(r) {
        terminal, outcome := true, c.outcome;
      }
      usedNonces := SpendNonces(usedNonces, r);
      if c.evidence.Some? {
        evidence := evidence + [c.evidence.value];
      }
    }
    assert records[..|records|] == records;
    var head := Chain.Genesis;
    if |records| > 0 {
      head := records[|records| - 1].headAnchor;
    }
    var failure := HighestLive(live);
    state := StageState(stage, |records|, head, failure, terminal, outcome, usedNonces, evidence, criteria);
  }

  // The closing scan for the live classification of highest precedence.
  method HighestLive(live: map<string, Outcome>) returns (failure: Outcome)
    ensures failure == Precedence(live)
  {
    var order := [Blocked, Unknown, Failed];
    for i := 0 to 3
      invariant i > 0 ==> forall u :: u in live ==> !live[u].Blocked?
      invariant i > 1 ==> forall u :: u in live ==> !live[u].Unknown?
      invariant i > 2 ==> forall u :: u in live ==> !live[u].Failed?
    {
      if exists u | u in live :: live[u] == order[i] {
        return order[i];
      }
    }
    failure := NoOutcome;
  }

  // The three nonce assignments of the replay loop.
  function SpendNonces(used: set<string>, r: Record): (out: set<string>)
    ensures out == used + set n | n in NoncesIn(r)
  {
    var c := r.payload;
    var a := if c.approval.Some? && c.approval.value.nonce != "" then used + {c.approval.value.nonce} else used;
    var b := if c.waiverOperation.Some? && c.waiverOperation.value.nonce != "" then a + {c.waiverOperation.value.nonce} else a;
    if c.findingOverride.Some? && c.findingOverride.value.nonce != "" then b + {c.findingOverride.value.nonce} else b
  }
}
