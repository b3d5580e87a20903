// Writers that read the chain without a lock, decide, and append later, and
// what their interleavings keep (internal/transition/apply.go,
// internal/pilot/run.go, cmd/hma/resolve.go over internal/store/jsonl.go).
module CoreWriters {
  import opened Vocabulary
  import opened CoreModel
  import opened StageMachine
  import StageProjection
  import Transitions
  import Resolution
  import Resolving
  import Chain
  import CoreStore

  // ---- every interleaving ----

  // A writer holds the chain it loaded and the record it built from it.
  datatype Writer = Idle | Prepared(base: seq<Record>, record: Record)

  datatype System = System(log: seq<Record>, writers: map<int, Writer>)

  predicate Accepts(runId: string, log: seq<Record>, r: Record) {
    Chain.Follows(runId, log, r) && ValidCore(r)
  }

  ghost predicate Prepares(runId: string, s: System, t: System, w: int, r: Record) {
    Proposed(runId, s.log, r) && t == s.(writers := s.writers[w := Prepared(s.log, r)])
  }

  // Append, under the lock: it takes the record only as the next of the chain.
  predicate Commits(runId: string, s: System, t: System, w: int) {
    && w in s.writers && s.writers[w].Prepared? && Accepts(runId, s.log, s.writers[w].record)
    && t == System(s.log + [s.writers[w].record], s.writers[w := Idle])
  }

  // The append is refused, or the writer never gets to it.
  predicate GivesUp(s: System, t: System, w: int) {
    t == s.(writers := s.writers[w := Idle])
  }

  ghost predicate Acts(runId: string, s: System, t: System, w: int) {
    Commits(runId, s, t, w) || GivesUp(s, t, w) || exists r :: Prepares(runId, s, t, w, r)
  }

  ghost predicate Next(runId: string, s: System, t: System) {
    exists w :: Acts(runId, s, t, w)
  }

  ghost predicate Run(runId: string, trace: seq<System>) {
    && trace != [] && trace[0] == System([], map[])
    && forall i :: 0 <= i < |trace| - 1 ==> Next(runId, trace[i], trace[i + 1])
  }

  ghost predicate Inv(runId: string, s: System) {
    && Reachable(runId, s.log)
    && forall w :: w in s.writers && s.writers[w].Prepared? ==>
         s.writers[w].base <= s.log && Proposed(runId, s.writers[w].base, s.writers[w].record)
  }

  lemma ProposedIsSealed(runId: string, log: seq<Record>, r: Record)
    requires Proposed(runId, log, r)
    ensures r == Sealed(runId, log, r.payload)
  {
  }

  // An append that is accepted extends exactly the chain its record was built
  // from: the chain only grows, and the record names the position it is for.
  lemma AcceptedOnItsBase(runId: string, base: seq<Record>, log: seq<Record>, r: Record)
    requires Reachable(runId, log) && base <= log && Proposed(runId, base, r) && Accepts(runId, log, r)
    ensures base == log && Step(runId, log, r) && Reachable(runId, log + [r])
  {
    ProposedIsSealed(runId, base, r);
    assert |base| == |log|;
    assert (log + [r])[..|log|] == log;
  }

  lemma NextKeeps(runId: string, s: System, t: System)
    requires Inv(runId, s) && Next(runId, s, t)
    ensures Inv(runId, t) && s.log <= t.log
  {
    var w :| Acts(runId, s, t, w);
    if Commits(runId, s, t, w) {
      AcceptedOnItsBase(runId, s.writers[w].base, s.log, s.writers[w].record);
    }
  }

  lemma {:induction false} RunKeeps(runId: string, trace: seq<System>, i: nat)
    requires Run(runId, trace) && i < |trace|
    ensures Inv(runId, trace[i])
  {
    if i > 0 {
      RunKeeps(runId, trace, i - 1);
      NextKeeps(runId, trace[i - 1], trace[i]);
    }
  }

  lemma StepGrows(runId: string, trace: seq<System>, i: nat)
    requires Run(runId, trace) && i + 1 < |trace|
    ensures trace[i].log <= trace[i + 1].log
  {
    RunKeeps(runId, trace, i);
    NextKeeps(runId, trace[i], trace[i + 1]);
  }

  lemma PrefixTransitive(a: seq<Record>, b: seq<Record>, c: seq<Record>)
    requires a <= b && b <= c
    ensures a <= c
  {
  }

  lemma {:induction false} LogOnlyGrows(runId: string, trace: seq<System>, i: nat, j: nat)
    requires Run(runId, trace) && i <= j < |trace|
    ensures trace[i].log <= trace[j].log
    decreases j
  {
    if i < j {
      LogOnlyGrows(runId, trace, i, j - 1);
      StepGrows(runId, trace, j - 1);
      PrefixTransitive(trace[i].log, trace[j - 1].log, trace[j].log);
    }
  }

  // The record a commit takes was evaluated against the chain it extends.
  predicate CommitsItsOwn(s: System, w: int) {
    w in s.writers && s.writers[w].Prepared? && s.writers[w].base == s.log
  }

  // In every run of any number of writers: the chain only grows and stays
  // reachable, and whatever is committed was evaluated against exactly the
  // chain it extends.
  lemma EveryInterleaving(runId: string, trace: seq<System>, i: nat, j: nat, w: int)
    requires Run(runId, trace) && i <= j < |trace|
    ensures trace[i].log <= trace[j].log && Reachable(runId, trace[j].log)
    ensures j + 1 < |trace| && Commits(runId, trace[j], trace[j + 1], w) ==>
              CommitsItsOwn(trace[j], w) && Step(runId, trace[j].log, trace[j].writers[w].record)
  {
    RunKeeps(runId, trace, j);
    LogOnlyGrows(runId, trace, i, j);
    if j + 1 < |trace| && Commits(runId, trace[j], trace[j + 1], w) {
      AcceptedOnItsBase(runId, trace[j].writers[w].base, trace[j].log, trace[j].writers[w].record);
    }
  }

  // Of two writers that read the same chain, at most one is accepted.
  lemma OneWinner(runId: string, base: seq<Record>, log: seq<Record>, first: Record, second: Record)
    requires Reachable(runId, log) && base <= log
    requires Proposed(runId, base, first) && Proposed(runId, base, second) && Accepts(runId, log, first)
    ensures !Accepts(runId, log + [first], second)
  {
    ProposedIsSealed(runId, base, first);
    ProposedIsSealed(runId, base, second);
  }

  // ---- the commands, over the store ----
  //
  // others is whatever the rest of the system does to the run between this
  // command's load and its append.

  datatype Result = Refused | NotRecorded | Recorded(record: Record)

  ghost predicate Holds(store: CoreStore.Store<Content>, log: seq<Record>)
    reads store
  {
    CoreStore.StandsFor(store.runId, store.valid, store.files, log)
  }

  ghost predicate Readable(store: CoreStore.Store<Content>, last: Record)
    reads store
  {
    CoreStore.Loadable(store.runId, store.valid, store.length, store.files) <==> store.length(last) < CoreStore.LINE_LIMIT
  }

  // What a command that recorded r leaves: r extends the chain it was built
  // from, nothing came between, and the run loads again unless r is too long
  // a line.
  ghost predicate Lands(store: CoreStore.Store<Content>, base: seq<Record>, r: Record)
    reads store
  {
    Step(store.runId, base, r) && Holds(store, base + [r]) && Readable(store, r)
  }

  // Chains whose records the append validates; the rest of ValidateRecord is
  // the store's own.
  ghost predicate Validates(store: CoreStore.Store<Content>) {
    forall r: Record :: store.valid(r) ==> ValidCore(r)
  }

  lemma AppendLands(runId: string, valid: Record -> bool, base: seq<Record>, log: seq<Record>, r: Record)
    requires Chain.IsChain(runId, valid, log) && base <= log
    requires r == Sealed(runId, base, r.payload) && Chain.Follows(runId, log, r)
    ensures base == log
  {
  }

  method Interfere(store: CoreStore.Store<Content>, others: seq<CoreStore.Operation<Content>>,
            ghost log: seq<Record>) returns (ghost later: seq<Record>)
    requires Holds(store, log)
    modifies store
    ensures Holds(store, later) && log <= later
  {
    var loads, acked;
    loads, acked, later := CoreStore.Run(store, others, log);
  }

  method Submit(store: CoreStore.Store<Content>, r0: Record, ghost base: seq<Record>,
            ghost log: seq<Record>) returns (out: Result)
    requires Holds(store, log) && base <= log
    requires r0.(headAnchor := r0.ComputeDigest()) == Sealed(store.runId, base, r0.payload)
    modifies store
    ensures !out.Refused?
    ensures out.Recorded? ==>
              && out.record == Sealed(store.runId, base, r0.payload) && store.valid(out.record)
              && Holds(store, base + [out.record]) && Readable(store, out.record)
  {
    var res, r := store.Append(r0);
    if !res.Appended? {
      return NotRecorded;
    }
    AppendLands(store.runId, store.valid, base, log, r);
    assert (base + [r])[|base|] == r;
    return Recorded(r);
  }

  lemma AppliedIsStep(runId: string, base: seq<Record>, req: Transitions.Request, t: Stamp, r: Record)
    requires req.state == StageProjection.Projected(base) && Transitions.Evaluate(req).Legal?
    requires r == Sealed(runId, base, ApplyContent(req, t)) && ValidCore(r)
    ensures ApplyStep(runId, base, r) && Step(runId, base, r)
  {
  }

  lemma PilotedIsStep(runId: string, base: seq<Record>, a: Approval, expected: Approval, now: int, maxAge: int,
            worktree: string, t: Stamp, r: Record)
    requires PilotAdmits(base, a, expected, now, maxAge, worktree)
    requires r == Sealed(runId, base, PilotContent(a, t)) && ValidCore(r)
    ensures PilotStep(runId, base, r) && Step(runId, base, r)
  {
  }

  // Apply. The repository, contract and input checks that come before and
  // after the evaluation are one verdict.
  method Apply(store: CoreStore.Store<Content>, classification: Option<Classification>, expected: Approval,
            presented: Approval,
               now: int, maxAge: int, worktree: string, repositoryHolds: bool, timestamp: Stamp,
               others: seq<CoreStore.Operation<Content>>) returns (out: Result, ghost base: seq<Record>)
    requires Validates(store)
    modifies store
    ensures out.Recorded? ==> ApplyStep(store.runId, base, out.record) && Lands(store, base, out.record)
  {
    base := [];
    var loaded := store.LoadLocked();
    if !loaded.Loaded? || !repositoryHolds {
      return Refused, base;
    }
    base := loaded.log;
    var state := StageProjection.ProjectStageState(loaded.log);
    var req := Transitions.Request(classification, state, expected, presented, now, maxAge, worktree);
    var verdict := Transitions.EvaluateStageTransition(req);
    if verdict.Rejected? {
      return Refused, base;
    }
    ghost var later := Interfere(store, others, base);
    var content := ApplyContent(req, timestamp);
    var r0 := Chain.Record(store.runId, state.sequence + 1, state.predecessorHead, Chain.Genesis, content);
    out := Submit(store, r0, base, later);
    if out.Recorded? {
      AppliedIsStep(store.runId, base, req, timestamp, out.record);
    }
  }

  method Resolve(store: CoreStore.Store<Content>, operation: Option<WaiverOperation>, override: Option<FindingOverride>,
                 expectedHead: Anchor, live: Resolving.Live, timestamp: Stamp,
                 others: seq<CoreStore.Operation<Content>>) returns (out: Result, ghost base: seq<Record>)
    requires Validates(store)
    modifies store
    ensures out.Recorded? ==> Resolving.ResolveStep(store.runId, base, out.record) && Lands(store, base, out.record)
    ensures out.Recorded? && operation.Some? ==>
              Resolving.Applicable(operation.value, StageProjection.CriteriaOf(base), Resolution.FindingsOf(base), Resolution.WaiversOf(base))
    ensures out.Recorded? && override.Some? ==> Resolving.Overridable(override.value.findingId, Resolution.FindingsOf(base))
  {
    base := [];
    var loaded := store.LoadLocked();
    if !loaded.Loaded? {
      return Refused, base;
    }
    base := loaded.log;
    var slices := Resolution.Decode(loaded.log);
    var state := Resolution.ProjectResolutionState(loaded.log, slices);
    var head := Chain.Tail(loaded.log);
    var req := Resolving.Request(operation, override, state, expectedHead, head, live);
    if Resolving.EvaluateResolution(req).Rejected? {
      return Refused, base;
    }
    Resolving.LegalExactly(req);
    ghost var later := Interfere(store, others, base);
    var filed := Resolving.Filed(store.runId, loaded.log, timestamp, req);
    assert Resolving.Admitted(base, req);
    out := Submit(store, filed.(headAnchor := Chain.Genesis), base, later);
  }

  // The pilot: it files the approval, then evidence straight after it.
  method Pilot(store: CoreStore.Store<Content>, expected: Approval, presented: Approval, now: int, maxAge: int,
            worktree: string,
               repositoryHolds: bool, evidence: Evidence, timestamp: Stamp, captured: Stamp,
               others: seq<CoreStore.Operation<Content>>, between: seq<CoreStore.Operation<Content>>)
    returns (approval: Result, filed: Result, ghost base: seq<Record>)
    requires Validates(store)
    modifies store
    ensures filed.Recorded? ==>
              && approval.Recorded? && PilotStep(store.runId, base, approval.record)
              && Step(store.runId, base, approval.record) && Lands(store, base + [approval.record], filed.record)
  {
    base := [];
    approval, filed := Refused, Refused;
    var loaded := store.LoadLocked();
    if !loaded.Loaded? || !repositoryHolds {
      return;
    }
    base := loaded.log;
    var state := StageProjection.ProjectStageState(loaded.log);
    var verdict := Transitions.EvaluateApprovalBinding(presented, expected, state.predecessorHead, state.sequence + 1,
                                                       state.usedNonces, now, maxAge, worktree);
    if verdict.Rejected? {
      return;
    }
    ghost var later := Interfere(store, others, base);
    assert PilotAdmits(base, presented, expected, now, maxAge, worktree);
    var r0 := Chain.Record(store.runId, state.sequence + 1, state.predecessorHead, Chain.Genesis, PilotContent(presented, timestamp));
    approval := Submit(store, r0, base, later);
    if !approval.Recorded? {
      return;
    }
    PilotedIsStep(store.runId, base, presented, expected, now, maxAge, worktree, timestamp, approval.record);
    ghost var landed := base + [approval.record];
    later := Interfere(store, between, landed);
    var content := Content(EvidenceRecord, "", captured, presented.currentStage, ReadyForReview, NoOutcome, [], [], false, [],
                           None, None, Some(evidence), None, None);
    var e0 := Chain.Record(store.runId, state.sequence + 2, approval.record.headAnchor, Chain.Genesis, content);
    filed := Submit(store, e0, landed, later);
  }
}
