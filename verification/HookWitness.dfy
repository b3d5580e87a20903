// One run of the hook from nothing to an eligible launch: the results about
// granted launches speak of something (cmd/hma/attempt.go).
module HookWitness {
  import opened Vocabulary
  import opened Documents
  import opened HostModel
  import opened Leases
  import opened Attempts
  import opened AttemptLaws
  import opened HookRuns
  import CoreModel
  import Chain
  import HostStore
  import Shadowing
  import StageProjection

  const NOW: int := 60 * SECOND

  const ROUTE := Route("worker", "model", "effort", {"write"}, "", "approved")
  const BUDGETS := Budgets(1, 10, 1)
  const UNIT := PlanUnit("unit", [], [], BUDGETS, {"write"}, IdentityOf(ROUTE), IdentityOf(ROUTE), IdentityOf(ROUTE), "")
  const CONTRACT := Contract("run", [], BUDGETS, "usd", {IdentityOf(ROUTE)}, {"write"}, "policy", "")
  const PLAN := Plan("run", DigestOfContract(CONTRACT), "policy", [UNIT])

  const PREFLIGHT := Preflight("unit", true, true, At(2 * NOW), ROUTE)

  const NAMED := AttemptRoute("worker", Some("model"), Some("effort"))
  const REQUEST := HookRequest("controller", 1, "dispatch", "envelope", NAMED, None, "root", "base", "ledger", "unit", "")
  const ENVELOPE := Envelope(1, 1.0, NAMED, 0.0, 0.0, true)
  const DOCS := Docs(Some(PLAN), Some(CONTRACT), "policy")
  const SIGHT := Sight(true, false, NOW)

  function Approve(from: Stage, to: Stage): CoreModel.Content {
    CoreModel.Content(CoreModel.StageTransition, "unit", At(NOW), from, Approved, NoOutcome, [], [], false, [],
      Some(CoreModel.Approval("unit", None, "run", "approved", from, to, NoOutcome, "repository", "base", CoreModel.NoStageTime,
             DigestOfPlan(PLAN), [], [], "nonce", "human", At(NOW), "", "", "", DigestOfContract(CONTRACT))),
      None, None, None, None)
  }

  function Accepted(): CoreModel.Record {
    HostStore.Sealed("run", [], Approve(AcceptanceCriteria, Planning))
  }

  function Issue(): CoreModel.Record {
    HostStore.Sealed("run", [Accepted()], Approve(RouteSelection, ImplementationAuthorization))
  }

  function Core(): seq<CoreModel.Record> {
    [Accepted(), Issue()]
  }

  function Bound(): HostRecord {
    HostStore.Sealed("run", [], HostContent(RepositoryBody("root"), Chain.Tail(Core()), NoStamp))
  }

  function Checked(): HostRecord {
    HostStore.Sealed("run", [Bound()], HostContent(PreflightBody(PREFLIGHT), Chain.Tail(Core()), NoStamp))
  }

  function History(): seq<HostRecord> {
    [Bound(), Checked()]
  }

  // ---- the lease ----

  lemma LatestAreIssue()
    ensures LatestIssuer(Core(), "unit") == 1 && LatestRoute(Core()[..2], "unit") == 1
    ensures LatestAcceptance(Core(), 0) && Core()[0].payload.approval.value.contractDigest == DigestOfContract(CONTRACT)
  {
    var core := Core();
    assert core[..1] == [Accepted()] && core[..2] == core;
    assert IssuesLease(core[1], "unit") && ApprovesRoute(core[1], "unit");
    assert !AcceptsContract(core[1]) && AcceptsContract(core[0]);
  }

  lemma NothingEnded()
    ensures StageProjection.OutcomeOf(Core()).NoOutcome? && StageProjection.CriteriaOf(Core()) == []
  {
    var core := Core();
    assert core[..1] == [Accepted()] && core[..1][..0] == [];
  }

  lemma PlanIsFit()
    ensures PlanFits(PLAN, CONTRACT) && UnitOf(PLAN.units, "unit") == Some(UNIT)
  {
  }

  function LeaseFor(counters: Counters): Request {
    LeaseRequest(Core(), "unit", DOCS, counters, NOW, ROUTE)
  }

  lemma LeaseIsActive()
    ensures IsActive(LeaseFor(Counters(0, 0)))
    ensures Derived(LeaseFor(Counters(0, 0))).lease == LeaseOf(LeaseFor(Counters(0, 0)), Issue(), UNIT)
  {
    var lr := LeaseFor(Counters(0, 0));
    LatestAreIssue();
    NothingEnded();
    PlanIsFit();
    assert Carried(lr, 1);
    assert Untouched(lr, 1) by {
      assert Core()[1].payload.approval.value.activeWaivers == [];
      assert Start(Core(), "unit", 1) == 1;
      assert IdsOf([]) == [];
    }
    assert OnApprovedRoute(lr, 1);
    assert Authorizes(lr, 1);
    ActiveExactly(lr);
    var issuer := ActiveStands(lr);
  }

  // ---- what the hook decides ----

  // The history has all that the request needs and nothing against it.
  predicate Ready(history: seq<HostRecord>) {
    && RepositoryRoot(history) == Some("root") && ScanReplay(history, REQUEST).NoReplay? && !PacketUses(history, "dispatch")
    && LatestPreflight(history, "unit") == Some(PREFLIGHT) && CountersOf(history, "unit") == Counters(0, 0)
    && PolicyEnd(Core(), history, "policy", 2).None?
  }

  lemma ReadyAtFirst()
    ensures Ready(History()) && LatestAdmission(History(), "controller").None?
  {
    var history := History();
    assert history[..1] == [Bound()] && history[..1][..0] == [] && history[1..] == [Checked()] && history[1..][1..] == [];
    assert Checked().payload.body.PreflightBody? && Bound().payload.body.RepositoryBody?;
    ScanFinds(history, REQUEST);
    assert PolicyEnd(Core(), history[..1], "policy", 2).None?;
  }

  lemma ReadyAfterAdmission(history: seq<HostRecord>, r: HostRecord)
    requires Ready(history) && r.payload.body.AdmissionBody?
    ensures Ready(history + [r])
    ensures r.payload.body.admission.controller == "controller" ==> LatestAdmission(history + [r], "controller") == Some(r)
  {
    var more := history + [r];
    RootKept(history, r);
    ScanFinds(history, REQUEST);
    ScanFinds(more, REQUEST);
    assert more[..|history|] == history && more[|history|] == r;
  }

  function LeaseHeld(): Lease {
    LeaseOf(LeaseFor(Counters(0, 0)), Issue(), UNIT)
  }

  lemma ReadyDecides(history: seq<HostRecord>)
    requires Ready(history)
    ensures Decide(Core(), history, REQUEST, ENVELOPE, DOCS, SIGHT)
            == DecideUnderLease(Core(), history, REQUEST, ENVELOPE, DOCS, NOW, LeaseHeld(), PREFLIGHT)
  {
    LeaseIsActive();
    assert RouteFor(history, "unit", NAMED, NAMED, NOW) == Some(PREFLIGHT);
    DecidesUnderLease(Core(), history, REQUEST, ENVELOPE, DOCS, SIGHT, PREFLIGHT, LeaseHeld());
  }

  function Admission(): HostContent {
    HostContent(AdmissionBody(AdmissionFor(REQUEST, "root", LeaseHeld())), Chain.Tail(Core()), At(NOW))
  }

  function Admitting(): HostRecord {
    HostStore.Sealed("run", History(), Admission())
  }

  lemma AdmitsFirst()
    ensures Decide(Core(), History(), REQUEST, ENVELOPE, DOCS, SIGHT) == Admit(Admission().body.admission)
  {
    ReadyAtFirst();
    ReadyDecides(History());
    assert LeaseHeld().budgets == BUDGETS && LeaseHeld().validUntil == NOW + 10 * MINUTE;
    assert EnvelopeFits(ENVELOPE, LeaseHeld(), Counters(0, 0), DOCS, NOW);
  }

  function Reservation(): Reserved {
    Reserved("unit", "controller", 1, "dispatch", REQUEST, Admitting().headAnchor, IdentityOf(ROUTE), "", 0, At(NOW),
             At(NOW + 10 * MINUTE), GenerationOf(LeaseHeld()))
  }

  lemma ChargesNext()
    ensures Decide(Core(), History() + [Admitting()], REQUEST, ENVELOPE, DOCS, SIGHT) == Charge(Reservation(), NOW + 10 * MINUTE, 2 * NOW)
  {
    var history := History() + [Admitting()];
    ReadyAtFirst();
    ReadyAfterAdmission(History(), Admitting());
    ReadyDecides(history);
    assert LeaseHeld().budgets == BUDGETS && LeaseHeld().validUntil == NOW + 10 * MINUTE;
    assert WholeSecond(NOW) == NOW && Ceil(0.0) == 0;
  }

  // ---- the run ----

  function Plans(): map<PlanDigest, Plan> {
    map[DigestOfPlan(PLAN) := PLAN]
  }

  function Admitted(): World {
    World(Core(), History() + [Admitting()], Plans())
  }

  function Charged(): World {
    World(Core(), Admitted().history + [HostStore.Sealed("run", Admitted().history, HostContent(ReservationBody(Reservation()), Chain.Tail(Core()), At(NOW)))], Plans())
  }

  function Grant(): Attempts.Outcome {
    Granted(Result(Charged().history[3].headAnchor, true, false, "dispatch", At(NOW + 10 * MINUTE)))
  }

  lemma AdmissionStep()
    ensures HookStep("run", World(Core(), History(), map[]), Admitted(), REQUEST, ENVELOPE, DOCS, SIGHT, SIGHT, AdmittedOnly)
  {
    AdmitsFirst();
  }

  lemma ChargeStep()
    ensures HookStep("run", Admitted(), Charged(), REQUEST, ENVELOPE, DOCS, SIGHT, SIGHT, Grant())
  {
    ChargesNext();
    assert Plans()[DigestOfPlan(PLAN) := PLAN] == Plans();
  }

  lemma CoreSteps(w0: World, w1: World, w2: World)
    requires w0 == World([], [], map[]) && w1 == World([Accepted()], [], map[]) && w2 == World(Core(), [], map[])
    ensures Step("run", w0, w1) && Step("run", w1, w2)
  {
    assert Chain.Follows("run", [], Accepted()) && [] + [Accepted()] == [Accepted()];
    assert Chain.Follows("run", [Accepted()], Issue()) && [Accepted()] + [Issue()] == Core();
  }

  lemma HostSteps(w2: World, w3: World, w4: World)
    requires w2 == World(Core(), [], map[]) && w3 == World(Core(), [Bound()], map[]) && w4 == World(Core(), History(), map[])
    ensures Step("run", w2, w3) && Step("run", w3, w4)
  {
    assert OthersFile(Core(), Bound().payload) && [] + [Bound()] == [Bound()];
    assert OthersFile(Core(), Checked().payload) && [Bound()] + [Checked()] == History();
  }

  lemma HookSteps(w4: World)
    requires w4 == World(Core(), History(), map[])
    ensures Step("run", w4, Admitted()) && Step("run", Admitted(), Charged())
  {
    AdmissionStep();
    ChargeStep();
  }

  lemma CoreRun() returns (trace: seq<World>)
    ensures Run("run", trace) && |trace| == 3 && trace[2] == World(Core(), [], map[])
  {
    var w0, w1, w2 := World([], [], map[]), World([Accepted()], [], map[]), World(Core(), [], map[]);
    CoreSteps(w0, w1, w2);
    Shadowing.RunGoesOnTwice("run", [w0], 0, w1, w2);
    trace := [w0] + [w1, w2];
  }

  lemma HostRun() returns (trace: seq<World>)
    ensures Run("run", trace) && |trace| == 5 && trace[4] == World(Core(), History(), map[])
  {
    var first := CoreRun();
    var w3, w4 := World(Core(), [Bound()], map[]), World(Core(), History(), map[]);
    HostSteps(first[2], w3, w4);
    Shadowing.RunGoesOnTwice("run", first, 2, w3, w4);
    trace := first + [w3, w4];
  }

  lemma HookRun() returns (trace: seq<World>)
    ensures Run("run", trace) && |trace| == 7 && trace[5] == Admitted() && trace[6] == Charged()
  {
    var first := HostRun();
    HookSteps(first[4]);
    Shadowing.RunGoesOnTwice("run", first, 4, Admitted(), Charged());
    trace := first + [Admitted(), Charged()];
  }

  // There is a run, and its last step grants an eligible launch.
  lemma SomeRunGrants() returns (trace: seq<World>, out: Attempts.Outcome)
    ensures Run("run", trace) && |trace| == 7 && out.Granted? && out.result.eligible && !out.result.replay
    ensures HookStep("run", trace[5], trace[6], REQUEST, ENVELOPE, DOCS, SIGHT, SIGHT, out)
  {
    trace := HookRun();
    out := Grant();
    ChargeStep();
  }

  // And there is one whose last step grants an eligible launch that a packet shadows.
  lemma SomeGrantIsShadowed() returns (trace: seq<World>, out: Attempts.Outcome, k: nat)
    ensures Run("run", trace) && |trace| == 9 && out.Granted? && out.result.eligible
    ensures HookStep("run", trace[7], trace[8], REQUEST, ENVELOPE, DOCS, SIGHT, SIGHT, out)
    ensures PacketUses(trace[8].history, REQUEST.dispatchId)
    ensures k < |trace[8].history| && IsReservation(trace[8].history[k]) && Shadowing.Shadows(trace[8], k, REQUEST, DOCS)
  {
    var packet := Packet("unit", "dispatch", "ledger", At(2 * NOW), Launch("worker", "model", "", "effort", "", "", "", ""));
    var first, granted := SomeRunGrants();
    var u;
    u, k, out := Shadowing.PacketShadowsGrant("run", first, 5, REQUEST, ENVELOPE, DOCS, SIGHT, SIGHT, granted,
                                              HostContent(PacketBody(packet), Chain.Genesis, At(NOW)));
    trace := first + [u, u];
    assert SIGHT.(used := false) == SIGHT;
    assert trace[7] == u && trace[8] == u;
  }
}
