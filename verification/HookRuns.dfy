// Whole runs of the hook and of everything else that grows the two logs, and
// what reconciliation says of the launches the hook granted
// (cmd/hma/attempt.go with internal/host/reconcile.go).
module HookRuns {
  import opened Vocabulary
  import opened Documents
  import opened HostModel
  import opened Leases
  import opened Attempts
  import CoreModel
  import Chain
  import HostStore
  import Reconciling

  datatype World = World(core: seq<CoreModel.Record>, history: seq<HostRecord>, plans: map<PlanDigest, Plan>)

  predicate AnyCore(r: CoreModel.Record) { true }

  predicate AnyHost(r: HostRecord) { true }

  // parseAttemptRequest's demands on the fields used here.
  predicate ValidRequest(req: HookRequest) {
    req.controller != "" && req.index >= 1 && req.dispatchId != "" && req.namespace != "" && req.unit != ""
  }

  ghost predicate HookStep(runId: string, w: World, t: World, req: HookRequest, env: Envelope, docs: Docs, s: Sight,
            after: Sight, out: Attempts.Outcome) {
    && ValidRequest(req) && t.core == w.core
    && Attempted(runId, w.core, w.history, req, env, docs, s, after, out, t.history)
    && Shelved(docs, w.plans, t.plans, t.history != w.history && Charges(Decide(w.core, w.history, req, env, docs, s)))
  }

  // Host records of the other commands: none is an admission, a reservation or
  // a policy revocation, which only the hook writes, and a reconciliation is
  // filed at the head of the core chain it read under the same locks.
  predicate OthersFile(core: seq<CoreModel.Record>, c: HostContent) {
    && !c.body.AdmissionBody? && !c.body.ReservationBody? && !c.body.PolicyRevocationBody?
    && (c.body.ReconciliationBody? ==> core != [] && c.coreHead == Chain.Tail(core))
  }

  // The core chain grows by any record, the host log by any of those.
  ghost predicate OtherStep(runId: string, w: World, t: World) {
    || (exists r :: Chain.Follows(runId, w.core, r) && t == w.(core := w.core + [r]))
    || (exists c: HostContent :: OthersFile(w.core, c) && t == w.(history := w.history + [HostStore.Sealed(runId, w.history, c)]))
  }

  ghost predicate Step(runId: string, w: World, t: World) {
    || OtherStep(runId, w, t)
    || exists req, env, docs, s, after, out :: HookStep(runId, w, t, req, env, docs, s, after, out)
  }

  ghost predicate Run(runId: string, trace: seq<World>) {
    && trace != [] && trace[0] == World([], [], map[])
    && forall i :: 0 <= i < |trace| - 1 ==> Step(runId, trace[i], trace[i + 1])
  }

  // ---- the invariant ----

  predicate IsReservation(r: HostRecord) {
    r.payload.body.ReservationBody?
  }

  // The approval that issued v's generation, and the plan it accepted.
  predicate Issued(core: seq<CoreModel.Record>, v: Reserved, plan: Plan) {
    && 1 <= v.generation.issuerSequence <= |core|
    && var ir := core[v.generation.issuerSequence - 1];
       && IssuesLease(ir, v.unit) && ir.headAnchor == v.generation.issuerAnchor
       && ir.payload.approval.value.acceptedPlan == DigestOfPlan(plan) && ir.payload.approval.value.timestamp.At?
       && UnitOf(plan.units, v.unit).Some?
  }

  // What v says of its generation is what the plan and the approval say.
  predicate Copied(core: seq<CoreModel.Record>, v: Reserved, plan: Plan)
    requires Issued(core, v, plan)
  {
    var unit := UnitOf(plan.units, v.unit).value;
    && v.validFrom.At? && v.routeIdentity == unit.implementer
    && v.validUntil == At(core[v.generation.issuerSequence - 1].payload.approval.value.timestamp.time + unit.budgets.maxWallMinutes * MINUTE)
  }

  // The unit's total, over every generation, is within this generation's budgets.
  predicate WithinBudgets(history: seq<HostRecord>, v: Reserved, plan: Plan)
    requires UnitOf(plan.units, v.unit).Some?
  {
    var b := UnitOf(plan.units, v.unit).value.budgets;
    CountersOf(history, v.unit).attempts <= b.maxAttempts && CountersOf(history, v.unit).costSpent <= b.costCeiling
  }

  predicate HasAdmission(history: seq<HostRecord>, v: Reserved) {
    exists j :: 0 <= j < |history| && AdmissionFits(history[j], v)
  }

  predicate AdmissionFits(r: HostRecord, v: Reserved) {
    && r.headAnchor == v.admission && r.payload.body.AdmissionBody? && r.payload.body.admission.controller == v.controller
    && r.payload.body.admission.namespace == v.request.namespace
  }

  predicate HasPreflight(history: seq<HostRecord>, v: Reserved) {
    exists j :: 0 <= j < |history| && Reconciling.NamesRoute(history[j], v.unit, v.routeIdentity)
  }

  predicate KeyOfRequest(v: Reserved) {
    v.controller == v.request.controller && v.index == v.request.index && v.dispatchId == v.request.dispatchId && v.request.namespace != ""
  }

  ghost predicate Grounded(w: World, k: int)
    requires 0 <= k < |w.history| && IsReservation(w.history[k])
  {
    var v := w.history[k].payload.body.reservation;
    && KeyOfRequest(v) && HasAdmission(w.history, v) && HasPreflight(w.history, v)
    && exists plan :: DigestOfPlan(plan) in w.plans && w.plans[DigestOfPlan(plan)] == plan
         && Issued(w.core, v, plan) && Copied(w.core, v, plan) && WithinBudgets(w.history[..k + 1], v, plan)
  }

  // Two reservations never share a dispatch id or a place in a controller run,
  // nor a unit's failure signature.
  predicate Apart(a: Reserved, b: Reserved) {
    && a.dispatchId != b.dispatchId && !(a.controller == b.controller && a.index == b.index)
    && (a.unit == b.unit && a.failureSignature == b.failureSignature ==> a.failureSignature == "")
  }

  ghost predicate AllApart(history: seq<HostRecord>) {
    forall i, j :: 0 <= i < j < |history| && IsReservation(history[i]) && IsReservation(history[j]) ==>
      Apart(history[i].payload.body.reservation, history[j].payload.body.reservation)
  }

  ghost predicate PlansNamed(plans: map<PlanDigest, Plan>) {
    forall d :: d in plans ==> d == DigestOfPlan(plans[d])
  }

  ghost predicate AllGrounded(w: World) {
    forall k :: 0 <= k < |w.history| && IsReservation(w.history[k]) ==> Grounded(w, k)
  }

  ghost predicate Inv(runId: string, w: World) {
    && Chain.IsChain(runId, AnyCore, w.core) && Chain.IsChain(runId, AnyHost, w.history) && PlansNamed(w.plans)
    && AllApart(w.history) && AllGrounded(w)
  }

  // ---- what a charge knows ----

  lemma {:induction false} LatestPreflightNames(history: seq<HostRecord>, unit: string)
    ensures LatestPreflight(history, unit).Some? ==>
              exists j :: 0 <= j < |history| && Reconciling.NamesRoute(history[j], unit, IdentityOf(LatestPreflight(history, unit).value.route))
  {
    if history != [] && LatestPreflight(history, unit).Some? {
      var n := |history| - 1;
      var b := history[n].payload.body;
      if b.PreflightBody? && b.preflight.unit == unit && b.preflight.implementation {
        assert Reconciling.NamesRoute(history[n], unit, IdentityOf(b.preflight.route));
      } else {
        LatestPreflightNames(history[..n], unit);
        assert forall j :: 0 <= j < n ==> history[..n][j] == history[j];
      }
    }
  }

  // The lease a decision rests on.
  ghost predicate Rests(core: seq<CoreModel.Record>, unit: string, docs: Docs, lr: Request, lease: Lease) {
    && lr.records == core && lr.unit == unit && lr.plan == docs.plan && lr.policyDigest == docs.policyDigest
    && IsActive(lr) && Derived(lr).lease == lease
  }

  lemma ChargeRests(core: seq<CoreModel.Record>, history: seq<HostRecord>, req: HookRequest, env: Envelope,
            docs: Docs, s: Sight)
    returns (lr: Request, lease: Lease, p: Preflight)
    requires Charges(Decide(core, history, req, env, docs, s))
    ensures Rests(core, req.unit, docs, lr, lease) && lr.counters == CountersOf(history, req.unit)
    ensures lr.route == Some(GrantOf(p.route))
    ensures RouteFor(history, req.unit, req.route, env.route, s.now) == Some(p) && p.expiresAt.At?
    ensures Decide(core, history, req, env, docs, s) == DecideUnderLease(core, history, req, env, docs, s.now, lease, p)
    ensures ScanReplay(history, req).NoReplay? && !PacketUses(history, req.dispatchId)
  {
    p := RouteFor(history, req.unit, req.route, env.route, s.now).value;
    lr := LeaseRequest(core, req.unit, docs, CountersOf(history, req.unit), s.now, p.route);
    lease := Derived(lr).lease;
  }

  // What an active lease says that a reservation of its generation copies.
  predicate Copies(lr: Request, lease: Lease, v: Reserved, plan: Plan) {
    && lr.plan == Some(plan) && Issued(lr.records, v, plan)
    && var ir, unit := lr.records[v.generation.issuerSequence - 1], UnitOf(plan.units, v.unit).value;
       && lease.validUntil == ir.payload.approval.value.timestamp.time + unit.budgets.maxWallMinutes * MINUTE
       && lease.budgets == unit.budgets && lease.policyDigest == plan.policyDigest == lr.policyDigest
       && lr.route.Some? && lr.route.value.identity == unit.implementer
       && lr.counters.attempts < unit.budgets.maxAttempts
  }

  lemma LeaseIssued(lr: Request, v: Reserved)
    requires Placed(lr.records) && IsActive(lr) && v.unit == lr.unit && v.generation == GenerationOf(Derived(lr).lease)
    ensures lr.plan.Some? && Copies(lr, Derived(lr).lease, v, lr.plan.value)
  {
    var issuer := ActiveStands(lr);
  }

  lemma ChargeApart(history: seq<HostRecord>, req: HookRequest, v: Reserved, x: HostRecord)
    requires ScanReplay(history, req).NoReplay? && x in history && IsReservation(x)
    requires v.controller == req.controller && v.index == req.index && v.dispatchId == req.dispatchId
    requires v.failureSignature != "" ==> !FailedBefore(history, v.unit, v.failureSignature)
    ensures Apart(x.payload.body.reservation, v)
  {
    ScanFinds(history, req);
    var i :| 0 <= i < |history| && history[i] == x;
  }

  // Everything a new reservation must say about the logs it joins.
  ghost predicate Joins(core: seq<CoreModel.Record>, history: seq<HostRecord>, v: Reserved, plan: Plan, r: HostRecord) {
    && Issued(core, v, plan) && Copied(core, v, plan) && WithinBudgets(history + [r], v, plan)
    && KeyOfRequest(v) && HasAdmission(history, v) && HasPreflight(history, v)
    && (forall x :: x in history && IsReservation(x) ==> Apart(x.payload.body.reservation, v))
  }

  lemma CountersSnoc(history: seq<HostRecord>, r: HostRecord)
    requires IsReservation(r)
    ensures
      var v := r.payload.body.reservation;
      var before, after := CountersOf(history, v.unit), CountersOf(history + [r], v.unit);
      after.attempts == before.attempts + 1 && after.costSpent == before.costSpent + v.cost
  {
    assert (history + [r])[..|history|] == history;
  }

  lemma ChargeJoins(core: seq<CoreModel.Record>, history: seq<HostRecord>, req: HookRequest, env: Envelope,
            docs: Docs, now: int,
                    lr: Request, lease: Lease, p: Preflight, r: HostRecord)
    requires Placed(core) && ValidRequest(req) && p.expiresAt.At? && LatestPreflight(history, req.unit) == Some(p)
    requires Rests(core, req.unit, docs, lr, lease) && lr.counters == CountersOf(history, req.unit)
    requires lr.route == Some(GrantOf(p.route))
    requires DecideUnderLease(core, history, req, env, docs, now, lease, p).Charge?
    requires ScanReplay(history, req).NoReplay?
    requires r.payload.body == ReservationBody(DecideUnderLease(core, history, req, env, docs, now, lease, p).reservation)
    ensures docs.plan.Some? && Joins(core, history, r.payload.body.reservation, docs.plan.value, r)
    ensures r.payload.body.reservation.request == req
  {
    var v := r.payload.body.reservation;
    ChargeReads(core, history, req, env, docs, now, lease, p);
    LeaseIssued(lr, v);
    CopiedFields(core, v, docs.plan.value, lr, lease, p);
    forall x | x in history && IsReservation(x) ensures Apart(x.payload.body.reservation, v) {
      ChargeApart(history, req, v, x);
    }
    RouteIsPreflight(history, v, p);
    ChargeWithinBudgets(history, lr, lease, docs.plan.value, r);
  }

  lemma CopiedFields(core: seq<CoreModel.Record>, v: Reserved, plan: Plan, lr: Request, lease: Lease, p: Preflight)
    requires lr.records == core && Copies(lr, lease, v, plan) && lr.route == Some(GrantOf(p.route))
    requires v.routeIdentity == IdentityOf(p.route) && v.validFrom.At? && v.validUntil == At(lease.validUntil)
    ensures Copied(core, v, plan)
  {
  }

  lemma ChargeWithinBudgets(history: seq<HostRecord>, lr: Request, lease: Lease, plan: Plan, r: HostRecord)
    requires IsReservation(r) && Copies(lr, lease, r.payload.body.reservation, plan)
    requires lr.counters == CountersOf(history, r.payload.body.reservation.unit)
    requires lr.counters.costSpent + r.payload.body.reservation.cost <= lease.budgets.costCeiling
    ensures WithinBudgets(history + [r], r.payload.body.reservation, plan)
  {
    CountersSnoc(history, r);
  }

  lemma ChargeGrounds(core: seq<CoreModel.Record>, history: seq<HostRecord>, req: HookRequest, env: Envelope,
            docs: Docs, s: Sight, r: HostRecord)
    requires Placed(core) && ValidRequest(req)
    requires Decide(core, history, req, env, docs, s).Charge?
    requires r.payload.body == ReservationBody(Decide(core, history, req, env, docs, s).reservation)
    ensures docs.plan.Some? && Joins(core, history, r.payload.body.reservation, docs.plan.value, r)
    ensures r.payload.body.reservation.request == req
  {
    var lr, lease, p := ChargeRests(core, history, req, env, docs, s);
    ChargeJoins(core, history, req, env, docs, s.now, lr, lease, p, r);
  }

  lemma RouteIsPreflight(history: seq<HostRecord>, v: Reserved, p: Preflight)
    requires LatestPreflight(history, v.unit) == Some(p) && v.routeIdentity == IdentityOf(p.route)
    ensures HasPreflight(history, v)
  {
    LatestPreflightNames(history, v.unit);
  }

  // The charge, field by field.
  lemma ChargeReads(core: seq<CoreModel.Record>, history: seq<HostRecord>, req: HookRequest, env: Envelope,
            docs: Docs, now: int, lease: Lease, p: Preflight)
    requires p.expiresAt.At? && DecideUnderLease(core, history, req, env, docs, now, lease, p).Charge?
    ensures
      var d := DecideUnderLease(core, history, req, env, docs, now, lease, p);
      var v := d.reservation;
      && v.unit == req.unit && v.controller == req.controller && v.index == req.index && v.dispatchId == req.dispatchId && v.request == req
      && v.routeIdentity == IdentityOf(p.route) && v.generation == GenerationOf(lease) && v.validFrom.At? && v.validUntil == At(lease.validUntil)
      && d.until == lease.validUntil && HasAdmission(history, v) && v.failureSignature == SignatureOf(req)
      && CountersOf(history, req.unit).costSpent + v.cost <= lease.budgets.costCeiling
      && (v.failureSignature != "" ==> !FailedBefore(history, req.unit, v.failureSignature))
      && PolicyEnd(core, history, lease.policyDigest, lease.issuerSequence).None?
  {
    var adm := LatestAdmission(history, req.controller).value;
    var v := DecideUnderLease(core, history, req, env, docs, now, lease, p).reservation;
    var j :| 0 <= j < |history| && history[j] == adm;
    assert AdmissionFits(history[j], v);
  }

  // ---- every run keeps it ----

  lemma {:induction false} RootKept(history: seq<HostRecord>, r: HostRecord)
    requires RepositoryRoot(history).Some?
    ensures RepositoryRoot(history + [r]) == RepositoryRoot(history)
  {
    if !history[0].payload.body.RepositoryBody? {
      RootKept(history[1..], r);
      assert (history + [r])[1..] == history[1..] + [r];
    }
  }

  // Growth of any of the three leaves every reservation grounded.
  lemma GroundedPersists(w: World, t: World, k: int)
    requires 0 <= k < |w.history| && IsReservation(w.history[k]) && Grounded(w, k)
    requires w.core <= t.core && w.history <= t.history && PlansNamed(w.plans) && PlansNamed(t.plans)
    requires forall d :: d in w.plans ==> d in t.plans
    ensures Grounded(t, k)
  {
    var v := w.history[k].payload.body.reservation;
    var plan :| DigestOfPlan(plan) in w.plans && w.plans[DigestOfPlan(plan)] == plan
         && Issued(w.core, v, plan) && Copied(w.core, v, plan) && WithinBudgets(w.history[..k + 1], v, plan);
    assert t.core[v.generation.issuerSequence - 1] == w.core[v.generation.issuerSequence - 1];
    assert t.history[..k + 1] == w.history[..k + 1];
    assert DigestOfPlan(plan) in t.plans && t.plans[DigestOfPlan(plan)] == plan;
    assert forall j :: 0 <= j < |w.history| ==> t.history[j] == w.history[j];
  }

  // A record that joins keeps every pair of reservations apart.
  lemma FilingKeepsApart(history: seq<HostRecord>, r: HostRecord)
    requires AllApart(history)
    requires IsReservation(r) ==> forall x :: x in history && IsReservation(x) ==> Apart(x.payload.body.reservation, r.payload.body.reservation)
    ensures AllApart(history + [r])
  {
    var all := history + [r];
    forall i, j | 0 <= i < j < |all| && IsReservation(all[i]) && IsReservation(all[j])
      ensures Apart(all[i].payload.body.reservation, all[j].payload.body.reservation)
    {
      if j == |history| {
        assert all[i] in history;
      }
    }
  }

  lemma AllGroundedPersist(w: World, t: World)
    requires AllGrounded(w) && w.core <= t.core && w.history <= t.history && PlansNamed(w.plans) && PlansNamed(t.plans)
    requires forall d :: d in w.plans ==> d in t.plans
    requires forall k :: |w.history| <= k < |t.history| && IsReservation(t.history[k]) ==> Grounded(t, k)
    ensures AllGrounded(t)
  {
    forall k | 0 <= k < |w.history| && IsReservation(w.history[k]) ensures Grounded(t, k) {
      GroundedPersists(w, t, k);
    }
  }

  // r's reservation joins the logs under some kept plan.
  ghost predicate JoinsUnder(t: World, history: seq<HostRecord>, r: HostRecord)
    requires IsReservation(r)
  {
    exists plan :: DigestOfPlan(plan) in t.plans && Joins(t.core, history, r.payload.body.reservation, plan, r)
  }

  // Filing one host record: a reservation only if it joins what is there.
  lemma FilingKeeps(runId: string, w: World, t: World, c: HostContent)
    requires Inv(runId, w) && t.core == w.core && t.history == w.history + [HostStore.Sealed(runId, w.history, c)]
    requires PlansNamed(t.plans) && forall d :: d in w.plans ==> d in t.plans
    requires c.body.ReservationBody? ==> JoinsUnder(t, w.history, HostStore.Sealed(runId, w.history, c))
    ensures Inv(runId, t)
  {
    var r := HostStore.Sealed(runId, w.history, c);
    Chain.ChainSnoc(runId, AnyHost, w.history, r);
    if IsReservation(r) {
      NewestIsGrounded(w, t, r);
    }
    FilingKeepsApart(w.history, r);
    AllGroundedPersist(w, t);
  }

  lemma NewestIsGrounded(w: World, t: World, r: HostRecord)
    requires IsReservation(r) && t.core == w.core && t.history == w.history + [r] && PlansNamed(t.plans)
    requires JoinsUnder(t, w.history, r)
    ensures Grounded(t, |w.history|)
    ensures forall x :: x in w.history && IsReservation(x) ==> Apart(x.payload.body.reservation, r.payload.body.reservation)
  {
    var plan :| DigestOfPlan(plan) in t.plans && Joins(t.core, w.history, r.payload.body.reservation, plan, r);
    assert t.plans[DigestOfPlan(plan)] == plan;
    assert t.history[..|w.history| + 1] == w.history + [r];
    assert forall j :: 0 <= j < |w.history| ==> t.history[j] == w.history[j];
  }

  lemma UnfiledKeeps(runId: string, w: World, t: World)
    requires Inv(runId, w) && t.core == w.core && t.history == w.history
    requires PlansNamed(t.plans) && forall d :: d in w.plans ==> d in t.plans
    ensures Inv(runId, t)
  {
    AllGroundedPersist(w, t);
  }

  lemma OtherKeeps(runId: string, w: World, t: World)
    requires Inv(runId, w) && OtherStep(runId, w, t)
    ensures Inv(runId, t)
  {
    if r :| Chain.Follows(runId, w.core, r) && t == w.(core := w.core + [r]) {
      Chain.ChainSnoc(runId, AnyCore, w.core, r);
      AllGroundedPersist(w, t);
    } else {
      var c: HostContent :| OthersFile(w.core, c) && t == w.(history := w.history + [HostStore.Sealed(runId, w.history, c)]);
      FilingKeeps(runId, w, t, c);
    }
  }

  lemma ShelvedNames(docs: Docs, before: map<PlanDigest, Plan>, after: map<PlanDigest, Plan>, filed: bool)
    requires PlansNamed(before) && Shelved(docs, before, after, filed)
    ensures PlansNamed(after) && forall d :: d in before ==> d in after
  {
  }

  // What the hook filed, if it filed anything.
  lemma HookFiles(runId: string, w: World, t: World, req: HookRequest, env: Envelope, docs: Docs, s: Sight,
            after: Sight, out: Attempts.Outcome)
    returns (c: HostContent)
    requires HookStep(runId, w, t, req, env, docs, s, after, out)
    ensures t.history == w.history || t.history == w.history + [HostStore.Sealed(runId, w.history, c)]
    ensures t.history != w.history && c.body.ReservationBody? ==>
              var d := Decide(w.core, w.history, req, env, docs, s);
              d.Charge? && c.body == ReservationBody(d.reservation)
  {
    var d := Decide(w.core, w.history, req, env, docs, s);
    match d
    case Charge(v, _, _) => c := HostContent(ReservationBody(v), Chain.Tail(w.core), v.validFrom);
    case Admit(a) => c := HostContent(AdmissionBody(a), Chain.Tail(w.core), At(s.now));
    case _ =>
      var change := PolicyChange(w.core, w.history, docs, s.now);
      c := if change.Some? then change.value else HostContent(OtherBody(""), Chain.Genesis, NoStamp);
  }

  lemma HookKeeps(runId: string, w: World, t: World, req: HookRequest, env: Envelope, docs: Docs, s: Sight,
            after: Sight, out: Attempts.Outcome)
    requires Inv(runId, w) && HookStep(runId, w, t, req, env, docs, s, after, out)
    ensures Inv(runId, t)
  {
    ChainIsPlaced(runId, AnyCore, w.core);
    ShelvedNames(docs, w.plans, t.plans, t.history != w.history && Charges(Decide(w.core, w.history, req, env, docs, s)));
    var c := HookFiles(runId, w, t, req, env, docs, s, after, out);
    if t.history == w.history {
      UnfiledKeeps(runId, w, t);
    } else {
      var r := HostStore.Sealed(runId, w.history, c);
      if c.body.ReservationBody? {
        ChargeGrounds(w.core, w.history, req, env, docs, s, r);
        assert DigestOfPlan(docs.plan.value) in t.plans;
      }
      FilingKeeps(runId, w, t, c);
    }
  }

  lemma {:induction false} RunKeeps(runId: string, trace: seq<World>, i: nat)
    requires Run(runId, trace) && i < |trace|
    ensures Inv(runId, trace[i])
  {
    if i > 0 {
      RunKeeps(runId, trace, i - 1);
      var w, t := trace[i - 1], trace[i];
      assert Step(runId, w, t);
      if OtherStep(runId, w, t) {
        OtherKeeps(runId, w, t);
      } else {
        var req, env, docs, s, after, out :| HookStep(runId, w, t, req, env, docs, s, after, out);
        HookKeeps(runId, w, t, req, env, docs, s, after, out);
      }
    }
  }
}
