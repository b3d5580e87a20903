// The authority hook (cmd/hma/attempt.go): under both run locks it replays a
// reservation, admits a controller run, or charges one attempt.
module Attempts {
  import opened Vocabulary
  import opened Documents
  import opened HostModel
  import opened Leases
  import CoreModel
  import Chain
  import HostStore

  // What of the controller's envelope admission reads.
  datatype Envelope = Envelope(
    maxAttempts: int, maxMinutes: real, route: AttemptRoute, spendCap: real, perAttempt: real, escalateStop: bool)

  // The documents the hook was given, as they parse.
  datatype Docs = Docs(plan: Option<Plan>, contract: Option<Contract>, policyDigest: string)

  // What the step reads besides the logs: whether the controller waits for
  // this attempt, whether its ledger has the dispatch id, and the clock.
  datatype Sight = Sight(pending: bool, used: bool, now: int)

  datatype Refusal =
    | CoreRunMissing | RepositoryBindingMissing | RepositoryMismatch | ReservationConflict | AttemptInvalid | AttemptRouteMismatch
    | LeaseInactive(reason: Leases.Reason) | AdmissionRefused | RepeatedFailure | NotCommitted | PlanNotKept

  datatype Result = Result(reservation: HostAnchor, eligible: bool, replay: bool, dispatchId: string, validUntil: Stamp)

  datatype Outcome = Refused(why: Refusal) | AdmittedOnly | Granted(result: Result)

  const SECOND: int := 1_000_000_000

  // ---- what it reads from the history ----

  function RepositoryRoot(history: seq<HostRecord>): Option<string> {
    if history == [] then None
    else if history[0].payload.body.RepositoryBody? then Some(history[0].payload.body.root)
    else RepositoryRoot(history[1..])
  }

  datatype Scan = NoReplay | Conflict | Replayed(record: HostRecord)

  predicate SameKey(v: Reserved, req: HookRequest) {
    v.controller == req.controller && v.index == req.index && v.dispatchId == req.dispatchId
  }

  // The same dispatch id, or the same place in the controller run.
  predicate Collides(v: Reserved, req: HookRequest) {
    v.dispatchId == req.dispatchId || (v.controller == req.controller && v.index == req.index)
  }

  function ScanReplay(history: seq<HostRecord>, req: HookRequest): Scan {
    if history == [] then NoReplay
    else if !history[0].payload.body.ReservationBody? then ScanReplay(history[1..], req)
    else
      var v := history[0].payload.body.reservation;
      if SameKey(v, req) then (if v.request != req then Conflict else Replayed(history[0]))
      else if Collides(v, req) then Conflict
      else ScanReplay(history[1..], req)
  }

  predicate PacketUses(history: seq<HostRecord>, id: string) {
    exists i :: 0 <= i < |history| && history[i].payload.body.PacketBody? && history[i].payload.body.dispatch.dispatchId == id
  }

  function LatestPreflight(history: seq<HostRecord>, unit: string): Option<Preflight> {
    if history == [] then None
    else
      var b := history[|history| - 1].payload.body;
      if b.PreflightBody? && b.preflight.unit == unit && b.preflight.implementation then Some(b.preflight)
      else LatestPreflight(history[..|history| - 1], unit)
  }

  predicate NamesWorker(r: AttemptRoute, route: Route) {
    r.worker == route.worker && r.model == Some(route.model) && r.effort == Some(route.effort)
  }

  // The unit's latest implementation preflight, if it is available, unexpired
  // and the route both the request and the envelope name.
  function RouteFor(history: seq<HostRecord>, unit: string, requested: AttemptRoute, enveloped: AttemptRoute,
            now: int): Option<Preflight> {
    var p := LatestPreflight(history, unit);
    if p.None? || !p.value.available || !p.value.expiresAt.At? || now >= p.value.expiresAt.time then None
    else if !NamesWorker(requested, p.value.route) || !NamesWorker(enveloped, p.value.route) then None
    else p
  }

  function CountersOf(history: seq<HostRecord>, unit: string): Counters {
    if history == [] then Counters(0, 0)
    else
      var c := CountersOf(history[..|history| - 1], unit);
      var b := history[|history| - 1].payload.body;
      if b.ReservationBody? && b.reservation.unit == unit then Counters(c.attempts + 1, c.costSpent + b.reservation.cost) else c
  }

  function LatestAdmission(history: seq<HostRecord>, controller: string): (adm: Option<HostRecord>)
    ensures adm.Some? ==> adm.value in history && adm.value.payload.body.AdmissionBody?
    ensures adm.Some? ==> adm.value.payload.body.admission.controller == controller
  {
    if history == [] then None
    else
      var r := history[|history| - 1];
      if r.payload.body.AdmissionBody? && r.payload.body.admission.controller == controller then Some(r)
      else LatestAdmission(history[..|history| - 1], controller)
  }

  predicate FailedBefore(history: seq<HostRecord>, unit: string, signature: string) {
    exists i :: 0 <= i < |history| && history[i].payload.body.ReservationBody? && history[i].payload.body.reservation.unit == unit
                && history[i].payload.body.reservation.failureSignature == signature
  }

  method FindScan(history: seq<HostRecord>, req: HookRequest) returns (s: Scan)
    ensures s == ScanReplay(history, req)
  {
    for i := 0 to |history|
      invariant ScanReplay(history, req) == ScanReplay(history[i..], req)
    {
      assert history[i..][1..] == history[i + 1..];
      if !history[i].payload.body.ReservationBody? {
        continue;
      }
      var v := history[i].payload.body.reservation;
      var sameKey := v.controller == req.controller && v.index == req.index && v.dispatchId == req.dispatchId;
      if sameKey && v.request != req {
        return Conflict;
      }
      if sameKey {
        return Replayed(history[i]);
      }
      if v.dispatchId == req.dispatchId || (v.controller == req.controller && v.index == req.index) {
        return Conflict;
      }
    }
    return NoReplay;
  }

  method FindRoot(history: seq<HostRecord>) returns (root: Option<string>)
    ensures root == RepositoryRoot(history)
  {
    for i := 0 to |history|
      invariant RepositoryRoot(history) == RepositoryRoot(history[i..])
    {
      assert history[i..][1..] == history[i + 1..];
      if history[i].payload.body.RepositoryBody? {
        return Some(history[i].payload.body.root);
      }
    }
    return None;
  }

  method AttemptRouteGrant(history: seq<HostRecord>, unit: string, requested: AttemptRoute, enveloped: AttemptRoute,
            now: int)
    returns (p: Option<Preflight>)
    ensures p == RouteFor(history, unit, requested, enveloped, now)
  {
    p := None;
    for i := 0 to |history|
      invariant p == LatestPreflight(history[..i], unit)
    {
      assert history[..i + 1][..i] == history[..i];
      var b := history[i].payload.body;
      if b.PreflightBody? && b.preflight.unit == unit && b.preflight.implementation {
        p := Some(b.preflight);
      }
    }
    assert history[..|history|] == history;
    if p.None? || !p.value.available {
      return None;
    }
    if !p.value.expiresAt.At? || now >= p.value.expiresAt.time {
      return None;
    }
    if !NamesWorker(requested, p.value.route) || !NamesWorker(enveloped, p.value.route) {
      return None;
    }
  }

  method UnitCounters(history: seq<HostRecord>, unit: string) returns (c: Counters)
    ensures c == CountersOf(history, unit)
  {
    c := Counters(0, 0);
    for i := 0 to |history|
      invariant c == CountersOf(history[..i], unit)
    {
      assert history[..i + 1][..i] == history[..i];
      var b := history[i].payload.body;
      if b.ReservationBody? && b.reservation.unit == unit {
        c := Counters(c.attempts + 1, c.costSpent + b.reservation.cost);
      }
    }
    assert history[..|history|] == history;
  }

  method FindAdmission(history: seq<HostRecord>, controller: string) returns (adm: Option<HostRecord>)
    ensures adm == LatestAdmission(history, controller)
  {
    adm := None;
    for i := 0 to |history|
      invariant adm == LatestAdmission(history[..i], controller)
    {
      assert history[..i + 1][..i] == history[..i];
      var r := history[i];
      if r.payload.body.AdmissionBody? && r.payload.body.admission.controller == controller {
        adm := Some(r);
      }
    }
    assert history[..|history|] == history;
  }

  // ---- what it decides ----

  datatype Decision =
    | Refuse(why: Refusal)
    | Replay(record: HostRecord)
    | PolicyRefusal
    | Admit(admission: Admitted)
    | Charge(reservation: Reserved, until: int, preflightUntil: int)

  function LeaseRequest(core: seq<CoreModel.Record>, unit: string, docs: Docs, counters: Counters, now: int,
            route: Route): Request {
    Request(core, unit, docs.plan, docs.contract, docs.policyDigest, counters, now, Some(GrantOf(route)))
  }

  function GenerationOf(lease: Lease): Generation {
    Generation(lease.issuerSequence, lease.issuerAnchor, lease.digest)
  }

  function Ceil(x: real): int {
    -((-x).Floor)
  }

  // Ledger receipts record whole seconds: the next one.
  function WholeSecond(now: int): (from: int)
    ensures now <= from < now + SECOND && from % SECOND == 0
  {
    if now % SECOND == 0 then now else (now / SECOND + 1) * SECOND
  }

  // Why an admission is refused outright.
  predicate EnvelopeFits(env: Envelope, lease: Lease, counters: Counters, docs: Docs, now: int) {
    && env.escalateStop && 1 <= env.maxAttempts <= lease.budgets.maxAttempts - counters.attempts
    && 0.0 < env.maxMinutes && env.maxMinutes * (MINUTE as real) <= (lease.validUntil - now) as real
    && docs.contract.Some? && docs.contract.value.costUnit == "usd"
    && 0.0 <= env.spendCap <= (lease.budgets.costCeiling - counters.costSpent) as real
  }

  function AdmissionFor(req: HookRequest, root: string, lease: Lease): Admitted {
    Admitted(req.unit, req.controller, req.envelope, root, req.cloneBaseline, req.namespace, GenerationOf(lease))
  }

  predicate SameAssociation(a: Admitted, req: HookRequest, lease: Lease) {
    && a.unit == req.unit && a.envelope == req.envelope && a.liveRoot == req.liveRoot && a.cloneBaseline == req.cloneBaseline
    && a.namespace == req.namespace && a.generation == GenerationOf(lease)
  }

  function SignatureOf(req: HookRequest): string {
    if req.failureSignature.Some? then req.failureSignature.value else ""
  }

  function ChargeFor(history: seq<HostRecord>, req: HookRequest, env: Envelope, adm: HostRecord, lease: Lease,
            counters: Counters,
                     now: int, p: Preflight): Decision
    requires p.expiresAt.At?
  {
    var from := WholeSecond(now);
    if SignatureOf(req) != "" && FailedBefore(history, req.unit, SignatureOf(req)) then Refuse(RepeatedFailure)
    else if Ceil(env.perAttempt) < 0 || counters.costSpent + Ceil(env.perAttempt) > lease.budgets.costCeiling then Refuse(LeaseInactive(Ceiling))
    else if from >= lease.validUntil || from >= p.expiresAt.time then Refuse(LeaseInactive(WallTime))
    else Charge(Reserved(req.unit, req.controller, req.index, req.dispatchId, req, adm.headAnchor, IdentityOf(p.route), SignatureOf(req),
                         Ceil(env.perAttempt), At(from), At(lease.validUntil), GenerationOf(lease)),
                lease.validUntil, p.expiresAt.time)
  }

  // Once a lease is active: its policy, then admission, then the charge.
  function DecideUnderLease(core: seq<CoreModel.Record>, history: seq<HostRecord>, req: HookRequest, env: Envelope,
            docs: Docs,
                            now: int, lease: Lease, p: Preflight): (d: Decision)
    requires p.expiresAt.At?
    ensures !d.Replay?
  {
    var counters := CountersOf(history, req.unit);
    var adm := LatestAdmission(history, req.controller);
    if PolicyEnd(core, history, lease.policyDigest, lease.issuerSequence).Some? then Refuse(LeaseInactive(PolicyChanged))
    else if adm.None? then
      if EnvelopeFits(env, lease, counters, docs, now) then Admit(AdmissionFor(req, req.liveRoot, lease)) else Refuse(AdmissionRefused)
    else if !SameAssociation(adm.value.payload.body.admission, req, lease) then Refuse(AdmissionRefused)
    else ChargeFor(history, req, env, adm.value, lease, counters, now, p)
  }

  // What refuses the step before it asks for a lease.
  function EarlyRefusal(core: seq<CoreModel.Record>, history: seq<HostRecord>, req: HookRequest, s: Sight): Option<Refusal> {
    if core == [] then Some(CoreRunMissing)
    else if RepositoryRoot(history).None? then Some(RepositoryBindingMissing)
    else if req.liveRoot != RepositoryRoot(history).value then Some(RepositoryMismatch)
    else if ScanReplay(history, req).Conflict? then Some(ReservationConflict)
    else if ScanReplay(history, req).Replayed? then None
    else if PacketUses(history, req.dispatchId) then Some(ReservationConflict)
    else if !s.pending then Some(AttemptInvalid)
    else if s.used then Some(ReservationConflict)
    else None
  }

  ghost function Decide(core: seq<CoreModel.Record>, history: seq<HostRecord>, req: HookRequest, env: Envelope,
            docs: Docs, s: Sight): Decision {
    var early := EarlyRefusal(core, history, req, s);
    if early.Some? then Refuse(early.value)
    else if ScanReplay(history, req).Replayed? then Replay(ScanReplay(history, req).record)
    else DecideNew(core, history, req, env, docs, s.now)
  }

  ghost function DecideNew(core: seq<CoreModel.Record>, history: seq<HostRecord>, req: HookRequest, env: Envelope,
            docs: Docs, now: int): (d: Decision)
    ensures !d.Replay?
  {
    var p := RouteFor(history, req.unit, req.route, env.route, now);
    if p.None? then Refuse(AttemptRouteMismatch)
    else
      DecideOn(core, history, req, env, docs, now, p.value,
               Derived(LeaseRequest(core, req.unit, docs, CountersOf(history, req.unit), now, p.value.route)))
  }

  // What follows from the lease that was derived.
  function DecideOn(core: seq<CoreModel.Record>, history: seq<HostRecord>, req: HookRequest, env: Envelope,
            docs: Docs, now: int,
                    p: Preflight, derived: Derivation): (d: Decision)
    requires p.expiresAt.At?
    ensures !d.Replay?
  {
    match derived
    case NoLease(reason) => Refuse(LeaseInactive(reason))
    case Inactive(lease, reason) => if reason.PolicyChanged? then PolicyRefusal else Refuse(LeaseInactive(reason))
    case Active(lease) => DecideUnderLease(core, history, req, env, docs, now, lease, p)
  }

  // recordPolicyChange: the observation to record, if one is needed.
  function PolicyChange(core: seq<CoreModel.Record>, history: seq<HostRecord>, docs: Docs,
            now: int): Option<HostContent> {
    if docs.plan.None? || docs.plan.value.policyDigest == docs.policyDigest then None
    else if !RevocationNeeded(core, history, docs.plan.value.policyDigest) then None
    else Some(HostContent(PolicyRevocationBody(docs.plan.value.policyDigest, docs.policyDigest), Chain.Tail(core), At(now)))
  }

  // replayResult: whether the reservation may still launch. Capacity is not
  // asked again: the slot is charged.
  ghost predicate StillEligible(core: seq<CoreModel.Record>, history: seq<HostRecord>, v: Reserved,
            req: HookRequest, docs: Docs, s: Sight) {
    var p := RouteFor(history, v.unit, req.route, req.route, s.now);
    && p.Some?
    && (var d := Derived(LeaseRequest(core, v.unit, docs, Counters(0, 0), s.now, p.value.route));
        && d.Active? && v.validUntil.At? && s.now < v.validUntil.time && d.lease.issuerAnchor == v.generation.issuerAnchor
        && PolicyEnd(core, history, d.lease.policyDigest, v.generation.issuerSequence).None?)
    && !s.used
  }

  ghost function ReplayOf(core: seq<CoreModel.Record>, history: seq<HostRecord>, r: HostRecord, req: HookRequest,
            docs: Docs, s: Sight): Result
    requires r.payload.body.ReservationBody?
  {
    var v := r.payload.body.reservation;
    Result(r.headAnchor, StillEligible(core, history, v, req, docs, s), true, v.dispatchId, v.validUntil)
  }

  lemma {:induction false} ScanFinds(history: seq<HostRecord>, req: HookRequest)
    ensures ScanReplay(history, req).Replayed? ==>
              var r := ScanReplay(history, req).record;
              r in history && r.payload.body.ReservationBody? && SameKey(r.payload.body.reservation, req) && r.payload.body.reservation.request == req
    ensures ScanReplay(history, req).NoReplay? <==>
              forall r :: r in history && r.payload.body.ReservationBody? ==> !Collides(r.payload.body.reservation, req)
  {
    if history != [] {
      ScanFinds(history[1..], req);
      assert history == [history[0]] + history[1..];
    }
  }

  // ---- the step ----

  // The plans kept for reconciliation, by digest.
  class PlanShelf {
    var plans: map<PlanDigest, Plan>

    constructor ()
      ensures plans == map[]
    {
      plans := map[];
    }

    // retainPlan: it may fail, with the plan kept or not.
    method Retain(plan: Plan) returns (ok: bool)
      modifies this
      ensures plans == old(plans)[DigestOfPlan(plan) := plan] || (!ok && plans == old(plans))
    {
      var effect: bool := *;
      ok := *;
      if ok || effect {
        plans := plans[DigestOfPlan(plan) := plan];
      }
    }
  }

  // What a commit leaves: the record is filed, or the commit failed and it may
  // have been.
  ghost predicate Files(runId: string, history: seq<HostRecord>, content: HostContent, ok: bool, log: seq<HostRecord>) {
    log == history + [HostStore.Sealed(runId, history, content)] || (!ok && log == history)
  }

  ghost predicate TakesChange(runId: string, history: seq<HostRecord>, change: Option<HostContent>, ok: bool,
            log: seq<HostRecord>) {
    if change.None? then ok && log == history else Files(runId, history, change.value, ok, log)
  }

  // The relation between what a step saw, what it answered and the history it left.
  ghost predicate Attempted(runId: string, core: seq<CoreModel.Record>, history: seq<HostRecord>, req: HookRequest,
            env: Envelope, docs: Docs,
                            s: Sight, after: Sight, out: Outcome, log: seq<HostRecord>)
  {
    Yields(runId, core, history, req, docs, s, after, Decide(core, history, req, env, docs, s), out, log)
  }

  // What each decision may answer and leave.
  ghost predicate Yields(runId: string, core: seq<CoreModel.Record>, history: seq<HostRecord>, req: HookRequest,
            docs: Docs,
                         s: Sight, after: Sight, d: Decision, out: Outcome, log: seq<HostRecord>)
  {
    match d
    case Refuse(why) => (out == Refused(why) || (AfterShelving(why) && out == Refused(PlanNotKept))) && log == history
    case Replay(r) =>
      && r.payload.body.ReservationBody?
      && TakesChange(runId, history, PolicyChange(core, history, docs, s.now), out.Granted?, log)
      && (out == Granted(ReplayOf(core, history, r, req, docs, s)) || out == Refused(NotCommitted))
    case PolicyRefusal =>
      && (out == Refused(LeaseInactive(PolicyChanged)) || out == Refused(NotCommitted))
      && TakesChange(runId, history, PolicyChange(core, history, docs, s.now), out != Refused(NotCommitted), log)
    case Admit(a) =>
      && (out.AdmittedOnly? || NotFiled(out))
      && Files(runId, history, HostContent(AdmissionBody(a), Chain.Tail(core), At(s.now)), out.AdmittedOnly?, log)
    case Charge(v, until, preflightUntil) =>
      var filed := HostContent(ReservationBody(v), Chain.Tail(core), v.validFrom);
      var eligible := after.now < until && after.now < preflightUntil && !after.used;
      && Files(runId, history, filed, out.Granted?, log)
      && (NotFiled(out)
          || out == Granted(Result(HostStore.Sealed(runId, history, filed).headAnchor, eligible, false, v.dispatchId, At(until))))
  }

  // Refusals that are reached only once the plan has been kept.
  predicate AfterShelving(why: Refusal) {
    why.AdmissionRefused? || why.RepeatedFailure? || (why.LeaseInactive? && (why.reason.Ceiling? || why.reason.WallTime?))
  }

  predicate NotFiled(out: Outcome) {
    out == Refused(NotCommitted) || out == Refused(PlanNotKept)
  }

  // commit, as the transaction offers it.
  method CommitTo(tx: HostStore.Transaction<HostContent>, content: HostContent) returns (ok: bool,
            anchor: HostAnchor, ghost log: seq<HostRecord>)
    requires Ready(tx)
    modifies tx, tx.store
    ensures Files(tx.store.runId, tx.existing, content, ok, log) && Stands(tx, log)
    ensures anchor == HostStore.Sealed(tx.store.runId, tx.existing, content).headAnchor
    ensures ok ==> log != tx.existing
  {
    var res, r := tx.Commit(Chain.Record(tx.store.runId, 0, Chain.Genesis, Chain.Genesis, content));
    anchor, ok := r.headAnchor, res.Committed?;
    log := if res.Committed? || (res.Failed? && !HostStore.LoadsAs(tx.store.runId, tx.store.valid, tx.store.files, tx.existing))
           then tx.existing + [r] else tx.existing;
  }

  // A transaction that has committed nothing.
  ghost predicate Ready(tx: HostStore.Transaction<HostContent>)
    reads tx, tx.store
  {
    && !tx.committed && Chain.IsChain(tx.store.runId, tx.store.valid, tx.existing)
    && HostStore.Settled(tx.store.files, tx.existing)
  }

  ghost predicate Stands(tx: HostStore.Transaction<HostContent>, log: seq<HostRecord>)
    reads tx.store
  {
    HostStore.LoadsAs(tx.store.runId, tx.store.valid, tx.store.files, log)
  }

  method RecordPolicyChange(tx: HostStore.Transaction<HostContent>, core: seq<CoreModel.Record>, docs: Docs, now: int)
    returns (ok: bool, ghost log: seq<HostRecord>)
    requires Ready(tx)
    modifies tx, tx.store
    ensures TakesChange(tx.store.runId, tx.existing, PolicyChange(core, tx.existing, docs, now), ok, log)
    ensures Stands(tx, log)
  {
    if docs.plan.None? || docs.plan.value.policyDigest == docs.policyDigest {
      return true, tx.existing;
    }
    var needed := PolicyRevocationNeeded(core, tx.existing, docs.plan.value.policyDigest);
    if !needed {
      return true, tx.existing;
    }
    var anchor;
    ok, anchor, log := CommitTo(tx, HostContent(PolicyRevocationBody(docs.plan.value.policyDigest, docs.policyDigest), Chain.Tail(core), At(now)));
  }

  method ReplayResult(core: seq<CoreModel.Record>, history: seq<HostRecord>, r: HostRecord, req: HookRequest,
            docs: Docs, s: Sight)
    returns (res: Result)
    requires Placed(core) && r.payload.body.ReservationBody?
    ensures res == ReplayOf(core, history, r, req, docs, s)
  {
    var v := r.payload.body.reservation;
    res := Result(r.headAnchor, false, true, v.dispatchId, v.validUntil);
    var p := AttemptRouteGrant(history, v.unit, req.route, req.route, s.now);
    if p.None? {
      return;
    }
    var d := DeriveLease(LeaseRequest(core, v.unit, docs, Counters(0, 0), s.now, p.value.route));
    if !d.Active? || !v.validUntil.At? || s.now >= v.validUntil.time || d.lease.issuerAnchor != v.generation.issuerAnchor {
      return;
    }
    var revoked := PolicyRevokedAt(core, history, d.lease.policyDigest, v.generation.issuerSequence);
    if revoked.Some? || s.used {
      return;
    }
    res := res.(eligible := true);
  }

  lemma EarlyYields(runId: string, core: seq<CoreModel.Record>, history: seq<HostRecord>, req: HookRequest,
            env: Envelope, docs: Docs, s: Sight, after: Sight)
    ensures
      var early := EarlyRefusal(core, history, req, s);
      early.Some? ==>
        && Attempted(runId, core, history, req, env, docs, s, after, Refused(early.value), history)
        && !Charges(Decide(core, history, req, env, docs, s))
  {
  }

  method AttemptOnce(tx: HostStore.Transaction<HostContent>, shelf: PlanShelf, core: seq<CoreModel.Record>,
                     req: HookRequest, env: Envelope, docs: Docs, s: Sight, after: Sight) returns (out: Outcome, ghost log: seq<HostRecord>)
    requires Ready(tx) && Placed(core)
    modifies tx, tx.store, shelf
    ensures Attempted(tx.store.runId, core, tx.existing, req, env, docs, s, after, out, log) && Stands(tx, log)
    ensures Shelved(docs, old(shelf.plans), shelf.plans, log != tx.existing && Charges(Decide(core, tx.existing, req, env, docs, s)))
  {
    log := tx.existing;
    var early, scan := CheckEarly(core, tx.existing, req, s);
    EarlyYields(tx.store.runId, core, tx.existing, req, env, docs, s, after);
    if early.Some? {
      return Refused(early.value), log;
    }
    out, log := AttemptFound(tx, shelf, core, req, env, docs, s, after, scan);
  }

  lemma FoundDecides(core: seq<CoreModel.Record>, history: seq<HostRecord>, req: HookRequest, env: Envelope,
            docs: Docs, s: Sight)
    requires EarlyRefusal(core, history, req, s).None?
    ensures Decide(core, history, req, env, docs, s)
            == if ScanReplay(history, req).Replayed? then Replay(ScanReplay(history, req).record)
               else DecideNew(core, history, req, env, docs, s.now)
  {
  }

  // What is left: a replay, or a new attempt.
  method AttemptFound(tx: HostStore.Transaction<HostContent>, shelf: PlanShelf, core: seq<CoreModel.Record>,
                      req: HookRequest, env: Envelope, docs: Docs, s: Sight, after: Sight, scan: Scan)
    returns (out: Outcome, ghost log: seq<HostRecord>)
    requires Ready(tx) && Placed(core)
    requires EarlyRefusal(core, tx.existing, req, s).None? && scan == ScanReplay(tx.existing, req)
    modifies tx, tx.store, shelf
    ensures Attempted(tx.store.runId, core, tx.existing, req, env, docs, s, after, out, log) && Stands(tx, log)
    ensures Shelved(docs, old(shelf.plans), shelf.plans, log != tx.existing && Charges(Decide(core, tx.existing, req, env, docs, s)))
  {
    FoundDecides(core, tx.existing, req, env, docs, s);
    if scan.Replayed? {
      ScanFinds(tx.existing, req);
      out, log := ReplayStep(tx, core, scan.record, req, docs, s, after);
    } else {
      out, log := AttemptNew(tx, shelf, core, req, env, docs, s, after);
    }
  }

  // The checks that come before a lease is asked for, and the replay they find.
  method CheckEarly(core: seq<CoreModel.Record>, history: seq<HostRecord>, req: HookRequest, s: Sight)
    returns (early: Option<Refusal>, scan: Scan)
    ensures early == EarlyRefusal(core, history, req, s)
    ensures early.None? ==> scan == ScanReplay(history, req)
  {
    scan := NoReplay;
    if core == [] {
      return Some(CoreRunMissing), scan;
    }
    var root := FindRoot(history);
    if root.None? {
      return Some(RepositoryBindingMissing), scan;
    }
    if req.liveRoot != root.value {
      return Some(RepositoryMismatch), scan;
    }
    scan := FindScan(history, req);
    if scan.Conflict? {
      return Some(ReservationConflict), scan;
    }
    if scan.Replayed? {
      return None, scan;
    }
    if PacketUses(history, req.dispatchId) {
      return Some(ReservationConflict), scan;
    }
    if !s.pending {
      return Some(AttemptInvalid), scan;
    }
    if s.used {
      return Some(ReservationConflict), scan;
    }
    return None, scan;
  }

  predicate Charges(d: Decision) {
    d.Admit? || d.Charge?
  }

  // The presented plan may have been kept, and was when the step filed a record under it.
  ghost predicate Shelved(docs: Docs, before: map<PlanDigest, Plan>, after: map<PlanDigest, Plan>, filed: bool) {
    || (!filed && after == before)
    || (docs.plan.Some? && after == before[DigestOfPlan(docs.plan.value) := docs.plan.value])
  }

  method AttemptNew(tx: HostStore.Transaction<HostContent>, shelf: PlanShelf, core: seq<CoreModel.Record>,
                    req: HookRequest, env: Envelope, docs: Docs, s: Sight, after: Sight) returns (out: Outcome, ghost log: seq<HostRecord>)
    requires Ready(tx) && Placed(core)
    modifies tx, tx.store, shelf
    ensures
      var d := DecideNew(core, tx.existing, req, env, docs, s.now);
      && Yields(tx.store.runId, core, tx.existing, req, docs, s, after, d, out, log)
      && Shelved(docs, old(shelf.plans), shelf.plans, log != tx.existing && Charges(d))
    ensures Stands(tx, log)
  {
    var history := tx.existing;
    log := history;
    var p := AttemptRouteGrant(history, req.unit, req.route, env.route, s.now);
    if p.None? {
      return Refused(AttemptRouteMismatch), log;
    }
    var counters := UnitCounters(history, req.unit);
    var d := DeriveLease(LeaseRequest(core, req.unit, docs, counters, s.now, p.value.route));
    out, log := AttemptOn(tx, shelf, core, req, env, docs, s, after, p.value, counters, d);
  }

  method AttemptOn(tx: HostStore.Transaction<HostContent>, shelf: PlanShelf, core: seq<CoreModel.Record>,
            req: HookRequest, env: Envelope,
                   docs: Docs, s: Sight, after: Sight, p: Preflight, counters: Counters, d: Derivation)
    returns (out: Outcome, ghost log: seq<HostRecord>)
    requires Ready(tx) && p.expiresAt.At? && counters == CountersOf(tx.existing, req.unit)
    requires (!d.NoLease? ==> docs.plan.Some?)
    modifies tx, tx.store, shelf
    ensures
      var decision := DecideOn(core, tx.existing, req, env, docs, s.now, p, d);
      && Yields(tx.store.runId, core, tx.existing, req, docs, s, after, decision, out, log)
      && Shelved(docs, old(shelf.plans), shelf.plans, log != tx.existing && Charges(decision))
    ensures Stands(tx, log)
  {
    log := tx.existing;
    if d.NoLease? {
      return Refused(LeaseInactive(d.reason)), log;
    }
    if d.Inactive? && d.reason.PolicyChanged? {
      out, log := RefuseOnPolicy(tx, core, req, docs, s, after);
      return;
    }
    if d.Inactive? {
      return Refused(LeaseInactive(d.reason)), log;
    }
    out, log := UnderLease(tx, shelf, core, req, env, docs, s, after, d.lease, counters, p);
  }

  // A revoked policy refuses, and an unrevoked one leaves room for a plan that
  // could not be kept.
  lemma YieldsUncharged(runId: string, core: seq<CoreModel.Record>, history: seq<HostRecord>, req: HookRequest,
            env: Envelope, docs: Docs, s: Sight, after: Sight, lease: Lease, p: Preflight)
    requires p.expiresAt.At?
    ensures
      var d := DecideUnderLease(core, history, req, env, docs, s.now, lease, p);
      var why := if PolicyEnd(core, history, lease.policyDigest, lease.issuerSequence).Some?
                 then LeaseInactive(PolicyChanged) else PlanNotKept;
      && Yields(runId, core, history, req, docs, s, after, d, Refused(why), history)
      && (why.LeaseInactive? ==> !Charges(d))
  {
  }

  method UnderLease(tx: HostStore.Transaction<HostContent>, shelf: PlanShelf, core: seq<CoreModel.Record>,
            req: HookRequest, env: Envelope,
                    docs: Docs, s: Sight, after: Sight, lease: Lease, counters: Counters, p: Preflight)
    returns (out: Outcome, ghost log: seq<HostRecord>)
    requires Ready(tx) && p.expiresAt.At? && counters == CountersOf(tx.existing, req.unit) && docs.plan.Some?
    modifies tx, tx.store, shelf
    ensures
      var d := DecideUnderLease(core, tx.existing, req, env, docs, s.now, lease, p);
      && Yields(tx.store.runId, core, tx.existing, req, docs, s, after, d, out, log)
      && Shelved(docs, old(shelf.plans), shelf.plans, log != tx.existing && Charges(d))
    ensures Stands(tx, log)
  {
    log := tx.existing;
    var revoked := PolicyRevokedAt(core, tx.existing, lease.policyDigest, lease.issuerSequence);
    YieldsUncharged(tx.store.runId, core, tx.existing, req, env, docs, s, after, lease, p);
    if revoked.Some? {
      return Refused(LeaseInactive(PolicyChanged)), log;
    }
    var kept := shelf.Retain(docs.plan.value);
    if !kept {
      return Refused(PlanNotKept), log;
    }
    out, log := AdmitOrCharge(tx, core, req, env, docs, s, after, lease, counters, p);
  }

  method RefuseOnPolicy(tx: HostStore.Transaction<HostContent>, core: seq<CoreModel.Record>, req: HookRequest,
            docs: Docs, s: Sight, after: Sight)
    returns (out: Outcome, ghost log: seq<HostRecord>)
    requires Ready(tx)
    modifies tx, tx.store
    ensures Yields(tx.store.runId, core, tx.existing, req, docs, s, after, PolicyRefusal, out, log) && Stands(tx, log)
  {
    var ok;
    ok, log := RecordPolicyChange(tx, core, docs, s.now);
    return if ok then Refused(LeaseInactive(PolicyChanged)) else Refused(NotCommitted), log;
  }

  method ReplayStep(tx: HostStore.Transaction<HostContent>, core: seq<CoreModel.Record>, r: HostRecord,
            req: HookRequest, docs: Docs,
                    s: Sight, after: Sight) returns (out: Outcome, ghost log: seq<HostRecord>)
    requires Ready(tx) && Placed(core) && r.payload.body.ReservationBody?
    modifies tx, tx.store
    ensures Yields(tx.store.runId, core, tx.existing, req, docs, s, after, Replay(r), out, log) && Stands(tx, log)
  {
    var res := ReplayResult(core, tx.existing, r, req, docs, s);
    var ok;
    ok, log := RecordPolicyChange(tx, core, docs, s.now);
    return if ok then Granted(res) else Refused(NotCommitted), log;
  }

  method AdmitOrCharge(tx: HostStore.Transaction<HostContent>, core: seq<CoreModel.Record>, req: HookRequest,
            env: Envelope, docs: Docs,
                       s: Sight, after: Sight, lease: Lease, counters: Counters, p: Preflight) returns (out: Outcome, ghost log: seq<HostRecord>)
    requires Ready(tx) && p.expiresAt.At? && counters == CountersOf(tx.existing, req.unit)
    requires PolicyEnd(core, tx.existing, lease.policyDigest, lease.issuerSequence).None?
    modifies tx, tx.store
    ensures Yields(tx.store.runId, core, tx.existing, req, docs, s, after,
                   DecideUnderLease(core, tx.existing, req, env, docs, s.now, lease, p), out, log)
    ensures Stands(tx, log)
  {
    var history := tx.existing;
    log := history;
    var adm := FindAdmission(history, req.controller);
    var ok, anchor;
    if adm.None? {
      if !EnvelopeFits(env, lease, counters, docs, s.now) {
        return Refused(AdmissionRefused), log;
      }
      ok, anchor, log := CommitTo(tx, HostContent(AdmissionBody(AdmissionFor(req, req.liveRoot, lease)), Chain.Tail(core), At(s.now)));
      return if ok then AdmittedOnly else Refused(NotCommitted), log;
    }
    if !SameAssociation(adm.value.payload.body.admission, req, lease) {
      return Refused(AdmissionRefused), log;
    }
    var sig := if req.failureSignature.Some? then req.failureSignature.value else "";
    if sig != "" && FailedBefore(history, req.unit, sig) {
      return Refused(RepeatedFailure), log;
    }
    var cost := Ceil(env.perAttempt);
    if cost < 0 || counters.costSpent + cost > lease.budgets.costCeiling {
      return Refused(LeaseInactive(Ceiling)), log;
    }
    var from := WholeSecond(s.now);
    if from >= lease.validUntil || from >= p.expiresAt.time {
      return Refused(LeaseInactive(WallTime)), log;
    }
    var v := Reserved(req.unit, req.controller, req.index, req.dispatchId, req, adm.value.headAnchor, IdentityOf(p.route), sig,
                      cost, At(from), At(lease.validUntil), GenerationOf(lease));
    ok, anchor, log := CommitTo(tx, HostContent(ReservationBody(v), Chain.Tail(core), At(from)));
    if !ok {
      return Refused(NotCommitted), log;
    }
    var eligible := after.now < lease.validUntil && after.now < p.expiresAt.time && !after.used;
    return Granted(Result(anchor, eligible, false, req.dispatchId, At(lease.validUntil))), log;
  }
}
