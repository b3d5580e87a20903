// What every run of the hook guarantees.
module HookResults {
  import opened Vocabulary
  import opened Documents
  import opened HostModel
  import opened Leases
  import opened Attempts
  import opened HookRuns
  import CoreModel
  import Reconciling

  // ---- charges ----

  // At every point of every run, each charge left its unit's attempts and cost,
  // summed over all generations, within the budgets of the plan its own
  // generation's approval accepted; and no two reservations share a dispatch
  // id, a place in a controller run, or a unit's failure signature.
  lemma ChargesStayWithinBudgets(runId: string, trace: seq<World>, i: nat)
    requires Run(runId, trace) && i < |trace|
    ensures AllApart(trace[i].history)
    ensures forall k :: 0 <= k < |trace[i].history| && IsReservation(trace[i].history[k]) ==>
              var v := trace[i].history[k].payload.body.reservation;
              exists plan :: Issued(trace[i].core, v, plan) && WithinBudgets(trace[i].history[..k + 1], v, plan)
  {
    RunKeeps(runId, trace, i);
    var w := trace[i];
    forall k | 0 <= k < |w.history| && IsReservation(w.history[k])
      ensures exists plan :: Issued(w.core, w.history[k].payload.body.reservation, plan)
                             && WithinBudgets(w.history[..k + 1], w.history[k].payload.body.reservation, plan)
    {
      assert Grounded(w, k);
    }
  }

  // ---- replays ----

  lemma {:induction false} ScanReaches(history: seq<HostRecord>, req: HookRequest, k: nat)
    requires k < |history| && IsReservation(history[k]) && SameKey(history[k].payload.body.reservation, req)
    requires history[k].payload.body.reservation.request == req
    requires forall j :: 0 <= j < k && IsReservation(history[j]) ==> !Collides(history[j].payload.body.reservation, req)
    ensures ScanReplay(history, req) == Replayed(history[k])
  {
    if k > 0 {
      ScanReaches(history[1..], req, k - 1);
    }
  }

  // What the invariant says of one reservation, without the rest of the run.
  lemma ReservationFacts(runId: string, w: World, k: nat) returns (plan: Plan)
    requires Inv(runId, w) && k < |w.history| && IsReservation(w.history[k])
    ensures Placed(w.core) && HostPlaced(w.history) && AllApart(w.history)
    ensures Settles(w, w.history[k].payload.body.reservation, plan)
  {
    ChainIsPlaced(runId, AnyCore, w.core);
    ChainIsHostPlaced(runId, AnyHost, w.history);
    assert Grounded(w, k);
    var v := w.history[k].payload.body.reservation;
    plan :| DigestOfPlan(plan) in w.plans && w.plans[DigestOfPlan(plan)] == plan
         && Issued(w.core, v, plan) && Copied(w.core, v, plan) && WithinBudgets(w.history[..k + 1], v, plan);
  }

  predicate Settles(w: World, v: Reserved, plan: Plan) {
    && KeyOfRequest(v) && HasAdmission(w.history, v) && HasPreflight(w.history, v)
    && DigestOfPlan(plan) in w.plans && w.plans[DigestOfPlan(plan)] == plan && Issued(w.core, v, plan) && Copied(w.core, v, plan)
  }

  lemma ReservedIsReplayed(history: seq<HostRecord>, k: nat, req: HookRequest)
    requires AllApart(history) && k < |history| && IsReservation(history[k])
    requires history[k].payload.body.reservation.request == req && KeyOfRequest(history[k].payload.body.reservation)
    ensures ScanReplay(history, req) == Replayed(history[k])
  {
    forall j | 0 <= j < k && IsReservation(history[j]) ensures !Collides(history[j].payload.body.reservation, req) {
      assert Apart(history[j].payload.body.reservation, history[k].payload.body.reservation);
    }
    ScanReaches(history, req, k);
  }

  // What a replay may answer and leave.
  lemma ReplayYields(runId: string, core: seq<CoreModel.Record>, history: seq<HostRecord>, r: HostRecord,
            req: HookRequest, docs: Docs,
                     s: Sight, after: Sight, out: Attempts.Outcome, log: seq<HostRecord>)
    requires Yields(runId, core, history, req, docs, s, after, Replay(r), out, log)
    ensures IsReservation(r) && !out.AdmittedOnly?
    ensures out.Granted? ==>
              && out.result.replay && out.result.reservation == r.headAnchor
              && out.result.dispatchId == r.payload.body.reservation.dispatchId && out.result.validUntil == r.payload.body.reservation.validUntil
    ensures history <= log && forall j :: |history| <= j < |log| ==> !IsReservation(log[j])
  {
  }

  lemma DecidesReplay(core: seq<CoreModel.Record>, history: seq<HostRecord>, req: HookRequest, env: Envelope,
            docs: Docs, s: Sight, r: HostRecord)
    requires ScanReplay(history, req) == Replayed(r)
    ensures Decide(core, history, req, env, docs, s).Refuse? || Decide(core, history, req, env, docs, s) == Replay(r)
  {
  }

  lemma RepeatYields(runId: string, core: seq<CoreModel.Record>, history: seq<HostRecord>, r: HostRecord,
            req: HookRequest, docs: Docs,
                     s: Sight, after: Sight, d: Decision, out: Attempts.Outcome, log: seq<HostRecord>)
    requires d.Refuse? || d == Replay(r)
    requires Yields(runId, core, history, req, docs, s, after, d, out, log)
    ensures Repeats(history, r, out, log)
  {
    if d.Replay? {
      ReplayYields(runId, core, history, r, req, docs, s, after, out, log);
    }
  }

  // The answer is r again, or a refusal; no reservation was filed.
  predicate Repeats(history: seq<HostRecord>, r: HostRecord, out: Attempts.Outcome, log: seq<HostRecord>) {
    && !out.AdmittedOnly?
    && (out.Granted? ==>
          && IsReservation(r) && out.result.replay && out.result.reservation == r.headAnchor
          && out.result.dispatchId == r.payload.body.reservation.dispatchId && out.result.validUntil == r.payload.body.reservation.validUntil)
    && history <= log && (forall j :: |history| <= j < |log| ==> !IsReservation(log[j]))
  }

  // Repeating a request that was charged returns that reservation, unchanged,
  // or a refusal, and never charges again.
  lemma RepeatReturnsTheReservation(runId: string, w: World, t: World, k: nat, req: HookRequest, env: Envelope,
            docs: Docs,
                                    s: Sight, after: Sight, out: Attempts.Outcome)
    requires Inv(runId, w) && k < |w.history| && IsReservation(w.history[k])
    requires w.history[k].payload.body.reservation.request == req
    requires HookStep(runId, w, t, req, env, docs, s, after, out)
    ensures Repeats(w.history, w.history[k], out, t.history)
  {
    var plan := ReservationFacts(runId, w, k);
    ReservedIsReplayed(w.history, k, req);
    DecidesReplay(w.core, w.history, req, env, docs, s, w.history[k]);
    RepeatYields(runId, w.core, w.history, w.history[k], req, docs, s, after, Decide(w.core, w.history, req, env, docs, s), out, t.history);
  }

  // ---- a granted launch is authorized ----

  // The launch a reservation grants: the reserved worker, model and effort, in
  // the request's namespace, inside the reservation's window.
  predicate Launches(run: Reconciling.LedgerRun, v: Reserved) {
    && !run.unreadable && run.runId == run.dir == v.dispatchId && run.namespace == v.request.namespace && run.mode != "review"
    && v.routeIdentity.RouteIdentity? && run.launch.agent == v.routeIdentity.worker && run.launch.model == v.routeIdentity.model
    && run.launch.effort == v.routeIdentity.effort
    && run.startedAt.At? && v.validFrom.At? && v.validUntil.At? && v.validFrom.time <= run.startedAt.time < v.validUntil.time
  }

  lemma OtherReservationsDiffer(history: seq<HostRecord>, k: nat, j: nat)
    requires AllApart(history) && k < |history| && j < |history| && j != k && IsReservation(history[k])
    requires IsReservation(history[j])
    ensures history[j].payload.body.reservation.dispatchId != history[k].payload.body.reservation.dispatchId
  {
    if j < k {
      assert Apart(history[j].payload.body.reservation, history[k].payload.body.reservation);
    } else {
      assert Apart(history[k].payload.body.reservation, history[j].payload.body.reservation);
    }
  }

  // Its record is the run's only match while no review packet carries the same
  // dispatch id.
  lemma ReservationMatches(history: seq<HostRecord>, k: nat)
    requires AllApart(history) && k < |history| && IsReservation(history[k])
    requires !PacketUses(history, history[k].payload.body.reservation.dispatchId)
    ensures Reconciling.Matches(history, history[k].payload.body.reservation.dispatchId) == [history[k]]
  {
    var id := history[k].payload.body.reservation.dispatchId;
    forall j | 0 <= j < |history| ensures Reconciling.Carries(history[j], id) <==> j == k {
      if j != k && IsReservation(history[j]) {
        OtherReservationsDiffer(history, k, j);
      }
    }
    Reconciling.OnlyMatch(history, id, k);
  }

  lemma ReservationNamespace(history: seq<HostRecord>, m: HostRecord)
    requires HostPlaced(history) && IsReservation(m) && HasAdmission(history, m.payload.body.reservation)
    ensures Reconciling.NamespaceFor(history, m) == m.payload.body.reservation.request.namespace
  {
    var j :| 0 <= j < |history| && AdmissionFits(history[j], m.payload.body.reservation);
    Reconciling.AdmissionExactly(history, m.payload.body.reservation.admission);
  }

  lemma ReservationLaunch(history: seq<HostRecord>, m: HostRecord, run: Reconciling.LedgerRun)
    requires IsReservation(m) && HasPreflight(history, m.payload.body.reservation)
    requires Launches(run, m.payload.body.reservation)
    ensures Reconciling.LaunchMatches(history, m, run.launch)
  {
    var v := m.payload.body.reservation;
    var j :| 0 <= j < |history| && Reconciling.NamesRoute(history[j], v.unit, v.routeIdentity);
    Reconciling.PreflightExactly(history, v.unit, v.routeIdentity);
  }

  // lr derives an active lease of v's generation, on a policy not revoked for it.
  ghost predicate Backs(w: World, lr: Request, v: Reserved) {
    && lr.records == w.core && lr.unit == v.unit && IsActive(lr)
    && Derived(lr).lease.issuerAnchor == v.generation.issuerAnchor
    && PolicyEnd(w.core, w.history, Derived(lr).lease.policyDigest, v.generation.issuerSequence).None?
  }

  lemma SameIssuer(core: seq<CoreModel.Record>, i: nat, j: nat)
    requires Placed(core) && i < |core| && j < |core| && core[i].headAnchor == core[j].headAnchor
    ensures i == j
  {
  }

  lemma LeaseSaysTheSame(lr: Request, issuer: nat, v: Reserved, plan: Plan)
    requires Placed(lr.records) && Carried(lr, issuer) && Issued(lr.records, v, plan) && lr.unit == v.unit
    requires lr.records[issuer].headAnchor == v.generation.issuerAnchor
    ensures lr.plan == Some(plan) && issuer == v.generation.issuerSequence - 1
    ensures Copied(lr.records, v, plan) ==> v.validUntil == At(LeaseOf(lr, lr.records[issuer], UnitFor(lr)).validUntil)
  {
    SameIssuer(lr.records, issuer, v.generation.issuerSequence - 1);
  }

  // The generation an anchor names has one sequence and one plan.
  lemma SameGeneration(w: World, lr: Request, v: Reserved, plan: Plan)
    requires Placed(w.core) && Issued(w.core, v, plan) && Backs(w, lr, v)
    ensures lr.plan == Some(plan) && Derived(lr).lease.issuerSequence == v.generation.issuerSequence
    ensures Copied(w.core, v, plan) ==> v.validUntil == At(Derived(lr).lease.validUntil)
    ensures Derived(lr).lease.policyDigest == plan.policyDigest == lr.policyDigest != ""
  {
    var issuer := ActiveStands(lr);
    LeaseSaysTheSame(lr, issuer, v, plan);
  }

  lemma PlanIsFound(w: World, v: Reserved, plan: Plan, policy: string)
    requires Placed(w.core) && Settles(w, v, plan)
    ensures Reconciling.GenerationPlan(Reconciling.Input(w.core, w.history, w.plans, policy), v.generation.issuerSequence) == Some(plan)
  {
    Reconciling.GenerationFound(w.core, 0, v.generation.issuerSequence);
  }

  lemma ReservationWindowIsOpen(w: World, v: Reserved, plan: Plan, lr: Request)
    requires Placed(w.core) && Settles(w, v, plan) && Backs(w, lr, v)
    ensures v.validFrom.At? && v.validUntil.At?
    ensures Reconciling.ReservationWindow(Reconciling.Input(w.core, w.history, w.plans, lr.policyDigest), v)
            == Reconciling.Open(v.validFrom.time, v.validUntil.time)
  {
    SameGeneration(w, lr, v, plan);
    ActiveMeansUnrevoked(lr);
    PlanIsFound(w, v, plan, lr.policyDigest);
  }

  lemma SettledAuthorizes(w: World, k: nat, plan: Plan, lr: Request, run: Reconciling.LedgerRun)
    requires Placed(w.core) && HostPlaced(w.history) && AllApart(w.history) && k < |w.history|
    requires IsReservation(w.history[k])
    requires Settles(w, w.history[k].payload.body.reservation, plan)
    requires Backs(w, lr, w.history[k].payload.body.reservation)
    requires Launches(run, w.history[k].payload.body.reservation) && Reconciling.First(w.core) <= run.startedAt.time
    requires !PacketUses(w.history, run.dir)
    ensures Reconciling.ClassOf(Reconciling.Input(w.core, w.history, w.plans, lr.policyDigest), run) == Reconciling.Authorized(w.history[k].headAnchor)
  {
    ReservationMatches(w.history, k);
    ReservationNamespace(w.history, w.history[k]);
    ReservationLaunch(w.history, w.history[k], run);
    ReservationWindowIsOpen(w, w.history[k].payload.body.reservation, plan, lr);
    MatchedIsAuthorized(Reconciling.Input(w.core, w.history, w.plans, lr.policyDigest), run, w.history[k]);
  }

  // A packet with the same id leaves more than one match.
  lemma Shadowed(history: seq<HostRecord>, k: nat, id: string)
    requires k < |history| && IsReservation(history[k]) && history[k].payload.body.reservation.dispatchId == id
    requires PacketUses(history, id)
    ensures |Reconciling.Matches(history, id)| > 1
  {
    var j :| 0 <= j < |history| && history[j].payload.body.PacketBody? && history[j].payload.body.dispatch.dispatchId == id;
    Reconciling.SingleMatch(history, id);
    assert history[j] in Reconciling.Matches(history, id) && history[k] in Reconciling.Matches(history, id);
  }

  lemma ShadowedIsRefused(inp: Reconciling.Input, run: Reconciling.LedgerRun, k: nat)
    requires k < |inp.history| && IsReservation(inp.history[k])
    requires Launches(run, inp.history[k].payload.body.reservation)
    requires PacketUses(inp.history, run.dir) && Reconciling.First(inp.core) <= run.startedAt.time
    ensures Reconciling.ClassOf(inp, run) == Reconciling.Refused(Reconciling.AmbiguousMatch)
  {
    Shadowed(inp.history, k, run.dir);
  }

  // Reconciling a launch that a reservation covers, while its lease is active
  // and the policy presented is the lease's: it is authorized by that very
  // record if and only if no review packet carries the same dispatch id.
  lemma LiveReservationAuthorizes(runId: string, w: World, k: nat, lr: Request, run: Reconciling.LedgerRun)
    requires Inv(runId, w) && k < |w.history| && IsReservation(w.history[k])
    requires Backs(w, lr, w.history[k].payload.body.reservation)
    requires Launches(run, w.history[k].payload.body.reservation) && Reconciling.First(w.core) <= run.startedAt.time
    ensures
      var inp := Reconciling.Input(w.core, w.history, w.plans, lr.policyDigest);
      Reconciling.ClassOf(inp, run) == Reconciling.Authorized(w.history[k].headAnchor) <==> !PacketUses(w.history, run.dir)
  {
    if PacketUses(w.history, run.dir) {
      ShadowedIsRefused(Reconciling.Input(w.core, w.history, w.plans, lr.policyDigest), run, k);
    } else {
      var plan := ReservationFacts(runId, w, k);
      SettledAuthorizes(w, k, plan, lr, run);
    }
  }

  lemma MatchedIsAuthorized(inp: Reconciling.Input, run: Reconciling.LedgerRun, m: HostRecord)
    requires IsReservation(m) && Launches(run, m.payload.body.reservation)
    requires Reconciling.First(inp.core) <= run.startedAt.time
    requires Reconciling.Matches(inp.history, run.dir) == [m] && Reconciling.LaunchMatches(inp.history, m, run.launch)
    requires Reconciling.NamespaceFor(inp.history, m) == run.namespace != ""
    requires Reconciling.ReservationWindow(inp, m.payload.body.reservation)
             == Reconciling.Open(m.payload.body.reservation.validFrom.time, m.payload.body.reservation.validUntil.time)
    ensures Reconciling.ClassOf(inp, run) == Reconciling.Authorized(m.headAnchor)
  {
    assert Reconciling.Validity(inp, m) == Reconciling.ReservationWindow(inp, m.payload.body.reservation);
  }


  // The launch a granted request asks for.
  predicate LaunchedFor(run: Reconciling.LedgerRun, req: HookRequest, v: Reserved) {
    && !run.unreadable && run.runId == run.dir == req.dispatchId && run.namespace == req.namespace && run.mode != "review"
    && run.launch.agent == req.route.worker && Some(run.launch.model) == req.route.model && Some(run.launch.effort) == req.route.effort
    && run.startedAt.At? && v.validFrom.At? && v.validUntil.At? && v.validFrom.time <= run.startedAt.time < v.validUntil.time
  }

  lemma LaunchedForLaunches(run: Reconciling.LedgerRun, req: HookRequest, v: Reserved, route: Route)
    requires LaunchedFor(run, req, v) && v.request == req && v.dispatchId == req.dispatchId
    requires NamesWorker(req.route, route) && v.routeIdentity == IdentityOf(route)
    ensures Launches(run, v)
  {
  }

  lemma PolicyEndUnmoved(core: seq<CoreModel.Record>, history: seq<HostRecord>, r: HostRecord, policy: string,
            issuer: int)
    requires IsReservation(r)
    ensures PolicyEnd(core, history + [r], policy, issuer) == PolicyEnd(core, history, policy, issuer)
  {
    assert (history + [r])[..|history|] == history;
  }

  // A replay found eligible rests on an active lease of the same generation,
  // and leaves the history as it was.
  lemma ReplayBacks(w: World, r: HostRecord, req: HookRequest, docs: Docs, s: Sight,
            plan: Plan) returns (lr: Request, p: Preflight)
    requires IsReservation(r) && StillEligible(w.core, w.history, r.payload.body.reservation, req, docs, s)
    requires Placed(w.core) && Settles(w, r.payload.body.reservation, plan)
    ensures Backs(w, lr, r.payload.body.reservation) && lr.policyDigest == docs.policyDigest
    ensures NamesWorker(req.route, p.route) && r.payload.body.reservation.routeIdentity == IdentityOf(p.route)
    ensures PolicyChange(w.core, w.history, docs, s.now).None?
  {
    var v := r.payload.body.reservation;
    p := RouteFor(w.history, v.unit, req.route, req.route, s.now).value;
    lr := LeaseRequest(w.core, v.unit, docs, Counters(0, 0), s.now, p.route);
    var issuer := ActiveStands(lr);
    SameGeneration(w, lr, v, plan);
  }

  // Which reservation a granted result names.
  lemma GrantNames(runId: string, w: World, t: World, req: HookRequest, env: Envelope, docs: Docs, s: Sight,
            after: Sight, out: Attempts.Outcome)
    requires HookStep(runId, w, t, req, env, docs, s, after, out) && out.Granted? && out.result.eligible
    ensures
      var d := Decide(w.core, w.history, req, env, docs, s);
      || (d.Charge? && !out.result.replay && |t.history| == |w.history| + 1 && t.history[..|w.history|] == w.history
          && t.history[|w.history|].payload.body == ReservationBody(d.reservation) && t.history[|w.history|].headAnchor == out.result.reservation)
      || (d.Replay? && out.result.replay && IsReservation(d.record) && d.record.headAnchor == out.result.reservation
          && StillEligible(w.core, w.history, d.record.payload.body.reservation, req, docs, s)
          && (PolicyChange(w.core, w.history, docs, s.now).None? ==> t.history == w.history))
  {
  }

  // What backs a granted launch: its reservation, and an active lease of its
  // generation on the policy the hook was given.
  ghost predicate BackedBy(t: World, k: nat, lr: Request, p: Preflight, req: HookRequest, docs: Docs) {
    && k < |t.history| && IsReservation(t.history[k])
    && var v := t.history[k].payload.body.reservation;
       && Backs(t, lr, v) && lr.policyDigest == docs.policyDigest && NamesWorker(req.route, p.route) && v.routeIdentity == IdentityOf(p.route)
       && v.request == req && v.dispatchId == req.dispatchId
  }

  lemma FreshIsBacked(w: World, t: World, req: HookRequest, env: Envelope, docs: Docs, now: int, lr: Request,
            lease: Lease, p: Preflight)
    requires t.core == w.core && |t.history| == |w.history| + 1 && t.history[..|w.history|] == w.history
    requires Rests(w.core, req.unit, docs, lr, lease)
    requires RouteFor(w.history, req.unit, req.route, env.route, now) == Some(p) && p.expiresAt.At?
    requires DecideUnderLease(w.core, w.history, req, env, docs, now, lease, p).Charge?
    requires t.history[|w.history|].payload.body == ReservationBody(DecideUnderLease(w.core, w.history, req, env, docs, now, lease, p).reservation)
    ensures BackedBy(t, |w.history|, lr, p, req, docs)
  {
    var r := t.history[|w.history|];
    assert t.history == w.history + [r];
    ChargeReads(w.core, w.history, req, env, docs, now, lease, p);
    PolicyEndUnmoved(w.core, w.history, r, lease.policyDigest, lease.issuerSequence);
  }

  lemma ReplayIsBacked(runId: string, w: World, k: nat, req: HookRequest, docs: Docs,
            s: Sight) returns (lr: Request, p: Preflight)
    requires Inv(runId, w) && k < |w.history| && IsReservation(w.history[k])
    requires w.history[k].payload.body.reservation.request == req
    requires StillEligible(w.core, w.history, w.history[k].payload.body.reservation, req, docs, s)
    ensures BackedBy(w, k, lr, p, req, docs) && PolicyChange(w.core, w.history, docs, s.now).None?
  {
    var plan := ReservationFacts(runId, w, k);
    lr, p := ReplayBacks(w, w.history[k], req, docs, s, plan);
  }

  lemma DecidedReplay(core: seq<CoreModel.Record>, history: seq<HostRecord>, req: HookRequest, env: Envelope,
            docs: Docs, s: Sight) returns (k: nat)
    requires Decide(core, history, req, env, docs, s).Replay?
    ensures k < |history| && history[k] == Decide(core, history, req, env, docs, s).record
    ensures IsReservation(history[k]) && history[k].payload.body.reservation.request == req
  {
    ScanFinds(history, req);
    k :| 0 <= k < |history| && history[k] == Decide(core, history, req, env, docs, s).record;
  }

  lemma BackedByMoves(w: World, t: World, k: nat, lr: Request, p: Preflight, req: HookRequest, docs: Docs)
    requires BackedBy(w, k, lr, p, req, docs) && t.core == w.core && t.history == w.history
    ensures BackedBy(t, k, lr, p, req, docs)
  {
  }

  lemma GrantIsBacked(runId: string, w: World, t: World, req: HookRequest, env: Envelope, docs: Docs, s: Sight,
            after: Sight, out: Attempts.Outcome)
    returns (k: nat, lr: Request, p: Preflight)
    requires Inv(runId, w) && HookStep(runId, w, t, req, env, docs, s, after, out) && out.Granted?
    requires out.result.eligible
    ensures BackedBy(t, k, lr, p, req, docs) && t.history[k].headAnchor == out.result.reservation
  {
    GrantNames(runId, w, t, req, env, docs, s, after, out);
    if Decide(w.core, w.history, req, env, docs, s).Charge? {
      k := |w.history|;
      var lease;
      lr, lease, p := ChargeRests(w.core, w.history, req, env, docs, s);
      FreshIsBacked(w, t, req, env, docs, s.now, lr, lease, p);
    } else {
      k := DecidedReplay(w.core, w.history, req, env, docs, s);
      lr, p := ReplayIsBacked(runId, w, k, req, docs, s);
      BackedByMoves(w, t, k, lr, p, req, docs);
    }
  }

  // Over whole runs: a launch the hook granted, fresh or replayed, that starts
  // in its reservation's window, in the request's namespace, with the requested
  // worker, model and effort, and no earlier than the run's first record, is
  // authorized when it is reconciled against the logs, plans and policy the
  // hook left: if and only if no review packet carries its dispatch id.
  lemma GrantedLaunchIsAuthorized(runId: string, trace: seq<World>, i: nat, req: HookRequest, env: Envelope,
            docs: Docs, s: Sight, after: Sight,
                                  out: Attempts.Outcome, runs: seq<Reconciling.LedgerRun>, j: nat) returns (k: nat)
    requires Run(runId, trace) && i + 1 < |trace|
    requires HookStep(runId, trace[i], trace[i + 1], req, env, docs, s, after, out)
    requires out.Granted? && out.result.eligible && Reconciling.DistinctRuns(runs) && j < |runs|
    ensures k < |trace[i + 1].history| && IsReservation(trace[i + 1].history[k])
    ensures trace[i + 1].history[k].headAnchor == out.result.reservation
    ensures
      var t, run := trace[i + 1], runs[j];
      LaunchedFor(run, req, t.history[k].payload.body.reservation) && Reconciling.First(t.core) <= run.startedAt.time ==>
        (Reconciling.Verdicts(Reconciling.Input(t.core, t.history, t.plans, docs.policyDigest), runs)[j]
             == Reconciling.Authorized(out.result.reservation)
         <==> !PacketUses(t.history, req.dispatchId))
  {
    var w, t, run := trace[i], trace[i + 1], runs[j];
    RunKeeps(runId, trace, i);
    RunKeeps(runId, trace, i + 1);
    var lr, p;
    k, lr, p := GrantIsBacked(runId, w, t, req, env, docs, s, after, out);
    var v := t.history[k].payload.body.reservation;
    if LaunchedFor(run, req, v) && Reconciling.First(t.core) <= run.startedAt.time {
      LaunchedForLaunches(run, req, v, p.route);
      LiveReservationAuthorizes(runId, t, k, lr, run);
      ChainIsHostPlaced(runId, AnyHost, t.history);
      Reconciling.VerdictIsOwn(Reconciling.Input(t.core, t.history, t.plans, docs.policyDigest), runs, j);
    }
  }

  // And a fresh grant never meets that packet: the hook refuses an id a packet carries.
  lemma FreshGrantIsUnshadowed(runId: string, w: World, t: World, req: HookRequest, env: Envelope, docs: Docs,
            s: Sight, after: Sight, out: Attempts.Outcome)
    requires HookStep(runId, w, t, req, env, docs, s, after, out) && out.Granted? && out.result.eligible
    requires !out.result.replay
    ensures !PacketUses(t.history, req.dispatchId)
  {
    GrantNames(runId, w, t, req, env, docs, s, after, out);
    var lr, lease, p := ChargeRests(w.core, w.history, req, env, docs, s);
    UnshadowedSnoc(w.history, t.history, req.dispatchId);
  }

  lemma UnshadowedSnoc(history: seq<HostRecord>, log: seq<HostRecord>, id: string)
    requires |log| == |history| + 1 && log[..|history|] == history && IsReservation(log[|history|])
    requires !PacketUses(history, id)
    ensures !PacketUses(log, id)
  {
    assert forall j :: 0 <= j < |history| ==> log[j] == history[j];
  }

  // ---- no generation charges again once it has ended ----

  // A decision that admits or charges under this generation of the unit.
  predicate UsesGeneration(d: Decision, unit: string, issuer: int) {
    || (d.Charge? && d.reservation.unit == unit && d.reservation.generation.issuerSequence == issuer)
    || (d.Admit? && d.admission.unit == unit && d.admission.generation.issuerSequence == issuer)
  }

  lemma UseNamesLease(core: seq<CoreModel.Record>, history: seq<HostRecord>, req: HookRequest, env: Envelope,
            docs: Docs, now: int,
                      lease: Lease, p: Preflight, unit: string, issuer: int)
    requires p.expiresAt.At?
    requires UsesGeneration(DecideUnderLease(core, history, req, env, docs, now, lease, p), unit, issuer)
    ensures req.unit == unit && lease.issuerSequence == issuer
    ensures PolicyEnd(core, history, lease.policyDigest, issuer).None?
  {
  }

  lemma UseRests(core: seq<CoreModel.Record>, history: seq<HostRecord>, req: HookRequest, env: Envelope, docs: Docs,
            s: Sight, unit: string, issuer: int)
    returns (lr: Request, lease: Lease)
    requires UsesGeneration(Decide(core, history, req, env, docs, s), unit, issuer)
    ensures Rests(core, unit, docs, lr, lease) && lease.issuerSequence == issuer
    ensures PolicyEnd(core, history, lease.policyDigest, issuer).None?
  {
    var p;
    lr, lease, p := ChargeRests(core, history, req, env, docs, s);
    UseNamesLease(core, history, req, env, docs, s.now, lease, p, unit, issuer);
  }

  // A lease active later cannot be of a generation ended before.
  lemma EndedNeverActive(core: seq<CoreModel.Record>, later: seq<CoreModel.Record>, unit: string, issuer: nat,
            plan: Plan, lr: Request)
    requires Placed(later) && core <= later && issuer < |core| && IssuesLease(core[issuer], unit)
    requires core[issuer].payload.approval.value.acceptedPlan == DigestOfPlan(plan)
    requires lr.records == later && lr.unit == unit && IsActive(lr) && Derived(lr).lease.issuerSequence == issuer + 1
    ensures !Void(core, unit, issuer, plan) && Derived(lr).lease.policyDigest == plan.policyDigest
  {
    var i := ActiveStands(lr);
    ActiveIsNotVoid(lr, i);
    CarriesSamePlan(core, lr, i, issuer, plan);
    NotVoidBefore(core, later, unit, issuer, plan);
  }

  lemma CarriesSamePlan(core: seq<CoreModel.Record>, lr: Request, i: nat, issuer: nat, plan: Plan)
    requires Placed(lr.records) && core <= lr.records && issuer < |core| && Carried(lr, i)
    requires core[issuer].payload.approval.Some?
    requires core[issuer].payload.approval.value.acceptedPlan == DigestOfPlan(plan)
    requires LeaseOf(lr, lr.records[i], UnitFor(lr)).issuerSequence == issuer + 1
    ensures i == issuer && lr.plan == Some(plan)
  {
  }

  lemma NotVoidBefore(core: seq<CoreModel.Record>, later: seq<CoreModel.Record>, unit: string, issuer: nat, plan: Plan)
    requires core <= later && issuer < |core| && core[issuer].payload.approval.Some?
    requires later[issuer].payload.approval.Some? && !Void(later, unit, issuer, plan)
    ensures !Void(core, unit, issuer, plan)
  {
    if Void(core, unit, issuer, plan) {
      VoidPersists(core, later, unit, issuer, plan);
    }
  }

  // Once the chain has voided a generation (rewound it, left it, ended the run
  // or touched a waiver it bound) or its plan's policy has been recorded as
  // revoked, no extension of the two logs lets the hook admit or charge under
  // it again, whatever it is presented.
  lemma EndedGenerationNeverCharges(core: seq<CoreModel.Record>, history: seq<HostRecord>,
            later: seq<CoreModel.Record>, more: seq<HostRecord>,
                                    unit: string, issuer: nat, plan: Plan,
                                    req: HookRequest, env: Envelope, docs: Docs, s: Sight)
    requires Placed(later) && core <= later && history <= more
    requires issuer < |core| && IssuesLease(core[issuer], unit)
    requires core[issuer].payload.approval.value.acceptedPlan == DigestOfPlan(plan)
    requires Void(core, unit, issuer, plan) || PolicyEnd(core, history, plan.policyDigest, issuer + 1).Some?
    ensures !UsesGeneration(Decide(later, more, req, env, docs, s), unit, issuer + 1)
  {
    if UsesGeneration(Decide(later, more, req, env, docs, s), unit, issuer + 1) {
      var lr, lease := UseRests(later, more, req, env, docs, s, unit, issuer + 1);
      EndedNeverActive(core, later, unit, issuer, plan, lr);
      PolicyStaysRevoked(core, later, history, more, plan.policyDigest, issuer + 1);
      assert false;
    }
  }

  // ---- one recorded policy change per generation ----

  // When the hook files a policy change, every earlier observation of that
  // policy was made before the latest approval that issued a lease.
  lemma ChangeMeansNewGeneration(core: seq<CoreModel.Record>, history: seq<HostRecord>, docs: Docs, now: int,
            r: HostRecord)
    requires PolicyChange(core, history, docs, now).Some? && r in history
    requires Observation(r, docs.plan.value.policyDigest).Some?
    ensures SequenceOf(core, r.payload.coreHead).Some?
    ensures SequenceOf(core, r.payload.coreHead).value < LatestGeneration(core)
  {
    PolicyEndIsEarliest(core, history, docs.plan.value.policyDigest, LatestGeneration(core));
  }
}
