// Exactly when the hook admits, charges and lets a reservation launch, said of
// the records themselves (cmd/hma/attempt.go).
module AttemptLaws {
  import opened Vocabulary
  import opened Documents
  import opened HostModel
  import opened Leases
  import opened Attempts
  import CoreModel

  // ---- before the lease ----

  // The repository the run is bound to: the first record that binds one.
  predicate BoundAt(history: seq<HostRecord>, k: int) {
    && 0 <= k < |history| && history[k].payload.body.RepositoryBody?
    && forall i :: 0 <= i < k ==> !history[i].payload.body.RepositoryBody?
  }

  lemma {:induction false} RootIsFirst(history: seq<HostRecord>)
    ensures forall k :: BoundAt(history, k) ==> RepositoryRoot(history) == Some(history[k].payload.body.root)
    ensures RepositoryRoot(history).Some? ==> exists k :: BoundAt(history, k)
  {
    if history != [] {
      if history[0].payload.body.RepositoryBody? {
        assert BoundAt(history, 0);
      } else {
        RootIsFirst(history[1..]);
        forall k ensures BoundAt(history, k) <==> BoundAt(history[1..], k - 1) {
          BoundShifts(history, k);
        }
        if RepositoryRoot(history).Some? {
          var k :| BoundAt(history[1..], k);
          assert BoundAt(history, k + 1);
        }
      }
    }
  }

  lemma BoundShifts(history: seq<HostRecord>, k: int)
    requires history != [] && !history[0].payload.body.RepositoryBody?
    ensures BoundAt(history, k) <==> BoundAt(history[1..], k - 1)
  {
    assert forall i :: 0 <= i < |history| - 1 ==> history[1..][i] == history[i + 1];
  }

  // No reservation has the request's dispatch id or its place in the controller
  // run, and no review packet has its dispatch id.
  predicate Unclaimed(history: seq<HostRecord>, req: HookRequest) {
    && (forall i :: 0 <= i < |history| && history[i].payload.body.ReservationBody? ==>
          var v := history[i].payload.body.reservation;
          v.dispatchId != req.dispatchId && (v.controller != req.controller || v.index != req.index))
    && (forall i :: 0 <= i < |history| && history[i].payload.body.PacketBody? ==>
          history[i].payload.body.dispatch.dispatchId != req.dispatchId)
  }

  // The controller waits for this attempt, its ledger has no trace of it, no
  // record claims it, and the request names the bound repository.
  predicate Open(core: seq<CoreModel.Record>, history: seq<HostRecord>, req: HookRequest, s: Sight) {
    && core != [] && s.pending && !s.used && Unclaimed(history, req)
    && exists k :: 0 <= k < |history| && BoundAt(history, k) && history[k].payload.body.root == req.liveRoot
  }

  lemma OpenExactly(core: seq<CoreModel.Record>, history: seq<HostRecord>, req: HookRequest, s: Sight)
    ensures EarlyRefusal(core, history, req, s).None? && !ScanReplay(history, req).Replayed? <==> Open(core, history, req, s)
  {
    RootIsFirst(history);
    UnclaimedExactly(history, req);
  }

  lemma UnclaimedExactly(history: seq<HostRecord>, req: HookRequest)
    ensures Unclaimed(history, req) <==> ScanReplay(history, req).NoReplay? && !PacketUses(history, req.dispatchId)
  {
    ScanFinds(history, req);
    assert forall i :: 0 <= i < |history| ==> history[i] in history;
  }

  // The first reservation with the request's dispatch id or its place.
  predicate FirstClaim(history: seq<HostRecord>, req: HookRequest, k: int) {
    && 0 <= k < |history| && Claims(history[k], req)
    && forall i :: 0 <= i < k ==> !Claims(history[i], req)
  }

  predicate Claims(r: HostRecord, req: HookRequest) {
    && r.payload.body.ReservationBody?
    && var v := r.payload.body.reservation;
       v.dispatchId == req.dispatchId || (v.controller == req.controller && v.index == req.index)
  }

  // It was made for this very request, in its place and under its id.
  predicate ClaimedBy(r: HostRecord, req: HookRequest) {
    && r.payload.body.ReservationBody? && r.payload.body.reservation.request == req
    && r.payload.body.reservation.dispatchId == req.dispatchId
    && r.payload.body.reservation.controller == req.controller && r.payload.body.reservation.index == req.index
  }

  lemma {:induction false} ScanExactly(history: seq<HostRecord>, req: HookRequest)
    ensures forall k :: FirstClaim(history, req, k) ==>
              ScanReplay(history, req) == if ClaimedBy(history[k], req) then Replayed(history[k]) else Conflict
    ensures !ScanReplay(history, req).NoReplay? ==> exists k :: FirstClaim(history, req, k)
  {
    if history != [] {
      if Claims(history[0], req) {
        assert FirstClaim(history, req, 0);
      } else {
        ScanExactly(history[1..], req);
        assert forall i :: 0 <= i < |history| - 1 ==> history[1..][i] == history[i + 1];
        forall k | FirstClaim(history, req, k) ensures FirstClaim(history[1..], req, k - 1) {}
        if !ScanReplay(history, req).NoReplay? {
          var k :| FirstClaim(history[1..], req, k);
          assert FirstClaim(history, req, k + 1);
        }
      }
    }
  }

  // A request is answered from the record if and only if the run exists, names
  // its repository, and the first reservation it collides with is its own.
  lemma ReplaysExactly(core: seq<CoreModel.Record>, history: seq<HostRecord>, req: HookRequest, env: Envelope,
            docs: Docs, s: Sight, r: HostRecord)
    ensures Decide(core, history, req, env, docs, s) == Replay(r) <==>
              && core != [] && (exists k :: 0 <= k < |history| && BoundAt(history, k) && history[k].payload.body.root == req.liveRoot)
              && exists k :: FirstClaim(history, req, k) && history[k] == r && ClaimedBy(r, req)
  {
    RootIsFirst(history);
    ScanExactly(history, req);
  }

  // ---- the route ----

  // The unit's latest implementation preflight.
  predicate LatestCheck(history: seq<HostRecord>, unit: string, k: int) {
    && 0 <= k < |history| && ChecksUnit(history[k], unit)
    && forall i :: k < i < |history| ==> !ChecksUnit(history[i], unit)
  }

  predicate ChecksUnit(r: HostRecord, unit: string) {
    r.payload.body.PreflightBody? && r.payload.body.preflight.unit == unit && r.payload.body.preflight.implementation
  }

  // It found the worker available, has not expired, and its route is the one
  // that both the request and the envelope name in full.
  predicate Usable(history: seq<HostRecord>, unit: string, requested: AttemptRoute, enveloped: AttemptRoute, now: int, k: int) {
    && LatestCheck(history, unit, k)
    && var p := history[k].payload.body.preflight;
       && p.available && p.expiresAt.At? && now < p.expiresAt.time
       && requested == AttemptRoute(p.route.worker, Some(p.route.model), Some(p.route.effort))
       && enveloped == requested
  }

  lemma {:induction false} LatestCheckIs(history: seq<HostRecord>, unit: string)
    ensures forall k :: LatestCheck(history, unit, k) ==> LatestPreflight(history, unit) == Some(history[k].payload.body.preflight)
    ensures LatestPreflight(history, unit).Some? ==> exists k :: LatestCheck(history, unit, k)
  {
    if history != [] {
      var n := |history| - 1;
      if ChecksUnit(history[n], unit) {
        assert LatestCheck(history, unit, n);
      } else {
        LatestCheckIs(history[..n], unit);
        forall k ensures LatestCheck(history, unit, k) <==> LatestCheck(history[..n], unit, k) {
          CheckShrinks(history, unit, k);
        }
        if LatestPreflight(history, unit).Some? {
          var k :| LatestCheck(history[..n], unit, k);
          assert LatestCheck(history, unit, k);
        }
      }
    }
  }

  lemma CheckShrinks(history: seq<HostRecord>, unit: string, k: int)
    requires history != [] && !ChecksUnit(history[|history| - 1], unit)
    ensures LatestCheck(history, unit, k) <==> LatestCheck(history[..|history| - 1], unit, k)
  {
  }

  // There is a route for an attempt if and only if the latest preflight is
  // usable, and then it is that preflight's.
  lemma RouteExactly(history: seq<HostRecord>, unit: string, requested: AttemptRoute, enveloped: AttemptRoute, now: int)
    ensures RouteFor(history, unit, requested, enveloped, now).Some? <==> exists k :: Usable(history, unit, requested, enveloped, now, k)
    ensures forall k :: Usable(history, unit, requested, enveloped, now, k) ==>
              RouteFor(history, unit, requested, enveloped, now) == Some(history[k].payload.body.preflight)
  {
    LatestCheckIs(history, unit);
    if RouteFor(history, unit, requested, enveloped, now).Some? {
      var k :| LatestCheck(history, unit, k);
      assert Usable(history, unit, requested, enveloped, now, k);
    }
  }

  // ---- under a lease ----

  // A decision that gets past every refusal before the lease.
  lemma DecidesUnderLease(core: seq<CoreModel.Record>, history: seq<HostRecord>, req: HookRequest, env: Envelope,
            docs: Docs, s: Sight, p: Preflight, lease: Lease)
    requires EarlyRefusal(core, history, req, s).None? && !ScanReplay(history, req).Replayed?
    requires RouteFor(history, req.unit, req.route, env.route, s.now) == Some(p) && p.expiresAt.At?
    requires Derived(LeaseRequest(core, req.unit, docs, CountersOf(history, req.unit), s.now, p.route)) == Active(lease)
    ensures Decide(core, history, req, env, docs, s) == DecideUnderLease(core, history, req, env, docs, s.now, lease, p)
  {
  }

  // No recorded observation of the policy applies to the generation.
  ghost predicate Unrevoked(core: seq<CoreModel.Record>, history: seq<HostRecord>, policy: string, issuer: int) {
    forall k :: 0 <= k < |history| ==> !Applies(core, history[k], policy, issuer)
  }

  lemma UnrevokedExactly(core: seq<CoreModel.Record>, history: seq<HostRecord>, policy: string, issuer: int)
    ensures PolicyEnd(core, history, policy, issuer).None? <==> Unrevoked(core, history, policy, issuer)
  {
    PolicyEndIsEarliest(core, history, policy, issuer);
    assert forall k :: 0 <= k < |history| ==> history[k] in history;
  }

  // What every attempt of the unit rests on: a usable preflight and an approval
  // that authorizes its route now, on a policy not recorded as replaced.
  ghost predicate Backed(core: seq<CoreModel.Record>, history: seq<HostRecord>, unit: string, requested: AttemptRoute,
            enveloped: AttemptRoute, docs: Docs, counters: Counters, now: int, k: int, issuer: int) {
    && Usable(history, unit, requested, enveloped, now, k)
    && Authorizes(LeaseRequest(core, unit, docs, counters, now, history[k].payload.body.preflight.route), issuer)
    && docs.plan.Some? && Unrevoked(core, history, docs.plan.value.policyDigest, core[issuer].sequence)
  }

  // The lease an authorizing approval derives.
  lemma AuthorizedLease(lr: Request, issuer: int) returns (lease: Lease)
    requires Authorizes(lr, issuer)
    ensures Derived(lr) == Active(lease) && lease == LeaseOf(lr, lr.records[issuer], UnitFor(lr))
  {
    AuthorizedIsActive(lr, issuer);
    var i := ActiveStands(lr);
    lease := Derived(lr).lease;
  }

  lemma BackedDecides(core: seq<CoreModel.Record>, history: seq<HostRecord>, req: HookRequest, env: Envelope,
            docs: Docs, s: Sight, k: int, issuer: int) returns (lease: Lease, p: Preflight)
    requires Open(core, history, req, s)
    requires Backed(core, history, req.unit, req.route, env.route, docs, CountersOf(history, req.unit), s.now, k, issuer)
    ensures p == history[k].payload.body.preflight && p.expiresAt.At?
    ensures LeaseHeldBy(core, docs, req.unit, issuer, lease)
    ensures PolicyEnd(core, history, lease.policyDigest, lease.issuerSequence).None?
    ensures Decide(core, history, req, env, docs, s) == DecideUnderLease(core, history, req, env, docs, s.now, lease, p)
  {
    p := history[k].payload.body.preflight;
    OpenExactly(core, history, req, s);
    RouteExactly(history, req.unit, req.route, env.route, s.now);
    lease := AuthorizedLease(LeaseRequest(core, req.unit, docs, CountersOf(history, req.unit), s.now, p.route), issuer);
    UnrevokedExactly(core, history, lease.policyDigest, lease.issuerSequence);
    DecidesUnderLease(core, history, req, env, docs, s, p, lease);
  }

  // The terms of the lease the approval at issuer gives.
  predicate LeaseHeldBy(core: seq<CoreModel.Record>, docs: Docs, unit: string, issuer: int, lease: Lease) {
    && 0 <= issuer < |core| && docs.plan.Some? && UnitOf(docs.plan.value.units, unit).Some?
    && core[issuer].payload.approval.Some? && core[issuer].payload.approval.value.timestamp.At?
    && lease.issuerSequence == core[issuer].sequence && lease.issuerAnchor == core[issuer].headAnchor
    && lease.digest == LeaseDigest(core[issuer].payload.approval.value.transitionDigest, unit, DigestOfPlan(docs.plan.value))
    && lease.budgets == UnitOf(docs.plan.value.units, unit).value.budgets && lease.policyDigest == docs.plan.value.policyDigest
    && lease.validUntil == core[issuer].payload.approval.value.timestamp.time + lease.budgets.maxWallMinutes * 60_000_000_000
  }

  // A decision to admit or charge was backed.
  lemma DecidedIsBacked(core: seq<CoreModel.Record>, history: seq<HostRecord>, req: HookRequest, env: Envelope,
            docs: Docs, s: Sight) returns (k: int, issuer: int)
    requires Charges(Decide(core, history, req, env, docs, s))
    ensures Open(core, history, req, s)
    ensures Backed(core, history, req.unit, req.route, env.route, docs, CountersOf(history, req.unit), s.now, k, issuer)
  {
    OpenExactly(core, history, req, s);
    RouteExactly(history, req.unit, req.route, env.route, s.now);
    k :| Usable(history, req.unit, req.route, env.route, s.now, k);
    var p := history[k].payload.body.preflight;
    var lr := LeaseRequest(core, req.unit, docs, CountersOf(history, req.unit), s.now, p.route);
    ChargedUnderLease(core, history, req, env, docs, s, p);
    issuer := ActiveAuthorizes(lr);
    var lease := AuthorizedLease(lr, issuer);
    UnrevokedExactly(core, history, lease.policyDigest, lease.issuerSequence);
  }

  lemma ChargedUnderLease(core: seq<CoreModel.Record>, history: seq<HostRecord>, req: HookRequest, env: Envelope,
            docs: Docs, s: Sight, p: Preflight)
    requires Charges(Decide(core, history, req, env, docs, s))
    requires RouteFor(history, req.unit, req.route, env.route, s.now) == Some(p)
    ensures
      var lr := LeaseRequest(core, req.unit, docs, CountersOf(history, req.unit), s.now, p.route);
      && IsActive(lr)
      && PolicyEnd(core, history, Derived(lr).lease.policyDigest, Derived(lr).lease.issuerSequence).None?
  {
  }

  // The controller's latest admission.
  predicate LatestAdmitted(history: seq<HostRecord>, controller: string, k: int) {
    && 0 <= k < |history| && AdmitsController(history[k], controller)
    && forall i :: k < i < |history| ==> !AdmitsController(history[i], controller)
  }

  predicate AdmitsController(r: HostRecord, controller: string) {
    r.payload.body.AdmissionBody? && r.payload.body.admission.controller == controller
  }

  lemma {:induction false} LatestAdmittedIs(history: seq<HostRecord>, controller: string)
    ensures forall k :: LatestAdmitted(history, controller, k) ==> LatestAdmission(history, controller) == Some(history[k])
    ensures LatestAdmission(history, controller).Some? ==> exists k :: LatestAdmitted(history, controller, k)
  {
    if history != [] {
      var n := |history| - 1;
      if AdmitsController(history[n], controller) {
        assert LatestAdmitted(history, controller, n);
      } else {
        LatestAdmittedIs(history[..n], controller);
        forall k ensures LatestAdmitted(history, controller, k) <==> LatestAdmitted(history[..n], controller, k) {
          AdmittedShrinks(history, controller, k);
        }
        if LatestAdmission(history, controller).Some? {
          var k :| LatestAdmitted(history[..n], controller, k);
          assert LatestAdmitted(history, controller, k);
        }
      }
    }
  }

  lemma AdmittedShrinks(history: seq<HostRecord>, controller: string, k: int)
    requires history != [] && !AdmitsController(history[|history| - 1], controller)
    ensures LatestAdmitted(history, controller, k) <==> LatestAdmitted(history[..|history| - 1], controller, k)
  {
  }

  // What an admission under the lease says.
  function AdmissionUnder(req: HookRequest, lease: Lease): Admitted {
    Admitted(req.unit, req.controller, req.envelope, req.liveRoot, req.cloneBaseline, req.namespace,
             Generation(lease.issuerSequence, lease.issuerAnchor, lease.digest))
  }

  // The controller's envelope asks for no more than the lease has left: attempts
  // over the unit's, minutes to the lease's end, and spend in US dollars.
  predicate Fits(env: Envelope, lease: Lease, counters: Counters, docs: Docs, now: int) {
    && env.escalateStop && 1 <= env.maxAttempts && counters.attempts + env.maxAttempts <= lease.budgets.maxAttempts
    && 0.0 < env.maxMinutes && now as real + env.maxMinutes * 60_000_000_000.0 <= lease.validUntil as real
    && docs.contract.Some? && docs.contract.value.costUnit == "usd"
    && 0.0 <= env.spendCap && counters.costSpent as real + env.spendCap <= lease.budgets.costCeiling as real
  }

  // No earlier reservation of the unit was made for the same failure.
  predicate NewFailure(history: seq<HostRecord>, req: HookRequest) {
    req.failureSignature.Some? && req.failureSignature.value != "" ==>
      forall i :: 0 <= i < |history| && history[i].payload.body.ReservationBody? && history[i].payload.body.reservation.unit == req.unit ==>
        history[i].payload.body.reservation.failureSignature != req.failureSignature.value
  }

  // The least whole number that is no less.
  predicate RoundedUp(cost: int, x: real) {
    cost as real - 1.0 < x <= cost as real
  }

  // The first whole second that is no earlier.
  predicate NextSecond(from: int, now: int) {
    now <= from < now + 1_000_000_000 && from % 1_000_000_000 == 0
  }

  lemma Rounding(env: Envelope, now: int)
    ensures forall cost: int :: RoundedUp(cost, env.perAttempt) <==> cost == Ceil(env.perAttempt)
    ensures forall from: int :: NextSecond(from, now) <==> from == WholeSecond(now)
  {
    forall from: int | NextSecond(from, now) ensures from == WholeSecond(now) {
      assert from / SECOND == WholeSecond(now) / SECOND;
    }
  }

  lemma FitsExactly(env: Envelope, lease: Lease, counters: Counters, docs: Docs, now: int)
    ensures EnvelopeFits(env, lease, counters, docs, now) <==> Fits(env, lease, counters, docs, now)
  {
  }

  lemma AdmitUnderLease(core: seq<CoreModel.Record>, history: seq<HostRecord>, req: HookRequest, env: Envelope,
            docs: Docs, now: int, lease: Lease, p: Preflight)
    requires p.expiresAt.At? && PolicyEnd(core, history, lease.policyDigest, lease.issuerSequence).None?
    ensures
      var d := DecideUnderLease(core, history, req, env, docs, now, lease, p);
      && (d.Admit? <==> AdmitTerms(history, req, env, docs, now, lease))
      && (d.Admit? ==> d.admission == AdmissionUnder(req, lease))
  {
    LatestAdmittedIs(history, req.controller);
    NoneAdmitted(history, req.controller);
    FitsExactly(env, lease, CountersOf(history, req.unit), docs, now);
  }

  lemma {:induction false} NoneAdmitted(history: seq<HostRecord>, controller: string)
    ensures LatestAdmission(history, controller).None? <==> forall k :: 0 <= k < |history| ==> !AdmitsController(history[k], controller)
  {
    if history != [] {
      NoneAdmitted(history[..|history| - 1], controller);
      assert forall k :: 0 <= k < |history| - 1 ==> history[..|history| - 1][k] == history[k];
    }
  }

  lemma ChargeUnderLease(core: seq<CoreModel.Record>, history: seq<HostRecord>, req: HookRequest, env: Envelope,
            docs: Docs, now: int, lease: Lease, p: Preflight)
    requires p.expiresAt.At? && PolicyEnd(core, history, lease.policyDigest, lease.issuerSequence).None?
    ensures
      var d := DecideUnderLease(core, history, req, env, docs, now, lease, p);
      && (d.Charge? <==> ChargeTerms(history, req, env, now, lease, p))
      && (d.Charge? ==> d.reservation.cost == Ceil(env.perAttempt) && d.reservation.validFrom == At(WholeSecond(now)))
  {
    LatestAdmittedIs(history, req.controller);
    AdmissionExactly(history, req, lease);
    Rounding(env, now);
    assert RoundedUp(Ceil(env.perAttempt), env.perAttempt) && NextSecond(WholeSecond(now), now);
    NewFailureExactly(history, req);
  }

  lemma AdmissionExactly(history: seq<HostRecord>, req: HookRequest, lease: Lease)
    ensures (exists k :: LatestAdmitted(history, req.controller, k) && history[k].payload.body.admission == AdmissionUnder(req, lease)) <==>
              var adm := LatestAdmission(history, req.controller);
              adm.Some? && SameAssociation(adm.value.payload.body.admission, req, lease)
  {
    LatestAdmittedIs(history, req.controller);
    if LatestAdmission(history, req.controller).Some? {
      var k :| LatestAdmitted(history, req.controller, k);
      assert history[k].payload.body.admission.controller == req.controller;
    }
  }

  lemma NewFailureExactly(history: seq<HostRecord>, req: HookRequest)
    ensures NewFailure(history, req) <==> SignatureOf(req) == "" || !FailedBefore(history, req.unit, SignatureOf(req))
  {
  }

  // No admission of the controller yet, and an envelope that fits.
  predicate AdmitTerms(history: seq<HostRecord>, req: HookRequest, env: Envelope, docs: Docs, now: int, lease: Lease) {
    && (forall k :: 0 <= k < |history| ==> !AdmitsController(history[k], req.controller))
    && Fits(env, lease, CountersOf(history, req.unit), docs, now)
  }

  // Admitted as this request under this lease, for a new failure, at a cost
  // that is left, and in time.
  ghost predicate ChargeTerms(history: seq<HostRecord>, req: HookRequest, env: Envelope, now: int, lease: Lease, p: Preflight)
    requires p.expiresAt.At?
  {
    && (exists k :: LatestAdmitted(history, req.controller, k) && history[k].payload.body.admission == AdmissionUnder(req, lease))
    && NewFailure(history, req)
    && (exists cost: int :: RoundedUp(cost, env.perAttempt) && 0 <= cost
          && CountersOf(history, req.unit).costSpent + cost <= lease.budgets.costCeiling)
    && (exists from: int :: NextSecond(from, now) && from < lease.validUntil && from < p.expiresAt.time)
  }

  // ---- exactly ----

  // The preflight at k, and the lease the approval at issuer gives, back it.
  ghost predicate Leased(core: seq<CoreModel.Record>, history: seq<HostRecord>, req: HookRequest, env: Envelope, docs: Docs,
            s: Sight, k: int, issuer: int, lease: Lease) {
    && Open(core, history, req, s)
    && Backed(core, history, req.unit, req.route, env.route, docs, CountersOf(history, req.unit), s.now, k, issuer)
    && LeaseHeldBy(core, docs, req.unit, issuer, lease)
  }

  lemma DecidedIsLeased(core: seq<CoreModel.Record>, history: seq<HostRecord>, req: HookRequest, env: Envelope,
            docs: Docs, s: Sight) returns (k: int, issuer: int, lease: Lease, p: Preflight)
    requires Charges(Decide(core, history, req, env, docs, s))
    ensures Leased(core, history, req, env, docs, s, k, issuer, lease) && p == history[k].payload.body.preflight && p.expiresAt.At?
    ensures PolicyEnd(core, history, lease.policyDigest, lease.issuerSequence).None?
    ensures Decide(core, history, req, env, docs, s) == DecideUnderLease(core, history, req, env, docs, s.now, lease, p)
  {
    k, issuer := DecidedIsBacked(core, history, req, env, docs, s);
    lease, p := BackedDecides(core, history, req, env, docs, s, k, issuer);
  }

  // The hook admits a controller if and only if the request is open, a usable
  // preflight and an authorizing approval back it, it has no admission yet, and
  // its envelope fits what is left.
  lemma AdmitsExactly(core: seq<CoreModel.Record>, history: seq<HostRecord>, req: HookRequest, env: Envelope,
            docs: Docs, s: Sight)
    ensures Decide(core, history, req, env, docs, s).Admit? <==>
              exists k, issuer, lease ::
                Leased(core, history, req, env, docs, s, k, issuer, lease) && AdmitTerms(history, req, env, docs, s.now, lease)
  {
    if Decide(core, history, req, env, docs, s).Admit? {
      var k, issuer, lease, p := DecidedIsLeased(core, history, req, env, docs, s);
      AdmitUnderLease(core, history, req, env, docs, s.now, lease, p);
    }
    forall k, issuer, lease |
      Leased(core, history, req, env, docs, s, k, issuer, lease) && AdmitTerms(history, req, env, docs, s.now, lease)
      ensures Decide(core, history, req, env, docs, s).Admit?
    {
      LeasedAdmits(core, history, req, env, docs, s, k, issuer, lease);
    }
  }

  lemma LeasedAdmits(core: seq<CoreModel.Record>, history: seq<HostRecord>, req: HookRequest, env: Envelope,
            docs: Docs, s: Sight, k: int, issuer: int, held: Lease)
    requires Leased(core, history, req, env, docs, s, k, issuer, held) && AdmitTerms(history, req, env, docs, s.now, held)
    ensures Decide(core, history, req, env, docs, s).Admit?
  {
    var lease, p := BackedDecides(core, history, req, env, docs, s, k, issuer);
    SameFit(env, lease, held, CountersOf(history, req.unit), docs, s.now);
    AdmitUnderLease(core, history, req, env, docs, s.now, lease, p);
  }

  lemma SameFit(env: Envelope, a: Lease, b: Lease, counters: Counters, docs: Docs, now: int)
    requires a.budgets == b.budgets && a.validUntil == b.validUntil
    ensures Fits(env, a, counters, docs, now) <==> Fits(env, b, counters, docs, now)
  {
  }

  // And it charges one attempt if and only if, backed in the same way, it was
  // admitted under this very generation, for a new failure, at a cost that is
  // left, and in time.
  lemma ChargesExactly(core: seq<CoreModel.Record>, history: seq<HostRecord>, req: HookRequest, env: Envelope,
            docs: Docs, s: Sight)
    ensures Decide(core, history, req, env, docs, s).Charge? <==>
              exists k, issuer, lease ::
                && Leased(core, history, req, env, docs, s, k, issuer, lease)
                && ChargeTerms(history, req, env, s.now, lease, history[k].payload.body.preflight)
  {
    if Decide(core, history, req, env, docs, s).Charge? {
      var k, issuer, lease, p := DecidedIsLeased(core, history, req, env, docs, s);
      ChargeUnderLease(core, history, req, env, docs, s.now, lease, p);
    }
    forall k, issuer, lease |
      && Leased(core, history, req, env, docs, s, k, issuer, lease)
      && ChargeTerms(history, req, env, s.now, lease, history[k].payload.body.preflight)
      ensures Decide(core, history, req, env, docs, s).Charge?
    {
      LeasedCharges(core, history, req, env, docs, s, k, issuer, lease);
    }
  }

  lemma LeasedCharges(core: seq<CoreModel.Record>, history: seq<HostRecord>, req: HookRequest, env: Envelope,
            docs: Docs, s: Sight, k: int, issuer: int, held: Lease)
    requires Leased(core, history, req, env, docs, s, k, issuer, held)
    requires ChargeTerms(history, req, env, s.now, held, history[k].payload.body.preflight)
    ensures Decide(core, history, req, env, docs, s).Charge?
  {
    var lease, p := BackedDecides(core, history, req, env, docs, s, k, issuer);
    SameTerms(history, req, env, s.now, lease, held, p);
    ChargeUnderLease(core, history, req, env, docs, s.now, lease, p);
  }

  lemma SameTerms(history: seq<HostRecord>, req: HookRequest, env: Envelope, now: int, a: Lease, b: Lease, p: Preflight)
    requires p.expiresAt.At? && a.budgets == b.budgets && a.validUntil == b.validUntil
    requires a.issuerSequence == b.issuerSequence && a.issuerAnchor == b.issuerAnchor && a.digest == b.digest
    ensures ChargeTerms(history, req, env, now, a, p) <==> ChargeTerms(history, req, env, now, b, p)
  {
    assert AdmissionUnder(req, a) == AdmissionUnder(req, b);
  }

  // A usable preflight, and an approval of the reservation's own generation that
  // authorizes its route now, on a policy not recorded as replaced.
  ghost predicate LaunchBacked(core: seq<CoreModel.Record>, history: seq<HostRecord>, v: Reserved, req: HookRequest,
            docs: Docs, now: int, k: int, issuer: int) {
    && Usable(history, v.unit, req.route, req.route, now, k)
    && Authorizes(LeaseRequest(core, v.unit, docs, Counters(0, 0), now, history[k].payload.body.preflight.route), issuer)
    && core[issuer].headAnchor == v.generation.issuerAnchor
    && docs.plan.Some? && Unrevoked(core, history, docs.plan.value.policyDigest, v.generation.issuerSequence)
  }

  // A reservation may still launch if and only if it is backed in that way, in
  // its time, and with no trace in the controller's ledger.
  lemma StillEligibleExactly(core: seq<CoreModel.Record>, history: seq<HostRecord>, v: Reserved, req: HookRequest,
            docs: Docs, s: Sight)
    ensures StillEligible(core, history, v, req, docs, s) <==>
              && !s.used && v.validUntil.At? && s.now < v.validUntil.time
              && exists k, issuer :: LaunchBacked(core, history, v, req, docs, s.now, k, issuer)
  {
    if StillEligible(core, history, v, req, docs, s) {
      var k, issuer := EligibleIsBacked(core, history, v, req, docs, s);
    }
    if k, issuer :| LaunchBacked(core, history, v, req, docs, s.now, k, issuer) {
      BackedIsEligible(core, history, v, req, docs, s, k, issuer);
    }
  }

  lemma EligibleIsBacked(core: seq<CoreModel.Record>, history: seq<HostRecord>, v: Reserved, req: HookRequest,
            docs: Docs, s: Sight) returns (k: int, issuer: int)
    requires StillEligible(core, history, v, req, docs, s)
    ensures LaunchBacked(core, history, v, req, docs, s.now, k, issuer)
  {
    RouteExactly(history, v.unit, req.route, req.route, s.now);
    k :| Usable(history, v.unit, req.route, req.route, s.now, k);
    var lr := LeaseRequest(core, v.unit, docs, Counters(0, 0), s.now, history[k].payload.body.preflight.route);
    issuer := ActiveAuthorizes(lr);
    var lease := AuthorizedLease(lr, issuer);
    UnrevokedExactly(core, history, lease.policyDigest, v.generation.issuerSequence);
  }

  lemma BackedIsEligible(core: seq<CoreModel.Record>, history: seq<HostRecord>, v: Reserved, req: HookRequest,
            docs: Docs, s: Sight, k: int, issuer: int)
    requires LaunchBacked(core, history, v, req, docs, s.now, k, issuer)
    ensures !s.used && v.validUntil.At? && s.now < v.validUntil.time ==> StillEligible(core, history, v, req, docs, s)
  {
    RouteExactly(history, v.unit, req.route, req.route, s.now);
    var lr := LeaseRequest(core, v.unit, docs, Counters(0, 0), s.now, history[k].payload.body.preflight.route);
    var lease := AuthorizedLease(lr, issuer);
    UnrevokedExactly(core, history, lease.policyDigest, v.generation.issuerSequence);
  }

  // An open request is refused for its route if and only if no preflight is
  // usable.
  lemma RouteMismatchExactly(core: seq<CoreModel.Record>, history: seq<HostRecord>, req: HookRequest, env: Envelope,
            docs: Docs, s: Sight)
    ensures Decide(core, history, req, env, docs, s) == Refuse(AttemptRouteMismatch) <==>
              Open(core, history, req, s) && forall k :: !Usable(history, req.unit, req.route, env.route, s.now, k)
  {
    OpenExactly(core, history, req, s);
    RouteExactly(history, req.unit, req.route, env.route, s.now);
    RefusesOtherwise(core, history, req, env, docs, s);
  }

  lemma RefusesOtherwise(core: seq<CoreModel.Record>, history: seq<HostRecord>, req: HookRequest, env: Envelope,
            docs: Docs, s: Sight)
    ensures EarlyRefusal(core, history, req, s) != Some(AttemptRouteMismatch)
    ensures RouteFor(history, req.unit, req.route, env.route, s.now).Some? ==>
              DecideNew(core, history, req, env, docs, s.now) != Refuse(AttemptRouteMismatch)
  {
    var p := RouteFor(history, req.unit, req.route, env.route, s.now);
    if p.Some? {
      NoRouteRefusal(core, history, req, env, docs, s.now, p.value,
                     Derived(LeaseRequest(core, req.unit, docs, CountersOf(history, req.unit), s.now, p.value.route)));
    }
  }

  lemma NoRouteRefusal(core: seq<CoreModel.Record>, history: seq<HostRecord>, req: HookRequest, env: Envelope,
            docs: Docs, now: int, p: Preflight, d: Derivation)
    requires p.expiresAt.At?
    ensures DecideOn(core, history, req, env, docs, now, p, d) != Refuse(AttemptRouteMismatch)
  {
  }

  // What the hook files when it grants an attempt, and whether it may launch:
  // only if its second look still finds no trace in the ledger and a clock
  // before both the lease's end and the preflight's.
  lemma FreshGrantExactly(runId: string, core: seq<CoreModel.Record>, history: seq<HostRecord>, req: HookRequest,
            env: Envelope, docs: Docs, s: Sight, after: Sight, out: Attempts.Outcome, log: seq<HostRecord>) returns (k: int)
    requires Attempted(runId, core, history, req, env, docs, s, after, out, log) && out.Granted? && !out.result.replay
    ensures Usable(history, req.unit, req.route, env.route, s.now, k)
    ensures |log| == |history| + 1 && log[..|history|] == history && log[|history|].headAnchor == out.result.reservation
    ensures log[|history|].payload.body.ReservationBody? && out.result.validUntil.At?
    ensures log[|history|].payload.body.reservation.validUntil == out.result.validUntil
    ensures out.result.eligible <==>
              && !after.used && after.now < out.result.validUntil.time
              && after.now < history[k].payload.body.preflight.expiresAt.time
  {
    var issuer, lease, p;
    GrantIsCharge(runId, core, history, req, docs, s, after, Decide(core, history, req, env, docs, s), out, log);
    k, issuer, lease, p := DecidedIsLeased(core, history, req, env, docs, s);
    ChargeEnds(core, history, req, env, docs, s.now, lease, p);
  }

  lemma GrantIsCharge(runId: string, core: seq<CoreModel.Record>, history: seq<HostRecord>, req: HookRequest,
            docs: Docs, s: Sight, after: Sight, d: Decision, out: Attempts.Outcome, log: seq<HostRecord>)
    requires Yields(runId, core, history, req, docs, s, after, d, out, log) && out.Granted? && !out.result.replay
    ensures d.Charge? && |log| == |history| + 1 && log[..|history|] == history
    ensures log[|history|].payload.body == ReservationBody(d.reservation) && log[|history|].headAnchor == out.result.reservation
    ensures out.result.validUntil == At(d.until)
    ensures out.result.eligible <==> !after.used && after.now < d.until && after.now < d.preflightUntil
  {
  }

  lemma ChargeEnds(core: seq<CoreModel.Record>, history: seq<HostRecord>, req: HookRequest, env: Envelope,
            docs: Docs, now: int, lease: Lease, p: Preflight)
    requires p.expiresAt.At? && DecideUnderLease(core, history, req, env, docs, now, lease, p).Charge?
    ensures
      var d := DecideUnderLease(core, history, req, env, docs, now, lease, p);
      d.preflightUntil == p.expiresAt.time && d.reservation.validUntil == At(d.until)
  {
  }

  // The hook files a change of policy if and only if it was given a plan and
  // another policy, and no observation on record applies to the latest
  // generation of any lease.
  lemma PolicyChangeExactly(core: seq<CoreModel.Record>, history: seq<HostRecord>, docs: Docs, now: int)
    ensures PolicyChange(core, history, docs, now).Some? <==>
              && docs.plan.Some? && docs.plan.value.policyDigest != docs.policyDigest
              && Unrevoked(core, history, docs.plan.value.policyDigest, LatestGeneration(core))
    ensures PolicyChange(core, history, docs, now).Some? ==>
              var c := PolicyChange(core, history, docs, now).value;
              c.body == PolicyRevocationBody(docs.plan.value.policyDigest, docs.policyDigest) && c.timestamp == At(now)
  {
    if docs.plan.Some? {
      UnrevokedExactly(core, history, docs.plan.value.policyDigest, LatestGeneration(core));
    }
  }

  // ---- counting ----

  predicate Spends(r: HostRecord, unit: string) {
    r.payload.body.ReservationBody? && r.payload.body.reservation.unit == unit
  }

  // Each reservation of the unit counts once, wherever it stands.
  lemma {:induction false} CountersAdd(a: seq<HostRecord>, b: seq<HostRecord>, unit: string)
    ensures CountersOf(a + b, unit).attempts == CountersOf(a, unit).attempts + CountersOf(b, unit).attempts
    ensures CountersOf(a + b, unit).costSpent == CountersOf(a, unit).costSpent + CountersOf(b, unit).costSpent
  {
    if b == [] {
      assert a + b == a;
    } else {
      CountersAdd(a, b[..|b| - 1], unit);
      assert (a + b)[..|a + b| - 1] == a + b[..|b| - 1];
    }
  }

  lemma CountersOfOne(r: HostRecord, unit: string)
    ensures CountersOf([r], unit) == if Spends(r, unit) then Counters(1, r.payload.body.reservation.cost) else Counters(0, 0)
  {
    assert [r][..0] == [];
  }
}
