// A granted launch that a review packet shadows: how a run gets there
// (cmd/hma/attempt.go with internal/host/host.go and internal/host/reconcile.go).
module Shadowing {
  import opened Vocabulary
  import opened HostModel
  import opened Leases
  import opened Attempts
  import opened HookRuns
  import opened HookResults
  import CoreModel
  import HostStore
  import Reconciling

  // Capacity is not asked again of a charged slot.
  lemma ActiveUncounted(lr: Request) returns (free: Request)
    requires IsActive(lr)
    ensures free == lr.(counters := Counters(0, 0))
    ensures IsActive(free) && Derived(free).lease == Derived(lr).lease
  {
    free := lr.(counters := Counters(0, 0));
    ActiveExactly(lr);
    var issuer: int :| Authorizes(lr, issuer);
    AuthorizesUncounted(lr, free, issuer);
    ActiveExactly(free);
    var i := ActiveStands(lr);
    var j := ActiveStands(free);
  }

  lemma AuthorizesUncounted(lr: Request, free: Request, issuer: int)
    requires Authorizes(lr, issuer) && free == lr.(counters := Counters(0, 0))
    ensures Authorizes(free, issuer)
  {
    CarriedUncounted(lr, free, issuer);
    RouteUncounted(lr, free, issuer);
  }

  lemma CarriedUncounted(lr: Request, free: Request, issuer: int)
    requires Carried(lr, issuer) && Untouched(lr, issuer) && free == lr.(counters := Counters(0, 0))
    ensures Carried(free, issuer) && Untouched(free, issuer)
  {
  }

  lemma RouteUncounted(lr: Request, free: Request, issuer: int)
    requires Carried(lr, issuer) && OnApprovedRoute(lr, issuer) && free == lr.(counters := Counters(0, 0))
    requires Carried(free, issuer)
    ensures OnApprovedRoute(free, issuer)
  {
  }

  // Records that say nothing about preflights, roots or policies.
  predicate Mute(r: HostRecord) {
    r.payload.body.PacketBody? || r.payload.body.ReservationBody?
  }

  lemma MuteKeepsEligible(core: seq<CoreModel.Record>, history: seq<HostRecord>, r: HostRecord, v: Reserved,
            req: HookRequest, docs: Docs, s: Sight)
    requires Mute(r)
    ensures StillEligible(core, history + [r], v, req, docs, s) <==> StillEligible(core, history, v, req, docs, s)
  {
    assert (history + [r])[..|history|] == history;
  }

  // What a charge rests on, as a replay asks for it.
  lemma ChargeAsReplay(core: seq<CoreModel.Record>, history: seq<HostRecord>, req: HookRequest, env: Envelope,
            docs: Docs, s: Sight) returns (lr: Request, lease: Lease, p: Preflight)
    requires Decide(core, history, req, env, docs, s).Charge?
    ensures lr == LeaseRequest(core, req.unit, docs, CountersOf(history, req.unit), s.now, p.route)
    ensures IsActive(lr) && Derived(lr).lease == lease
    ensures RouteFor(history, req.unit, req.route, req.route, s.now) == Some(p) && p.expiresAt.At?
    ensures Decide(core, history, req, env, docs, s) == DecideUnderLease(core, history, req, env, docs, s.now, lease, p)
  {
    p := RouteFor(history, req.unit, req.route, env.route, s.now).value;
    lr := LeaseRequest(core, req.unit, docs, CountersOf(history, req.unit), s.now, p.route);
    lease := Derived(lr).lease;
  }

  lemma LeaseIsEligible(core: seq<CoreModel.Record>, history: seq<HostRecord>, v: Reserved, req: HookRequest,
            docs: Docs, s: Sight, free: Request, lease: Lease, p: Preflight)
    requires RouteFor(history, v.unit, req.route, req.route, s.now) == Some(p)
    requires free == LeaseRequest(core, v.unit, docs, Counters(0, 0), s.now, p.route)
    requires Derived(free) == Active(lease) && v.generation == GenerationOf(lease)
    requires v.validUntil == At(lease.validUntil) && s.now < lease.validUntil && !s.used
    requires PolicyEnd(core, history, lease.policyDigest, lease.issuerSequence).None?
    ensures StillEligible(core, history, v, req, docs, s)
  {
  }

  // A charge just granted may still launch at the time it was decided.
  lemma ChargedIsEligible(core: seq<CoreModel.Record>, history: seq<HostRecord>, req: HookRequest, env: Envelope,
            docs: Docs, s: Sight, v: Reserved)
    requires Decide(core, history, req, env, docs, s).Charge?
    requires v == Decide(core, history, req, env, docs, s).reservation
    ensures StillEligible(core, history, v, req, docs, s.(used := false))
  {
    var lr, lease, p := ChargeAsReplay(core, history, req, env, docs, s);
    ChargeReads(core, history, req, env, docs, s.now, lease, p);
    ChargeInTime(core, history, req, env, docs, s.now, lease, p);
    var free := ActiveUncounted(lr);
    LeaseIsEligible(core, history, v, req, docs, s.(used := false), free, lease, p);
  }

  lemma ChargeInTime(core: seq<CoreModel.Record>, history: seq<HostRecord>, req: HookRequest, env: Envelope,
            docs: Docs, now: int, lease: Lease, p: Preflight)
    requires p.expiresAt.At? && DecideUnderLease(core, history, req, env, docs, now, lease, p).Charge?
    ensures now < lease.validUntil
  {
  }

  // ---- the repeat ----

  // The reservation a grant names, and that it may still launch.
  ghost predicate Grants(t: World, k: nat, req: HookRequest, docs: Docs, s: Sight) {
    && k < |t.history| && IsReservation(t.history[k]) && t.history[k].payload.body.reservation.request == req
    && StillEligible(t.core, t.history, t.history[k].payload.body.reservation, req, docs, s)
  }

  lemma FreshGrants(w: World, t: World, req: HookRequest, env: Envelope, docs: Docs, s: Sight)
    requires Decide(w.core, w.history, req, env, docs, s).Charge? && t.core == w.core
    requires |t.history| == |w.history| + 1 && t.history[..|w.history|] == w.history
    requires t.history[|w.history|].payload.body == ReservationBody(Decide(w.core, w.history, req, env, docs, s).reservation)
    ensures Grants(t, |w.history|, req, docs, s.(used := false))
  {
    var r := t.history[|w.history|];
    var v := r.payload.body.reservation;
    assert t.history == w.history + [r];
    var lr, lease, p := ChargeAsReplay(w.core, w.history, req, env, docs, s);
    ChargeReads(w.core, w.history, req, env, docs, s.now, lease, p);
    ChargedIsEligible(w.core, w.history, req, env, docs, s, v);
    MuteKeepsEligible(w.core, w.history, r, v, req, docs, s.(used := false));
  }

  lemma ReplayGrants(runId: string, w: World, t: World, k: nat, req: HookRequest, docs: Docs, s: Sight)
    requires Inv(runId, w) && Grants(w, k, req, docs, s)
    requires t.core == w.core && (PolicyChange(w.core, w.history, docs, s.now).None? ==> t.history == w.history)
    ensures Grants(t, k, req, docs, s.(used := false)) && t.history == w.history
  {
    var lr, p := ReplayIsBacked(runId, w, k, req, docs, s);
    assert s.(used := false) == s;
  }

  lemma GrantStands(runId: string, w: World, t: World, req: HookRequest, env: Envelope, docs: Docs, s: Sight,
            after: Sight, out: Attempts.Outcome) returns (k: nat)
    requires Inv(runId, w) && HookStep(runId, w, t, req, env, docs, s, after, out) && out.Granted?
    requires out.result.eligible
    ensures Grants(t, k, req, docs, s.(used := false)) && t.history[k].headAnchor == out.result.reservation
  {
    GrantNames(runId, w, t, req, env, docs, s, after, out);
    if Decide(w.core, w.history, req, env, docs, s).Charge? {
      k := |w.history|;
      FreshGrants(w, t, req, env, docs, s);
    } else {
      k := DecidedReplay(w.core, w.history, req, env, docs, s);
      ReplayGrants(runId, w, t, k, req, docs, s);
    }
  }

  lemma GrantRoot(runId: string, w: World, t: World, req: HookRequest, env: Envelope, docs: Docs, s: Sight,
            after: Sight, out: Attempts.Outcome)
    requires HookStep(runId, w, t, req, env, docs, s, after, out) && out.Granted?
    ensures RepositoryRoot(w.history) == Some(req.liveRoot)
    ensures t.history == w.history || (|t.history| == |w.history| + 1 && w.history == t.history[..|w.history|])
  {
  }

  lemma RepeatYieldsGrant(runId: string, core: seq<CoreModel.Record>, history: seq<HostRecord>, r: HostRecord,
            req: HookRequest, docs: Docs, s: Sight, after: Sight)
    requires IsReservation(r) && StillEligible(core, history, r.payload.body.reservation, req, docs, s)
    requires PolicyChange(core, history, docs, s.now).None?
    ensures Yields(runId, core, history, req, docs, s, after, Replay(r), Granted(ReplayOf(core, history, r, req, docs, s)), history)
    ensures ReplayOf(core, history, r, req, docs, s).eligible
    ensures ReplayOf(core, history, r, req, docs, s).reservation == r.headAnchor
  {
  }

  // A repeat of a charged request that is still eligible is granted again, and
  // leaves everything as it was.
  lemma RepeatIsGranted(runId: string, u: World, k: nat, req: HookRequest, env: Envelope, docs: Docs, s: Sight,
            after: Sight) returns (again: Attempts.Outcome)
    requires Inv(runId, u) && ValidRequest(req) && Grants(u, k, req, docs, s)
    requires RepositoryRoot(u.history) == Some(req.liveRoot)
    ensures HookStep(runId, u, u, req, env, docs, s, after, again)
    ensures again.Granted? && again.result.eligible && again.result.reservation == u.history[k].headAnchor
  {
    var r := u.history[k];
    var plan := ReservationFacts(runId, u, k);
    ReservedIsReplayed(u.history, k, req);
    var lr, p := ReplayIsBacked(runId, u, k, req, docs, s);
    DecidesThatReplay(u.core, u.history, req, env, docs, s, r);
    RepeatYieldsGrant(runId, u.core, u.history, r, req, docs, s, after);
    again := Granted(ReplayOf(u.core, u.history, r, req, docs, s));
  }

  lemma DecidesThatReplay(core: seq<CoreModel.Record>, history: seq<HostRecord>, req: HookRequest, env: Envelope,
            docs: Docs, s: Sight, r: HostRecord)
    requires core != [] && RepositoryRoot(history) == Some(req.liveRoot) && ScanReplay(history, req) == Replayed(r)
    ensures Decide(core, history, req, env, docs, s) == Replay(r)
  {
  }

  // ---- and the packet in between ----

  lemma PacketFiled(runId: string, t: World, u: World, k: nat, req: HookRequest, docs: Docs, s: Sight, c: HostContent)
    requires Inv(runId, t) && Grants(t, k, req, docs, s) && RepositoryRoot(t.history).Some?
    requires c.body.PacketBody? && c.body.dispatch.dispatchId == req.dispatchId
    requires u == t.(history := t.history + [HostStore.Sealed(runId, t.history, c)])
    ensures OtherStep(runId, t, u) && Inv(runId, u) && Grants(u, k, req, docs, s)
    ensures PacketUses(u.history, req.dispatchId) && RepositoryRoot(u.history) == RepositoryRoot(t.history)
  {
    var r := HostStore.Sealed(runId, t.history, c);
    assert OthersFile(t.core, c);
    OtherKeeps(runId, t, u);
    MuteKeepsEligible(t.core, t.history, r, t.history[k].payload.body.reservation, req, docs, s);
    RootKept(t.history, r);
    assert u.history[|t.history|] == r;
  }

  lemma RootAfter(runId: string, w: World, t: World, req: HookRequest, env: Envelope, docs: Docs, s: Sight,
            after: Sight, out: Attempts.Outcome)
    requires HookStep(runId, w, t, req, env, docs, s, after, out) && out.Granted?
    ensures RepositoryRoot(t.history) == Some(req.liveRoot)
  {
    GrantRoot(runId, w, t, req, env, docs, s, after, out);
    if t.history != w.history {
      RootKept(w.history, t.history[|w.history|]);
      assert t.history == w.history + [t.history[|w.history|]];
    }
  }

  // Every covered launch of the request is refused as ambiguous.
  ghost predicate Shadows(u: World, k: nat, req: HookRequest, docs: Docs)
    requires k < |u.history| && IsReservation(u.history[k])
  {
    forall run :: LaunchedFor(run, req, u.history[k].payload.body.reservation) && Reconciling.First(u.core) <= run.startedAt.time ==>
      Reconciling.ClassOf(Reconciling.Input(u.core, u.history, u.plans, docs.policyDigest), run)
        == Reconciling.Refused(Reconciling.AmbiguousMatch)
  }

  lemma PacketShadows(runId: string, u: World, k: nat, req: HookRequest, docs: Docs, s: Sight)
    requires Inv(runId, u) && Grants(u, k, req, docs, s) && PacketUses(u.history, req.dispatchId)
    ensures Shadows(u, k, req, docs)
  {
    var v := u.history[k].payload.body.reservation;
    var lr, p := ReplayIsBacked(runId, u, k, req, docs, s);
    forall run | LaunchedFor(run, req, v) && Reconciling.First(u.core) <= run.startedAt.time
      ensures Reconciling.ClassOf(Reconciling.Input(u.core, u.history, u.plans, docs.policyDigest), run)
              == Reconciling.Refused(Reconciling.AmbiguousMatch)
    {
      LaunchedForLaunches(run, req, v, p.route);
      ShadowedIsRefused(Reconciling.Input(u.core, u.history, u.plans, docs.policyDigest), run, k);
    }
  }

  lemma PacketAndRepeat(runId: string, w: World, t: World, req: HookRequest, env: Envelope, docs: Docs, s: Sight,
            after: Sight, out: Attempts.Outcome, c: HostContent)
    returns (u: World, k: nat, again: Attempts.Outcome)
    requires Inv(runId, w) && Inv(runId, t)
    requires HookStep(runId, w, t, req, env, docs, s, after, out) && out.Granted? && out.result.eligible
    requires c.body.PacketBody? && c.body.dispatch.dispatchId == req.dispatchId
    ensures Step(runId, t, u) && Step(runId, u, u) && PacketUses(u.history, req.dispatchId)
    ensures HookStep(runId, u, u, req, env, docs, s.(used := false), after, again)
    ensures again.Granted? && again.result.eligible && again.result.reservation == out.result.reservation
    ensures k < |u.history| && IsReservation(u.history[k]) && u.history[k].headAnchor == out.result.reservation
    ensures Shadows(u, k, req, docs)
  {
    var s2 := s.(used := false);
    k := GrantStands(runId, w, t, req, env, docs, s, after, out);
    RootAfter(runId, w, t, req, env, docs, s, after, out);
    u := t.(history := t.history + [HostStore.Sealed(runId, t.history, c)]);
    PacketFiled(runId, t, u, k, req, docs, s2, c);
    again := RepeatIsGranted(runId, u, k, req, env, docs, s2, after);
    PacketShadows(runId, u, k, req, docs, s2);
  }

  // Every run whose last step granted an eligible launch goes on to one whose
  // last step grants it again although a packet carries its id: one packet and
  // one repeat of the request do it. Reconciliation then refuses every launch
  // the grant covers.
  lemma PacketShadowsGrant(runId: string, trace: seq<World>, i: nat, req: HookRequest, env: Envelope, docs: Docs,
            s: Sight, after: Sight, out: Attempts.Outcome, c: HostContent)
    returns (u: World, k: nat, again: Attempts.Outcome)
    requires Run(runId, trace) && i + 2 == |trace|
    requires HookStep(runId, trace[i], trace[i + 1], req, env, docs, s, after, out) && out.Granted?
    requires out.result.eligible
    requires c.body.PacketBody? && c.body.dispatch.dispatchId == req.dispatchId
    ensures Run(runId, trace + [u, u]) && PacketUses(u.history, req.dispatchId)
    ensures HookStep(runId, u, u, req, env, docs, s.(used := false), after, again)
    ensures again.Granted? && again.result.eligible && again.result.reservation == out.result.reservation
    ensures k < |u.history| && IsReservation(u.history[k]) && u.history[k].headAnchor == out.result.reservation
    ensures Shadows(u, k, req, docs)
  {
    RunKeeps(runId, trace, i);
    RunKeeps(runId, trace, i + 1);
    u, k, again := PacketAndRepeat(runId, trace[i], trace[i + 1], req, env, docs, s, after, out, c);
    RunGoesOnTwice(runId, trace, i + 1, u, u);
  }

  lemma RunGoesOnTwice(runId: string, trace: seq<World>, last: nat, u: World, v: World)
    requires Run(runId, trace) && last + 1 == |trace| && Step(runId, trace[last], u) && Step(runId, u, v)
    ensures Run(runId, trace + [u, v])
  {
    RunGoesOn(runId, trace, u);
    RunGoesOn(runId, trace + [u], v);
    assert trace + [u] + [v] == trace + [u, v];
  }

  lemma RunGoesOn(runId: string, trace: seq<World>, u: World)
    requires Run(runId, trace) && Step(runId, trace[|trace| - 1], u)
    ensures Run(runId, trace + [u])
  {
    var more := trace + [u];
    forall i | 0 <= i < |more| - 1 ensures Step(runId, more[i], more[i + 1]) {
      assert more[i] == trace[i] && more[i + 1] == if i + 1 < |trace| then trace[i + 1] else u;
    }
  }
}
