// The host record of internal/host/host.go, and the recorded policy changes
// that end a lease generation (internal/host/reconcile.go).
module HostModel {
  import opened Vocabulary
  import opened Documents
  import CoreModel
  import Chain
  import Leases

  type HostAnchor = Chain.Anchor<HostContent>
  type HostRecord = Chain.Record<HostContent>

  datatype Generation = Generation(issuerSequence: int, issuerAnchor: CoreModel.Anchor, digest: Leases.LeaseDigest)

  // The route a controller names.
  datatype AttemptRoute = AttemptRoute(worker: string, model: Option<string>, effort: Option<string>)

  // One authority hook request. A reservation carries its digest, which is the
  // request itself here.
  datatype HookRequest = HookRequest(
    controller: string, index: int, dispatchId: string, envelope: string, route: AttemptRoute, failureSignature: Option<string>,
    liveRoot: string, cloneBaseline: string, namespace: string, unit: string, text: string)

  // What a ledger receipt says was launched.
  datatype Launch = Launch(
    agent: string, model: string, provider: string, effort: string, packet: string, root: string, head: string, worktree: string)

  datatype Reserved = Reserved(
    unit: string, controller: string, index: int, dispatchId: string, request: HookRequest, admission: HostAnchor,
    routeIdentity: RouteIdentity, failureSignature: string, cost: int, validFrom: Stamp, validUntil: Stamp, generation: Generation)

  datatype Admitted = Admitted(
    unit: string, controller: string, envelope: string, liveRoot: string, cloneBaseline: string, namespace: string, generation: Generation)

  datatype Packet = Packet(unit: string, dispatchId: string, namespace: string, validUntil: Stamp, launch: Launch)

  datatype Preflight = Preflight(unit: string, implementation: bool, available: bool, expiresAt: Stamp, route: Route)

  datatype Journal = Journal(
    unit: string, controller: string, envelope: string, liveRoot: string, cloneBaseline: string, namespace: string, attempts: seq<string>)

  // A valid host record carries exactly the body its kind names. Packet is a
  // review dispatch HMA generated.
  datatype Body =
    | RepositoryBody(root: string)
    | PreflightBody(preflight: Preflight)
    | AdmissionBody(admission: Admitted)
    | ReservationBody(reservation: Reserved)
    | PacketBody(dispatch: Packet)
    | PolicyRevocationBody(planPolicy: string, observedPolicy: string)
    | ReconciliationBody(revokedPolicies: seq<string>, observedAt: Stamp)
    | JournalBody(journal: Journal)
    | OtherBody(text: string)

  datatype HostContent = HostContent(body: Body, coreHead: CoreModel.Anchor, timestamp: Stamp)

  ghost predicate HostPlaced(history: seq<HostRecord>) {
    forall i, j :: 0 <= i < j < |history| ==> history[i].headAnchor != history[j].headAnchor
  }

  lemma ChainIsHostPlaced(runId: string, valid: HostRecord -> bool, history: seq<HostRecord>)
    requires Chain.IsChain(runId, valid, history)
    ensures HostPlaced(history)
  {
    forall i | 0 <= i < |history| ensures history[i].sequence == i + 1 && history[i].headAnchor == history[i].ComputeDigest() {
      assert Chain.Follows(runId, history[..i], history[i]);
    }
  }

  // ---- recorded policy changes ----

  // When r observed that policy was replaced, if it did.
  function Observation(r: HostRecord, policy: string): Option<Stamp> {
    match r.payload.body
    case PolicyRevocationBody(p, _) => if p == policy then Some(r.payload.timestamp) else None
    case ReconciliationBody(revoked, at) => if policy in revoked then Some(at) else None
    case _ => None
  }

  // The sequence of the core record with this anchor.
  function SequenceOf(core: seq<CoreModel.Record>, anchor: CoreModel.Anchor): Option<int> {
    if core == [] then None
    else if core[|core| - 1].headAnchor == anchor then Some(core[|core| - 1].sequence)
    else SequenceOf(core[..|core| - 1], anchor)
  }

  // r's observation applies to the generation issued at this sequence: it was
  // made at or after the issuer, or cannot be placed.
  predicate Applies(core: seq<CoreModel.Record>, r: HostRecord, policy: string, issuer: int) {
    && Observation(r, policy).Some?
    && (SequenceOf(core, r.payload.coreHead).Some? ==> SequenceOf(core, r.payload.coreHead).value >= issuer)
  }

  // The zero time when either its time or its place cannot be read.
  function ObservedAt(core: seq<CoreModel.Record>, r: HostRecord, policy: string): int
    requires Observation(r, policy).Some?
  {
    var at := Observation(r, policy).value;
    if at.At? && SequenceOf(core, r.payload.coreHead).Some? then at.time else ZERO_TIME
  }

  function PolicyEnd(core: seq<CoreModel.Record>, history: seq<HostRecord>, policy: string, issuer: int): Option<int> {
    if history == [] then None
    else
      var r := history[|history| - 1];
      var end := PolicyEnd(core, history[..|history| - 1], policy, issuer);
      if !Applies(core, r, policy, issuer) then end
      else if end.None? || ObservedAt(core, r, policy) < end.value then Some(ObservedAt(core, r, policy)) else end
  }

  method Sequences(core: seq<CoreModel.Record>) returns (sequence: map<CoreModel.Anchor, int>)
    ensures forall a :: (if a in sequence then Some(sequence[a]) else None) == SequenceOf(core, a)
  {
    sequence := map[];
    for i := 0 to |core|
      invariant forall a :: (if a in sequence then Some(sequence[a]) else None) == SequenceOf(core[..i], a)
    {
      assert core[..i + 1][..i] == core[..i];
      sequence := sequence[core[i].headAnchor := core[i].sequence];
    }
    assert core[..|core|] == core;
  }

  method PolicyRevokedAt(core: seq<CoreModel.Record>, history: seq<HostRecord>, policy: string,
            issuer: int) returns (end: Option<int>)
    ensures end == PolicyEnd(core, history, policy, issuer)
  {
    var sequence := Sequences(core);
    end := None;
    for i := 0 to |history|
      invariant end == PolicyEnd(core, history[..i], policy, issuer)
    {
      assert history[..i + 1][..i] == history[..i];
      var r := history[i];
      var at := Observation(r, policy);
      assert (if r.payload.coreHead in sequence then Some(sequence[r.payload.coreHead]) else None) == SequenceOf(core, r.payload.coreHead);
      if at.None? {
        continue;
      }
      if r.payload.coreHead in sequence && sequence[r.payload.coreHead] < issuer {
        continue;
      }
      var t := if at.value.At? && r.payload.coreHead in sequence then at.value.time else ZERO_TIME;
      if end.None? || t < end.value {
        end := Some(t);
      }
    }
    assert history[..|history|] == history;
  }

  // ---- what it computes ----

  ghost predicate EarliestObservation(core: seq<CoreModel.Record>, history: seq<HostRecord>, policy: string,
            issuer: int, end: Option<int>) {
    && (end.None? <==> forall r :: r in history ==> !Applies(core, r, policy, issuer))
    && (forall r :: r in history && Applies(core, r, policy, issuer) ==> end.Some? && end.value <= ObservedAt(core, r, policy))
    && (end.Some? ==> exists r :: r in history && Applies(core, r, policy, issuer) && end.value == ObservedAt(core, r, policy))
  }

  lemma {:induction false} PolicyEndIsEarliest(core: seq<CoreModel.Record>, history: seq<HostRecord>,
            policy: string, issuer: int)
    ensures EarliestObservation(core, history, policy, issuer, PolicyEnd(core, history, policy, issuer))
  {
    if history != [] {
      var n := |history| - 1;
      PolicyEndIsEarliest(core, history[..n], policy, issuer);
      assert history == history[..n] + [history[n]];
    }
  }

  // The record says the policy was replaced, at this time.
  predicate Observes(r: HostRecord, policy: string, at: Stamp) {
    || (r.payload.body.PolicyRevocationBody? && r.payload.body.planPolicy == policy && r.payload.timestamp == at)
    || (r.payload.body.ReconciliationBody? && policy in r.payload.body.revokedPolicies && r.payload.body.observedAt == at)
  }

  // It was filed when the k-th core record was the head.
  predicate FiledAt(core: seq<CoreModel.Record>, r: HostRecord, k: int) {
    0 <= k < |core| && core[k].headAnchor == r.payload.coreHead && forall i :: k < i < |core| ==> core[i].headAnchor != core[k].headAnchor
  }

  lemma {:induction false} SequenceFound(core: seq<CoreModel.Record>, r: HostRecord)
    ensures forall k :: FiledAt(core, r, k) ==> SequenceOf(core, r.payload.coreHead) == Some(core[k].sequence)
    ensures SequenceOf(core, r.payload.coreHead).Some? ==> exists k :: FiledAt(core, r, k)
  {
    if core != [] {
      var n := |core| - 1;
      if core[n].headAnchor == r.payload.coreHead {
        assert FiledAt(core, r, n);
      } else {
        SequenceFound(core[..n], r);
        forall k ensures FiledAt(core, r, k) <==> FiledAt(core[..n], r, k) {
          assert 0 <= k < n ==> core[..n][k] == core[k];
        }
      }
    }
  }

  // An observation applies to a generation unless it was filed before the
  // generation's approval, and one that was filed at no known head applies to
  // all. It counts from its own time, or from the zero time if that or its
  // place cannot be read.
  lemma ObservedExactly(core: seq<CoreModel.Record>, r: HostRecord, policy: string, issuer: int)
    ensures Applies(core, r, policy, issuer) <==>
              && (exists at :: Observes(r, policy, at))
              && forall k :: FiledAt(core, r, k) ==> issuer <= core[k].sequence
    ensures forall at :: Observes(r, policy, at) ==>
              ObservedAt(core, r, policy) == if at.At? && exists k :: FiledAt(core, r, k) then at.time else 0
  {
    SequenceFound(core, r);
    forall at ensures Observes(r, policy, at) <==> Observation(r, policy) == Some(at) {}
  }

  // A record that replaces the policy, by a revocation or in a reconciliation,
  // filed at the core's head: from its time on, at the latest, the policy is
  // revoked for every generation issued so far.
  lemma FiledRevokes(core: seq<CoreModel.Record>, history: seq<HostRecord>, r: HostRecord, policy: string, issuer: int, t: int)
    requires Leases.Placed(core) && core != [] && r.payload.coreHead == core[|core| - 1].headAnchor && issuer <= |core|
    requires Observes(r, policy, At(t))
    ensures PolicyEnd(core, history + [r], policy, issuer).Some? && PolicyEnd(core, history + [r], policy, issuer).value <= t
  {
    SequenceWithin(core, r.payload.coreHead);
    PolicyEndIsEarliest(core, history + [r], policy, issuer);
    assert r in history + [r] && Applies(core, r, policy, issuer);
  }

  lemma MoreObservations(core: seq<CoreModel.Record>, history: seq<HostRecord>, more: seq<HostRecord>,
            policy: string, issuer: int)
    requires forall r :: r in history ==> r in more
    requires PolicyEnd(core, history, policy, issuer).Some?
    ensures PolicyEnd(core, more, policy, issuer).Some?
    ensures PolicyEnd(core, more, policy, issuer).value <= PolicyEnd(core, history, policy, issuer).value
  {
    PolicyEndIsEarliest(core, history, policy, issuer);
    PolicyEndIsEarliest(core, more, policy, issuer);
    var r :| r in history && Applies(core, r, policy, issuer) && PolicyEnd(core, history, policy, issuer).value == ObservedAt(core, r, policy);
    assert r in more;
  }

  // Only which observations there are matters: not their order, nor repetition.
  lemma ObservationOrderIrrelevant(core: seq<CoreModel.Record>, history: seq<HostRecord>, other: seq<HostRecord>,
            policy: string, issuer: int)
    requires forall r :: r in history <==> r in other
    ensures PolicyEnd(core, history, policy, issuer) == PolicyEnd(core, other, policy, issuer)
  {
    if PolicyEnd(core, history, policy, issuer).Some? {
      MoreObservations(core, history, other, policy, issuer);
    }
    if PolicyEnd(core, other, policy, issuer).Some? {
      MoreObservations(core, other, history, policy, issuer);
    }
  }

  lemma {:induction false} SequenceKept(core: seq<CoreModel.Record>, later: seq<CoreModel.Record>, a: CoreModel.Anchor)
    requires Leases.Placed(later) && core <= later
    ensures SequenceOf(core, a).Some? ==> SequenceOf(later, a) == SequenceOf(core, a) && SequenceOf(core, a).value <= |core|
    ensures SequenceOf(core, a).None? && SequenceOf(later, a).Some? ==> SequenceOf(later, a).value > |core|
    decreases |later|
  {
    if |later| > |core| {
      SequenceKept(core, later[..|later| - 1], a);
      SequenceWithin(core, a);
    } else if core != [] {
      assert core == later;
      SequenceWithin(core, a);
    }
  }

  lemma {:induction false} SequenceWithin(core: seq<CoreModel.Record>, a: CoreModel.Anchor)
    requires Leases.Placed(core)
    ensures SequenceOf(core, a).Some? ==> 1 <= SequenceOf(core, a).value <= |core| && core[SequenceOf(core, a).value - 1].headAnchor == a
    ensures SequenceOf(core, a).None? ==> forall k :: 0 <= k < |core| ==> core[k].headAnchor != a
  {
    if core != [] {
      SequenceWithin(core[..|core| - 1], a);
    }
  }

  // A policy once revoked for a generation stays revoked, however both logs
  // grow and whatever policy is presented later.
  lemma PolicyStaysRevoked(core: seq<CoreModel.Record>, later: seq<CoreModel.Record>, history: seq<HostRecord>,
            more: seq<HostRecord>,
                           policy: string, issuer: int)
    requires Leases.Placed(later) && core <= later && history <= more && issuer <= |core|
    requires PolicyEnd(core, history, policy, issuer).Some?
    ensures PolicyEnd(later, more, policy, issuer).Some?
  {
    PolicyEndIsEarliest(core, history, policy, issuer);
    PolicyEndIsEarliest(later, more, policy, issuer);
    var r :| r in history && Applies(core, r, policy, issuer);
    SequenceKept(core, later, r.payload.coreHead);
    assert r in more;
    assert Applies(later, r, policy, issuer);
  }

  // Every observation of this policy was made at a core head this core has.
  ghost predicate KnownObservations(core: seq<CoreModel.Record>, history: seq<HostRecord>, policy: string) {
    forall r :: r in history && Observation(r, policy).Some? ==> SequenceOf(core, r.payload.coreHead).Some?
  }

  // And its time can only fall, while every observation can be placed.
  lemma PolicyEndOnlyFalls(core: seq<CoreModel.Record>, later: seq<CoreModel.Record>, history: seq<HostRecord>,
            more: seq<HostRecord>,
                           policy: string, issuer: int)
    requires Leases.Placed(later) && core <= later && history <= more && KnownObservations(core, history, policy)
    requires PolicyEnd(core, history, policy, issuer).Some?
    ensures PolicyEnd(later, more, policy, issuer).Some?
    ensures PolicyEnd(later, more, policy, issuer).value <= PolicyEnd(core, history, policy, issuer).value
  {
    PolicyEndIsEarliest(core, history, policy, issuer);
    PolicyEndIsEarliest(later, more, policy, issuer);
    var r :| r in history && Applies(core, r, policy, issuer) && PolicyEnd(core, history, policy, issuer).value == ObservedAt(core, r, policy);
    SequenceKept(core, later, r.payload.coreHead);
    assert r in more;
    assert Applies(later, r, policy, issuer) && ObservedAt(later, r, policy) == ObservedAt(core, r, policy);
  }

  // Every observation of this policy has a real time, after the zero time.
  ghost predicate DatedObservations(history: seq<HostRecord>, policy: string) {
    forall r :: r in history && Observation(r, policy).Some? ==>
      Observation(r, policy).value.At? && Observation(r, policy).value.time > ZERO_TIME
  }

  // That is needed: where an observation cannot be placed and the core grows
  // until all can, the end rises. Otherwise it does not.
  lemma PolicyEndFallsIffKnown(core: seq<CoreModel.Record>, later: seq<CoreModel.Record>, history: seq<HostRecord>,
            policy: string, issuer: int)
    requires Leases.Placed(later) && core <= later && issuer <= |core|
    requires KnownObservations(later, history, policy) && DatedObservations(history, policy)
    requires PolicyEnd(core, history, policy, issuer).Some?
    ensures PolicyEnd(later, history, policy, issuer).Some?
    ensures PolicyEnd(later, history, policy, issuer).value <= PolicyEnd(core, history, policy, issuer).value
            <==> KnownObservations(core, history, policy)
  {
    PolicyStaysRevoked(core, later, history, history, policy, issuer);
    if KnownObservations(core, history, policy) {
      PolicyEndOnlyFalls(core, later, history, history, policy, issuer);
    } else {
      PolicyEndIsEarliest(core, history, policy, issuer);
      PolicyEndIsEarliest(later, history, policy, issuer);
      var r :| r in history && Observation(r, policy).Some? && SequenceOf(core, r.payload.coreHead).None?;
      assert Applies(core, r, policy, issuer) && ObservedAt(core, r, policy) == ZERO_TIME;
    }
  }

  // ---- whether a change must be recorded ----

  // The sequence of the latest approval that issued any unit a lease.
  function LatestGeneration(core: seq<CoreModel.Record>): int {
    if core == [] then 0
    else
      var r := core[|core| - 1];
      var before := LatestGeneration(core[..|core| - 1]);
      if Leases.IssuesLease(r, r.payload.unitId) && r.sequence > before then r.sequence else before
  }

  predicate RevocationNeeded(core: seq<CoreModel.Record>, history: seq<HostRecord>, policy: string) {
    PolicyEnd(core, history, policy, LatestGeneration(core)).None?
  }

  method PolicyRevocationNeeded(core: seq<CoreModel.Record>, history: seq<HostRecord>,
            policy: string) returns (needed: bool)
    ensures needed <==> RevocationNeeded(core, history, policy)
  {
    var latest := 0;
    for i := 0 to |core|
      invariant latest == LatestGeneration(core[..i])
    {
      assert core[..i + 1][..i] == core[..i];
      var r := core[i];
      if Leases.IssuesLease(r, r.payload.unitId) && r.sequence > latest {
        latest := r.sequence;
      }
    }
    assert core[..|core|] == core;
    var end := PolicyRevokedAt(core, history, policy, latest);
    return end.None?;
  }

  lemma {:induction false} LatestGenerationWithin(core: seq<CoreModel.Record>)
    requires Leases.Placed(core)
    ensures 0 <= LatestGeneration(core) <= |core|
    ensures forall k :: 0 <= k < |core| && Leases.IssuesLease(core[k], core[k].payload.unitId) ==> k + 1 <= LatestGeneration(core)
    ensures LatestGeneration(core) > 0 ==>
              Leases.IssuesLease(core[LatestGeneration(core) - 1], core[LatestGeneration(core) - 1].payload.unitId)
  {
    if core != [] {
      LatestGenerationWithin(core[..|core| - 1]);
    }
  }

  // Once a change is on record at the current core head, none is needed until
  // a later approval issues a new generation.
  lemma RecordedOncePerGeneration(core: seq<CoreModel.Record>, later: seq<CoreModel.Record>,
            history: seq<HostRecord>, more: seq<HostRecord>,
                                  policy: string, r: HostRecord)
    requires Leases.Placed(later) && core <= later && core != [] && LatestGeneration(later) <= |core|
    requires r in more && Observation(r, policy).Some? && r.payload.coreHead == core[|core| - 1].headAnchor
    ensures !RevocationNeeded(later, more, policy)
  {
    PolicyEndIsEarliest(later, more, policy, LatestGeneration(later));
    assert SequenceOf(core, r.payload.coreHead) == Some(|core|);
    SequenceKept(core, later, r.payload.coreHead);
    assert Applies(later, r, policy, LatestGeneration(later));
  }
}
