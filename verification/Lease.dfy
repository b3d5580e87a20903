// The authority an approved plan unit holds, derived from the core chain
// alone (internal/engine/lease.go).
module Leases {
  import opened Vocabulary
  import opened CoreModel
  import opened Documents
  import opened StageProjection
  import opened Revocation
  import Chain
  import PlanGraph

  datatype Reason =
    | NoIssuingApproval | PlanInvalid | PlanMismatch | UnitNotInPlan | ContractMismatch | RunTerminal | LeftStage | Rewound
    | WallTime | Ceiling | PolicyChanged | CriteriaChanged | NotYetIssued | CountersInvalid | RouteMismatch | WaiverChanged

  datatype Counters = Counters(attempts: int, costSpent: int)

  // plan and contract are the presented documents, None when one does not parse.
  datatype Request = Request(
    records: seq<Record>, unit: string, plan: Option<Plan>, contract: Option<Contract>, policyDigest: string,
    counters: Counters, now: int, route: Option<RouteGrant>)

  datatype LeaseDigest = LeaseDigest(transitionDigest: string, unit: string, plan: PlanDigest)

  datatype Lease = Lease(
    unit: string, issuerSequence: int, issuerAnchor: Anchor, issuerStage: Stage, planDigest: PlanDigest,
    contractDigest: ContractDigest, policyDigest: string, implementer: RouteIdentity, budgets: Budgets,
    issuedAt: int, validUntil: int, digest: LeaseDigest)

  datatype Derivation = NoLease(reason: Reason) | Inactive(lease: Lease, reason: Reason) | Active(lease: Lease)

  const MINUTE: int := 60_000_000_000

  // What a loaded chain gives every record: its place, and an anchor of its own.
  ghost predicate Placed(records: seq<Record>) {
    && (forall i :: 0 <= i < |records| ==> records[i].sequence == i + 1)
    && (forall i, j :: 0 <= i < j < |records| ==> records[i].headAnchor != records[j].headAnchor)
  }

  lemma ChainIsPlaced(runId: string, valid: Record -> bool, log: seq<Record>)
    requires Chain.IsChain(runId, valid, log)
    ensures Placed(log)
  {
    forall i | 0 <= i < |log| ensures log[i].sequence == i + 1 && log[i].headAnchor == log[i].ComputeDigest() {
      assert Chain.Follows(runId, log[..i], log[i]);
    }
  }

  // ---- which approval issues ----

  predicate IssuesLease(r: Record, unit: string) {
    && unit != "" && r.payload.unitId == unit && ApprovedTransition(r)
    && r.payload.approval.value.unitId == unit && r.payload.approval.value.targetStage.ImplementationAuthorization?
    && (r.payload.approval.value.currentStage.RouteSelection? || r.payload.approval.value.currentStage.IndependentValidation?)
  }

  predicate ApprovesRoute(r: Record, unit: string) {
    && r.payload.unitId == unit && ApprovedTransition(r)
    && r.payload.approval.value.currentStage.RouteSelection? && r.payload.approval.value.targetStage.ImplementationAuthorization?
  }

  function LatestIssuer(records: seq<Record>, unit: string): (i: int)
    ensures -1 <= i < |records|
    ensures i >= 0 ==> IssuesLease(records[i], unit)
    ensures forall k :: i < k < |records| ==> !IssuesLease(records[k], unit)
  {
    if records == [] then -1
    else if IssuesLease(records[|records| - 1], unit) then |records| - 1
    else LatestIssuer(records[..|records| - 1], unit)
  }

  function LatestRoute(records: seq<Record>, unit: string): (i: int)
    ensures -1 <= i < |records|
    ensures i >= 0 ==> ApprovesRoute(records[i], unit)
    ensures forall k :: i < k < |records| ==> !ApprovesRoute(records[k], unit)
  {
    if records == [] then -1
    else if ApprovesRoute(records[|records| - 1], unit) then |records| - 1
    else LatestRoute(records[..|records| - 1], unit)
  }

  method IssuerFor(records: seq<Record>, unit: string) returns (issuer: int)
    ensures issuer == LatestIssuer(records, unit)
  {
    issuer := -1;
    for i := 0 to |records|
      invariant issuer == LatestIssuer(records[..i], unit)
    {
      assert records[..i + 1][..i] == records[..i];
      if IssuesLease(records[i], unit) {
        issuer := i;
      }
    }
    assert records[..|records|] == records;
  }

  method RouteApprovalFor(records: seq<Record>, unit: string) returns (idx: int)
    ensures idx == LatestRoute(records, unit)
  {
    idx := -1;
    for i := 0 to |records|
      invariant idx == LatestRoute(records[..i], unit)
    {
      assert records[..i + 1][..i] == records[..i];
      if ApprovesRoute(records[i], unit) {
        idx := i;
      }
    }
    assert records[..|records|] == records;
  }

  // ---- the contract the run binds ----

  predicate AcceptsContract(r: Record) {
    && ApprovedTransition(r) && r.payload.approval.value.currentStage.AcceptanceCriteria?
    && r.payload.approval.value.targetStage.Planning?
  }

  function BoundContract(records: seq<Record>): ContractDigest {
    if records == [] then NoContract
    else if AcceptsContract(records[|records| - 1]) then records[|records| - 1].payload.approval.value.contractDigest
    else BoundContract(records[..|records| - 1])
  }

  // The record accepts a contract, and none after it does.
  predicate LatestAcceptance(records: seq<Record>, k: int) {
    && 0 <= k < |records| && AcceptsContract(records[k])
    && forall i :: k < i < |records| ==> !AcceptsContract(records[i])
  }

  // The run binds the contract of its latest acceptance, and none before one.
  lemma {:induction false} BoundContractExactly(records: seq<Record>)
    ensures forall k :: LatestAcceptance(records, k) ==>
              BoundContract(records) == records[k].payload.approval.value.contractDigest
    ensures (forall k :: !LatestAcceptance(records, k)) ==> BoundContract(records) == NoContract
  {
    if records != [] {
      var n := |records| - 1;
      BoundContractExactly(records[..n]);
      if AcceptsContract(records[n]) {
        assert LatestAcceptance(records, n);
      } else {
        forall k ensures LatestAcceptance(records, k) <==> LatestAcceptance(records[..n], k) {
          AcceptanceShrinks(records, k);
        }
      }
    }
  }

  lemma AcceptanceShrinks(records: seq<Record>, k: int)
    requires records != [] && !AcceptsContract(records[|records| - 1])
    ensures LatestAcceptance(records, k) <==> LatestAcceptance(records[..|records| - 1], k)
  {
  }

  method BoundContractDigest(records: seq<Record>) returns (bound: ContractDigest)
    ensures bound == BoundContract(records)
  {
    bound := NoContract;
    for i := 0 to |records|
      invariant bound == BoundContract(records[..i])
    {
      assert records[..i + 1][..i] == records[..i];
      if AcceptsContract(records[i]) {
        bound := records[i].payload.approval.value.contractDigest;
      }
    }
    assert records[..|records|] == records;
  }

  function IdsOf(criteria: seq<Criterion>): seq<string> {
    if criteria == [] then [] else IdsOf(criteria[..|criteria| - 1]) + [criteria[|criteria| - 1].id]
  }

  lemma {:induction false} IdsInOrder(criteria: seq<Criterion>)
    ensures |IdsOf(criteria)| == |criteria| && forall i :: 0 <= i < |criteria| ==> IdsOf(criteria)[i] == criteria[i].id
  {
    if criteria != [] {
      IdsInOrder(criteria[..|criteria| - 1]);
    }
  }

  predicate DistinctIds(ids: seq<string>) {
    forall i, j :: 0 <= i < j < |ids| ==> ids[i] != ids[j]
  }

  // sameIDs, which compares both lists sorted.
  predicate SameIds(want: seq<string>, criteria: seq<Criterion>) {
    DistinctIds(IdsOf(criteria)) && multiset(IdsOf(criteria)) == multiset(want)
  }

  // The criteria are the contract's: each id once in both lists, and the same ids.
  lemma SameIdsExactly(want: seq<string>, criteria: seq<Criterion>)
    ensures SameIds(want, criteria) <==>
              && (forall i, j :: 0 <= i < j < |criteria| ==> criteria[i].id != criteria[j].id)
              && (forall i, j :: 0 <= i < j < |want| ==> want[i] != want[j])
              && (forall id :: id in want <==> exists i :: 0 <= i < |criteria| && criteria[i].id == id)
  {
    IdsInOrder(criteria);
    var ids := IdsOf(criteria);
    if DistinctIds(ids) {
      DistinctMultiset(ids, want);
    }
    forall id ensures id in ids <==> exists i :: 0 <= i < |criteria| && criteria[i].id == id {
      if id in ids {
        var i :| 0 <= i < |ids| && ids[i] == id;
        assert criteria[i].id == id;
      }
      if i :| 0 <= i < |criteria| && criteria[i].id == id {
        assert ids[i] == id;
      }
    }
  }

  lemma {:induction false} DistinctCount(s: seq<string>, id: string)
    requires DistinctIds(s)
    ensures multiset(s)[id] == if id in s then 1 else 0
  {
    if s != [] {
      var n := |s| - 1;
      DistinctCount(s[..n], id);
      assert s == s[..n] + [s[n]];
    }
  }

  lemma {:induction false} RepeatCount(s: seq<string>, i: nat, j: nat)
    requires i < j < |s| && s[i] == s[j]
    ensures multiset(s)[s[i]] >= 2
  {
    assert s == s[..j] + s[j..];
    assert s[..j][i] == s[i] && s[j..][0] == s[j];
    assert multiset(s[..j])[s[i]] >= 1 && multiset(s[j..])[s[i]] >= 1;
  }

  lemma DistinctMultiset(a: seq<string>, b: seq<string>)
    requires DistinctIds(a)
    ensures multiset(a) == multiset(b) <==> DistinctIds(b) && forall id :: id in b <==> id in a
  {
    forall id ensures multiset(a)[id] == if id in a then 1 else 0 {
      DistinctCount(a, id);
    }
    if multiset(a) == multiset(b) {
      forall i, j | 0 <= i < j < |b| ensures b[i] != b[j] {
        if b[i] == b[j] {
          RepeatCount(b, i, j);
          assert false;
        }
      }
      forall id ensures id in b <==> id in a {
        assert id in b <==> multiset(b)[id] > 0;
      }
    }
    if DistinctIds(b) && forall id :: id in b <==> id in a {
      forall id ensures multiset(a)[id] == multiset(b)[id] {
        DistinctCount(b, id);
      }
    }
  }

  // ---- the waivers an approval bound ----

  // Each scope's live grant: the latest one not ended or replaced since.
  function LiveGrants(records: seq<Record>): map<Scope, Anchor> {
    if records == [] then map[]
    else
      var r := records[|records| - 1];
      AfterOperation(LiveGrants(records[..|records| - 1]), r) - LegacyScopes(r)
  }

  function AfterOperation(live: map<Scope, Anchor>, r: Record): map<Scope, Anchor> {
    if r.payload.waiverOperation.None? then live
    else
      var w := r.payload.waiverOperation.value;
      if w.action.Grant? then live[w.scope := r.headAnchor] else live - {w.scope}
  }

  function LegacyScopes(r: Record): set<Scope> {
    set i | 0 <= i < |r.payload.waivers| :: r.payload.waivers[i].scope
  }

  predicate Touches(r: Record, scope: Scope) {
    (r.payload.waiverOperation.Some? && r.payload.waiverOperation.value.scope == scope) || scope in LegacyScopes(r)
  }

  predicate Names(live: map<Scope, Anchor>, scope: Scope, d: Anchor) {
    scope in live && live[scope] == d
  }

  // A bound waiver is repeated, did not name a live grant, or was touched after.
  ghost predicate WaiversChanged(records: seq<Record>, issuer: int)
    requires 0 <= issuer < |records| && records[issuer].payload.approval.Some?
  {
    var bound := records[issuer].payload.approval.value.activeWaivers;
    var live := LiveGrants(records[..issuer]);
    || (exists i, j :: 0 <= i < j < |bound| && bound[i] == bound[j])
    || (exists i :: 0 <= i < |bound| && Unnamed(live, bound[i]))
    || (exists i :: 0 <= i < |bound| && TouchedAfter(records, issuer, live, bound[i]))
  }

  ghost predicate Unnamed(live: map<Scope, Anchor>, d: Anchor) {
    forall s :: !Names(live, s, d)
  }

  ghost predicate TouchedAfter(records: seq<Record>, issuer: int, live: map<Scope, Anchor>, d: Anchor)
    requires 0 <= issuer < |records|
  {
    exists s, k :: Names(live, s, d) && issuer < k < |records| && Touches(records[k], s)
  }

  lemma {:induction false} GrantOrigin(records: seq<Record>, scope: Scope)
    requires scope in LiveGrants(records)
    ensures exists i :: 0 <= i < |records| && records[i].headAnchor == LiveGrants(records)[scope]
                        && records[i].payload.waiverOperation.Some? && records[i].payload.waiverOperation.value.scope == scope
  {
    var n := |records| - 1;
    var r := records[n];
    if !(r.payload.waiverOperation.Some? && r.payload.waiverOperation.value.action.Grant? && r.payload.waiverOperation.value.scope == scope) {
      GrantOrigin(records[..n], scope);
      assert forall i :: 0 <= i < n ==> records[..n][i] == records[i];
    }
  }

  lemma GrantsAreDistinct(records: seq<Record>, s: Scope, t: Scope)
    requires Placed(records) && s in LiveGrants(records) && t in LiveGrants(records)
    requires LiveGrants(records)[s] == LiveGrants(records)[t]
    ensures s == t
  {
    GrantOrigin(records, s);
    GrantOrigin(records, t);
  }

  // The record grants the scope a waiver that its own list does not end.
  predicate GrantsAs(r: Record, scope: Scope, d: Anchor) {
    && r.payload.waiverOperation.Some? && r.payload.waiverOperation.value.action.Grant?
    && r.payload.waiverOperation.value.scope == scope && r.headAnchor == d && scope !in LegacyScopes(r)
  }

  lemma GrantsStep(records: seq<Record>, r: Record, scope: Scope, d: Anchor)
    ensures Names(LiveGrants(records + [r]), scope, d) <==>
              GrantsAs(r, scope, d) || (Names(LiveGrants(records), scope, d) && !Touches(r, scope))
  {
    assert (records + [r])[..|records|] == records;
  }

  // A grant is live if and only if it was recorded and no record since touches
  // its scope.
  lemma {:induction false} LiveGrantsExactly(records: seq<Record>, scope: Scope, d: Anchor)
    ensures Names(LiveGrants(records), scope, d) <==>
              exists i :: 0 <= i < |records| && GrantsAs(records[i], scope, d)
                          && forall k :: i < k < |records| ==> !Touches(records[k], scope)
  {
    if records != [] {
      var n := |records| - 1;
      LiveGrantsExactly(records[..n], scope, d);
      GrantsStep(records[..n], records[n], scope, d);
      assert records == records[..n] + [records[n]];
      assert forall i :: 0 <= i < n ==> records[..n][i] == records[i];
    }
  }

  // The digest names a grant of the scope recorded before the issuer, and no
  // other record but the issuer touches the scope since.
  predicate StillBound(records: seq<Record>, issuer: int, scope: Scope, d: Anchor) {
    exists i :: 0 <= i < issuer && i < |records| && GrantsAs(records[i], scope, d)
                && forall k :: i < k < |records| && k != issuer ==> !Touches(records[k], scope)
  }

  ghost predicate Intact(records: seq<Record>, issuer: int, d: Anchor) {
    exists s :: StillBound(records, issuer, s, d)
  }

  lemma StillBoundExactly(records: seq<Record>, issuer: int, scope: Scope, d: Anchor)
    requires 0 <= issuer < |records|
    ensures StillBound(records, issuer, scope, d) <==>
              Names(LiveGrants(records[..issuer]), scope, d) && forall k :: issuer < k < |records| ==> !Touches(records[k], scope)
  {
    var before := records[..issuer];
    LiveGrantsExactly(before, scope, d);
    assert forall i :: 0 <= i < issuer ==> before[i] == records[i];
    if i :| 0 <= i < issuer && GrantsAs(records[i], scope, d) && forall k :: i < k < |records| && k != issuer ==> !Touches(records[k], scope) {
      assert GrantsAs(before[i], scope, d);
      forall k | i < k < |before| ensures !Touches(before[k], scope) {
        assert before[k] == records[k];
      }
    }
    if Names(LiveGrants(before), scope, d) && forall k :: issuer < k < |records| ==> !Touches(records[k], scope) {
      var i :| 0 <= i < |before| && GrantsAs(before[i], scope, d) && forall k :: i < k < |before| ==> !Touches(before[k], scope);
      assert GrantsAs(records[i], scope, d);
      forall k | i < k < |records| && k != issuer ensures !Touches(records[k], scope) {
        assert k < issuer ==> before[k] == records[k];
      }
    }
  }

  // What an approval bound is unchanged if and only if every digest it lists is
  // listed once and names a grant that nothing has touched.
  lemma WaiversUnchangedExactly(records: seq<Record>, issuer: int)
    requires Placed(records) && 0 <= issuer < |records| && records[issuer].payload.approval.Some?
    ensures
      var bound := records[issuer].payload.approval.value.activeWaivers;
      !WaiversChanged(records, issuer) <==>
        && (forall i, j :: 0 <= i < j < |bound| ==> bound[i] != bound[j])
        && (forall i :: 0 <= i < |bound| ==> Intact(records, issuer, bound[i]))
  {
    var bound := records[issuer].payload.approval.value.activeWaivers;
    var live := LiveGrants(records[..issuer]);
    forall i | 0 <= i < |bound|
      ensures Intact(records, issuer, bound[i]) <==> !Unnamed(live, bound[i]) && !TouchedAfter(records, issuer, live, bound[i])
    {
      BoundStands(records, issuer, bound[i]);
    }
  }

  lemma BoundStands(records: seq<Record>, issuer: int, d: Anchor)
    requires Placed(records) && 0 <= issuer < |records|
    ensures
      var live := LiveGrants(records[..issuer]);
      Intact(records, issuer, d) <==> !Unnamed(live, d) && !TouchedAfter(records, issuer, live, d)
  {
    var live := LiveGrants(records[..issuer]);
    if s :| StillBound(records, issuer, s, d) {
      StillBoundExactly(records, issuer, s, d);
      assert !Unnamed(live, d);
      forall t | Names(live, t, d) ensures t == s {
        GrantsAreDistinct(records[..issuer], s, t);
      }
    }
    if !Unnamed(live, d) && !TouchedAfter(records, issuer, live, d) {
      var s :| Names(live, s, d);
      forall k | issuer < k < |records| ensures !Touches(records[k], s) {}
      StillBoundExactly(records, issuer, s, d);
      assert StillBound(records, issuer, s, d);
    }
  }

  method ReplayGrants(records: seq<Record>) returns (live: map<Scope, Anchor>)
    ensures live == LiveGrants(records)
  {
    live := map[];
    for i := 0 to |records|
      invariant live == LiveGrants(records[..i])
    {
      assert records[..i + 1][..i] == records[..i];
      var r := records[i];
      if r.payload.waiverOperation.Some? {
        var w := r.payload.waiverOperation.value;
        if w.action.Grant? {
          live := live[w.scope := r.headAnchor];
        } else {
          live := live - {w.scope};
        }
      }
      live := live - LegacyScopes(r);
    }
    assert records[..|records|] == records;
  }

  // Every bound digest names a live grant, once.
  method BoundOnce(bound: seq<Anchor>, live: map<Scope, Anchor>, scopeOf: map<Anchor, Scope>) returns (ok: bool)
    requires forall d :: d in scopeOf <==> !Unnamed(live, d)
    ensures ok <==> !(exists i, j :: 0 <= i < j < |bound| && bound[i] == bound[j]) && !(exists i :: 0 <= i < |bound| && Unnamed(live, bound[i]))
  {
    var seen: set<Anchor> := {};
    for i := 0 to |bound|
      invariant seen == set k | 0 <= k < i :: bound[k]
      invariant forall k, j :: 0 <= k < j < i ==> bound[k] != bound[j]
      invariant forall k :: 0 <= k < i ==> !Unnamed(live, bound[k])
    {
      if bound[i] in seen || bound[i] !in scopeOf {
        return false;
      }
      seen := seen + {bound[i]};
    }
    return true;
  }

  method FindTouch(records: seq<Record>, issuer: int, scope: Scope) returns (hit: bool)
    requires 0 <= issuer < |records|
    ensures hit <==> exists k :: issuer < k < |records| && Touches(records[k], scope)
  {
    for k := issuer + 1 to |records|
      invariant forall j :: issuer < j < k ==> !Touches(records[j], scope)
    {
      if Touches(records[k], scope) {
        return true;
      }
    }
    return false;
  }

  ghost predicate Inverts(scopeOf: map<Anchor, Scope>, live: map<Scope, Anchor>) {
    && (forall d :: d in scopeOf ==> Names(live, scopeOf[d], d))
    && (forall s :: s in live ==> live[s] in scopeOf && scopeOf[live[s]] == s)
  }

  // The bound digests whose scope a later record touches.
  method TouchedOf(records: seq<Record>, issuer: int, bound: seq<Anchor>, live: map<Scope, Anchor>,
            scopeOf: map<Anchor, Scope>)
    returns (touched: seq<Anchor>)
    requires 0 <= issuer < |records| && Inverts(scopeOf, live) && forall i :: 0 <= i < |bound| ==> bound[i] in scopeOf
    ensures touched != [] <==> exists i :: 0 <= i < |bound| && TouchedAfter(records, issuer, live, bound[i])
    ensures forall d :: d in touched ==> d in bound
  {
    touched := [];
    for i := 0 to |bound|
      invariant touched != [] <==> exists j :: 0 <= j < i && TouchedAfter(records, issuer, live, bound[j])
      invariant forall d :: d in touched ==> d in bound
    {
      var hit := FindTouch(records, issuer, scopeOf[bound[i]]);
      assert hit <==> TouchedAfter(records, issuer, live, bound[i]) by {
        assert forall s :: Names(live, s, bound[i]) <==> s == scopeOf[bound[i]];
      }
      if hit {
        touched := touched + [bound[i]];
      }
    }
  }

  // EvaluateWaiverChange over the one packet the approval is: it is
  // invalidated when a changed waiver is one it bound.
  predicate PacketInvalidated(bound: seq<Anchor>, changed: seq<Anchor>) {
    exists d :: d in changed && d in bound
  }

  method IssuerWaiversChanged(records: seq<Record>, issuer: int) returns (changed: bool)
    requires Placed(records) && 0 <= issuer < |records| && records[issuer].payload.approval.Some?
    ensures changed <==> WaiversChanged(records, issuer)
  {
    var bound := records[issuer].payload.approval.value.activeWaivers;
    if bound == [] {
      return false;
    }
    var live := ReplayGrants(records[..issuer]);
    forall s, t | s in live && t in live && live[s] == live[t] ensures s == t {
      GrantsAreDistinct(records[..issuer], s, t);
    }
    var scopeOf := map s | s in live :: live[s] := s;
    assert Inverts(scopeOf, live);
    var ok := BoundOnce(bound, live, scopeOf);
    if !ok {
      return true;
    }
    var touched := TouchedOf(records, issuer, bound, live, scopeOf);
    assert touched != [] ==> touched[0] in touched && touched[0] in bound;
    return PacketInvalidated(bound, touched);
  }

  // ---- what ends the authority after it was given ----

  // What one approved move does to it. ownWalk marks the unit's own way
  // forward from its route approval to a correction issuer.
  function Offence(r: Record, ownWalk: bool, unit: string, deps: set<string>): Option<Reason> {
    if !ApprovedTransition(r) then None
    else
      var a := r.payload.approval.value;
      var own := r.payload.unitId == unit || r.payload.unitId == "";
      if ownWalk && own && !EarlierGate(a.targetStage) then None
      else if a.targetStage.Grounding? || a.targetStage.AcceptanceCriteria? then Some(Rewound)
      else if own then
        if a.targetStage.ImplementationAuthorization? then None
        else if EarlierGate(a.targetStage) then Some(Rewound) else Some(LeftStage)
      else if r.payload.unitId in deps && Undermines(a) then Some(Rewound)
      else None
  }

  // Which approved moves end the authority: any return to GROUNDING or to the
  // criteria; of the unit, or of none, a return to an earlier gate, and, but for
  // the unit's own way to a correction, any move that is not another
  // authorization; of a dependency, a return to an earlier gate or a correction.
  lemma OffenceExactly(r: Record, ownWalk: bool, unit: string, deps: set<string>)
    ensures
      var a := r.payload.approval;
      var own := r.payload.unitId in {unit, ""};
      Offence(r, ownWalk, unit, deps).Some? <==>
        && ApprovedTransition(r)
        && (|| a.value.targetStage in {Grounding, AcceptanceCriteria}
            || (own && a.value.targetStage in {Planning, RouteSelection})
            || (own && !ownWalk && !a.value.targetStage.ImplementationAuthorization?)
            || (!own && r.payload.unitId in deps
                && (|| a.value.targetStage in {Planning, RouteSelection}
                    || (a.value.currentStage.IndependentValidation? && a.value.targetStage.ImplementationAuthorization?))))
  {
  }

  function FirstOffence(records: seq<Record>, k: nat, issuer: int, unit: string, deps: set<string>): Option<Reason>
    requires k <= |records|
    decreases |records| - k
  {
    if k == |records| then None
    else
      var o := Offence(records[k], k <= issuer, unit, deps);
      if o.Some? then o else FirstOffence(records, k + 1, issuer, unit, deps)
  }

  lemma {:induction false} FirstOffenceFinds(records: seq<Record>, k: nat, issuer: int, unit: string, deps: set<string>)
    requires k <= |records|
    ensures FirstOffence(records, k, issuer, unit, deps).Some? <==> exists i :: k <= i < |records| && Offence(records[i], i <= issuer, unit, deps).Some?
    decreases |records| - k
  {
    if k < |records| {
      FirstOffenceFinds(records, k + 1, issuer, unit, deps);
    }
  }

  // Where the authority chain starts: the route approval, for a correction.
  function Start(records: seq<Record>, unit: string, issuer: int): (s: int)
    requires 0 <= issuer < |records|
    ensures 0 <= s <= issuer
  {
    var ri := LatestRoute(records[..issuer + 1], unit);
    if 0 <= ri < issuer then ri else issuer
  }

  method FindOffence(records: seq<Record>, start: int, issuer: int, unit: string,
            deps: set<string>) returns (o: Option<Reason>)
    requires 0 <= start < |records|
    ensures o == FirstOffence(records, start + 1, issuer, unit, deps)
  {
    for k := start + 1 to |records|
      invariant FirstOffence(records, start + 1, issuer, unit, deps) == FirstOffence(records, k, issuer, unit, deps)
    {
      var r := records[k];
      if !ApprovedTransition(r) {
        continue;
      }
      var a := r.payload.approval.value;
      if k <= issuer && (r.payload.unitId == unit || r.payload.unitId == "") && !EarlierGate(a.targetStage) {
        continue;
      }
      if a.targetStage.Grounding? || a.targetStage.AcceptanceCriteria? {
        return Some(Rewound);
      }
      if r.payload.unitId == unit || r.payload.unitId == "" {
        if !a.targetStage.ImplementationAuthorization? {
          return if EarlierGate(a.targetStage) then Some(Rewound) else Some(LeftStage);
        }
      } else if r.payload.unitId in deps {
        if Undermines(a) {
          return Some(Rewound);
        }
      }
    }
    return None;
  }

  // ---- the derivation ----

  // Why the documents do not carry the issuing approval.
  function DocumentReason(req: Request, a: Approval): Option<Reason> {
    if req.plan.None? then Some(PlanInvalid)
    else if DigestOfPlan(req.plan.value) != a.acceptedPlan || req.plan.value.runId != a.runId then Some(PlanMismatch)
    else if UnitOf(req.plan.value.units, req.unit).None? then Some(UnitNotInPlan)
    else if !ContractCarries(req, a, BoundContract(req.records)) then Some(ContractMismatch)
    else if !a.timestamp.At? then Some(NoIssuingApproval)
    else None
  }

  predicate ContractCarries(req: Request, a: Approval, bound: ContractDigest)
    requires req.plan.Some?
  {
    && req.contract.Some? && !bound.NoContract? && DigestOfContract(req.contract.value) == bound && a.contractDigest == bound
    && PlanFits(req.plan.value, req.contract.value)
  }

  function LeaseOf(req: Request, ir: Record, unit: PlanUnit): Lease
    requires req.plan.Some? && ir.payload.approval.Some? && ir.payload.approval.value.timestamp.At?
  {
    var a := ir.payload.approval.value;
    var digest := DigestOfPlan(req.plan.value);
    Lease(req.unit, ir.sequence, ir.headAnchor, a.currentStage, digest, a.contractDigest, req.plan.value.policyDigest,
          unit.implementer, unit.budgets, a.timestamp.time, a.timestamp.time + unit.budgets.maxWallMinutes * MINUTE,
          LeaseDigest(a.transitionDigest, req.unit, digest))
  }

  // Why the chain no longer carries it.
  ghost function StandingReason(req: Request, issuer: int): Option<Reason>
    requires 0 <= issuer < |req.records| && req.records[issuer].payload.approval.Some? && req.plan.Some?
    requires req.contract.Some?
  {
    if !OutcomeOf(req.records).NoOutcome? then Some(RunTerminal)
    else if !SameIds(req.contract.value.criteria, CriteriaOf(req.records)) then Some(CriteriaChanged)
    else if WaiversChanged(req.records, issuer) then Some(WaiverChanged)
    else FirstOffence(req.records, Start(req.records, req.unit, issuer) + 1, issuer, req.unit, DependenciesOf(req.plan.value, req.unit))
  }

  // Why the selected route is not the one approved.
  ghost function RouteReason(req: Request, issuer: int, unit: PlanUnit): Option<Reason>
    requires 0 <= issuer < |req.records|
  {
    var ri := LatestRoute(req.records[..issuer + 1], req.unit);
    if !RouteNamed(req, ri, unit) then Some(RouteMismatch)
    else if ri != issuer && RouteApprovalStale(req.records, ri, req.records[issuer]) then Some(WaiverChanged)
    else if !(req.route.value.permissions <= unit.permissions) then Some(RouteMismatch)
    else None
  }

  predicate RouteNamed(req: Request, ri: int, unit: PlanUnit)
    requires ri < |req.records| && (ri >= 0 ==> req.records[ri].payload.approval.Some?)
  {
    && req.route.Some? && req.route.value.identity == unit.implementer && req.route.value.approvalDigest != "" && ri >= 0
    && req.route.value.approvalDigest == req.records[ri].payload.approval.value.transitionDigest && req.route.value.permissions != {}
  }

  ghost predicate RouteApprovalStale(records: seq<Record>, ri: int, ir: Record)
    requires 0 <= ri < |records| && records[ri].payload.approval.Some?
  {
    || WaiversChanged(records, ri)
    || (ir.payload.approval.Some? && records[ri].payload.approval.value.acceptedPlan != ir.payload.approval.value.acceptedPlan)
  }

  // Why there is no time, capacity or policy left.
  function CapacityReason(req: Request, lease: Lease): Option<Reason> {
    if req.now < lease.issuedAt then Some(NotYetIssued)
    else if req.now >= lease.validUntil then Some(WallTime)
    else if req.counters.attempts < 0 || req.counters.costSpent < 0 then Some(CountersInvalid)
    else if req.counters.attempts >= lease.budgets.maxAttempts || req.counters.costSpent >= lease.budgets.costCeiling then Some(Ceiling)
    else if req.policyDigest == "" || req.policyDigest != lease.policyDigest then Some(PolicyChanged)
    else None
  }

  // The first reason found decides.
  function Judged(lease: Lease, standing: Option<Reason>, route: Option<Reason>, capacity: Option<Reason>): Derivation {
    if standing.Some? then Inactive(lease, standing.value)
    else if route.Some? then Inactive(lease, route.value)
    else if capacity.Some? then Inactive(lease, capacity.value)
    else Active(lease)
  }

  ghost function Derived(req: Request): Derivation {
    var issuer := LatestIssuer(req.records, req.unit);
    if issuer < 0 then NoLease(NoIssuingApproval)
    else
      var ir := req.records[issuer];
      var refused := DocumentReason(req, ir.payload.approval.value);
      if refused.Some? then NoLease(refused.value)
      else
        var unit := UnitOf(req.plan.value.units, req.unit).value;
        var lease := LeaseOf(req, ir, unit);
        Judged(lease, StandingReason(req, issuer), RouteReason(req, issuer, unit), CapacityReason(req, lease))
  }

  method CheckStanding(req: Request, issuer: int) returns (o: Option<Reason>)
    requires Placed(req.records) && 0 <= issuer < |req.records| && req.records[issuer].payload.approval.Some?
    requires req.plan.Some? && req.contract.Some?
    ensures o == StandingReason(req, issuer)
  {
    var state := ProjectStageState(req.records);
    if state.terminal {
      return Some(RunTerminal);
    }
    if !SameIds(req.contract.value.criteria, state.criteria) {
      return Some(CriteriaChanged);
    }
    var changed := IssuerWaiversChanged(req.records, issuer);
    if changed {
      return Some(WaiverChanged);
    }
    var deps := PlanGraph.DependencyClosure(GraphOf(req.plan.value), req.unit);
    var start := issuer;
    var ri := RouteApprovalFor(req.records[..issuer + 1], req.unit);
    if ri >= 0 && ri < issuer {
      start := ri;
    }
    o := FindOffence(req.records, start, issuer, req.unit, deps);
  }

  method CheckRoute(req: Request, issuer: int, unit: PlanUnit) returns (o: Option<Reason>)
    requires Placed(req.records) && 0 <= issuer < |req.records| && req.records[issuer].payload.approval.Some?
    ensures o == RouteReason(req, issuer, unit)
  {
    var ri := RouteApprovalFor(req.records[..issuer + 1], req.unit);
    if !RouteNamed(req, ri, unit) {
      return Some(RouteMismatch);
    }
    if ri != issuer {
      var changed := IssuerWaiversChanged(req.records, ri);
      if changed || req.records[ri].payload.approval.value.acceptedPlan != req.records[issuer].payload.approval.value.acceptedPlan {
        return Some(WaiverChanged);
      }
    }
    if !(req.route.value.permissions <= unit.permissions) {
      return Some(RouteMismatch);
    }
    return None;
  }

  method DeriveLease(req: Request) returns (d: Derivation)
    requires Placed(req.records)
    ensures d == Derived(req)
    ensures !d.NoLease? ==> req.plan.Some?
  {
    var issuer := IssuerFor(req.records, req.unit);
    if req.unit == "" || issuer < 0 {
      return NoLease(NoIssuingApproval);
    }
    var ir := req.records[issuer];
    var a := ir.payload.approval.value;
    if req.plan.None? {
      return NoLease(PlanInvalid);
    }
    if DigestOfPlan(req.plan.value) != a.acceptedPlan || req.plan.value.runId != a.runId {
      return NoLease(PlanMismatch);
    }
    var found := FindUnit(req.plan.value.units, req.unit);
    if found.None? {
      return NoLease(UnitNotInPlan);
    }
    var bound := BoundContractDigest(req.records);
    if !ContractCarries(req, a, bound) {
      return NoLease(ContractMismatch);
    }
    if !a.timestamp.At? {
      return NoLease(NoIssuingApproval);
    }
    var lease := LeaseOf(req, ir, found.value);
    var standing := CheckStanding(req, issuer);
    if standing.Some? {
      return Inactive(lease, standing.value);
    }
    var route := CheckRoute(req, issuer, found.value);
    if route.Some? {
      return Inactive(lease, route.value);
    }
    var capacity := CapacityReason(req, lease);
    if capacity.Some? {
      return Inactive(lease, capacity.value);
    }
    return Active(lease);
  }

  // ---- what an active lease means ----

  ghost predicate IsActive(req: Request) {
    Derived(req).Active?
  }

  // Why the derivation itself found the generation ended.
  predicate EndedByChain(reason: Reason) {
    reason.RunTerminal? || reason.Rewound? || reason.LeftStage? || reason.WaiverChanged?
  }

  // The issuer the derivation found, and what it carries.
  ghost predicate Carried(req: Request, issuer: int) {
    && issuer == LatestIssuer(req.records, req.unit) && 0 <= issuer && req.plan.Some? && req.contract.Some?
    && IssuesLease(req.records[issuer], req.unit)
    && req.records[issuer].payload.approval.value.acceptedPlan == DigestOfPlan(req.plan.value)
    && req.records[issuer].payload.approval.value.timestamp.At? && UnitOf(req.plan.value.units, req.unit).Some?
  }

  function UnitFor(req: Request): PlanUnit
    requires req.plan.Some? && UnitOf(req.plan.value.units, req.unit).Some?
  {
    UnitOf(req.plan.value.units, req.unit).value
  }

  ghost predicate Stands(req: Request, issuer: int, lease: Lease)
    requires Carried(req, issuer)
  {
    StandingReason(req, issuer).None? && RouteReason(req, issuer, UnitFor(req)).None? && CapacityReason(req, lease).None?
  }

  ghost predicate Fell(req: Request, issuer: int, reason: Reason)
    requires Carried(req, issuer)
  {
    StandingReason(req, issuer) == Some(reason) || RouteReason(req, issuer, UnitFor(req)) == Some(reason)
  }

  // A derivation that found a lease, and the reasons it weighed.
  lemma Weighed(req: Request) returns (issuer: nat)
    requires !Derived(req).NoLease?
    ensures Carried(req, issuer)
    ensures
      var lease := LeaseOf(req, req.records[issuer], UnitFor(req));
      Derived(req) == Judged(lease, StandingReason(req, issuer), RouteReason(req, issuer, UnitFor(req)), CapacityReason(req, lease))
  {
    issuer := LatestIssuer(req.records, req.unit);
  }

  lemma CapacityNeverEnds(req: Request, lease: Lease)
    ensures CapacityReason(req, lease).Some? ==> !EndedByChain(CapacityReason(req, lease).value)
  {
  }

  lemma ActiveStands(req: Request) returns (issuer: nat)
    requires IsActive(req)
    ensures Carried(req, issuer) && Derived(req).lease == LeaseOf(req, req.records[issuer], UnitFor(req))
    ensures Stands(req, issuer, Derived(req).lease)
  {
    issuer := Weighed(req);
  }

  lemma EndedFell(req: Request) returns (issuer: nat)
    requires Derived(req).Inactive? && EndedByChain(Derived(req).reason)
    ensures Carried(req, issuer) && Derived(req).lease == LeaseOf(req, req.records[issuer], UnitFor(req))
    ensures Fell(req, issuer, Derived(req).reason)
  {
    issuer := Weighed(req);
    CapacityNeverEnds(req, LeaseOf(req, req.records[issuer], UnitFor(req)));
  }

  // After the issuer, the derivation's scan and the revocation scan look for
  // the same moves.
  lemma OffenceIsRevocation(r: Record, unit: string, deps: set<string>, issuer: int)
    requires r.sequence > issuer && !TerminalRecord(r)
    ensures Offence(r, false, unit, deps).Some? <==> Revokes(r, deps, unit, issuer, false)
  {
  }

  // The two scans agree: past the issuer nothing offends and the run has not
  // ended exactly when no record revokes.
  lemma ScansAgree(records: seq<Record>, issuer: nat, unit: string, deps: set<string>)
    requires Placed(records) && issuer < |records|
    ensures
      (forall k :: issuer < k < |records| ==> Offence(records[k], false, unit, deps).None? && !TerminalRecord(records[k]))
      <==> (forall r :: r in records ==> !Revokes(r, deps, unit, issuer + 1, false))
  {
    forall k | issuer < k < |records|
      ensures Offence(records[k], false, unit, deps).None? && !TerminalRecord(records[k]) <==> !Revokes(records[k], deps, unit, issuer + 1, false)
      ensures records[k] in records
    {
      if !TerminalRecord(records[k]) {
        OffenceIsRevocation(records[k], unit, deps, issuer + 1);
      }
    }
    forall k | 0 <= k <= issuer ensures !Revokes(records[k], deps, unit, issuer + 1, false) {}
  }

  lemma {:induction false} NoOutcomeAnywhere(records: seq<Record>, k: nat)
    requires OutcomeOf(records).NoOutcome? && k < |records|
    ensures !TerminalRecord(records[k])
  {
    var n := |records| - 1;
    if k < n && !TerminalRecord(records[n]) {
      NoOutcomeAnywhere(records[..n], k);
    }
  }

  // What a standing lease's scan found: nothing.
  ghost predicate Clear(records: seq<Record>, unit: string, issuer: int, deps: set<string>)
    requires 0 <= issuer < |records|
  {
    && (forall k :: 0 <= k < |records| ==> !TerminalRecord(records[k]))
    && (forall k :: Start(records, unit, issuer) < k < |records| ==> Offence(records[k], k <= issuer, unit, deps).None?)
  }

  lemma StandingIsClear(req: Request, issuer: nat)
    requires Carried(req, issuer) && StandingReason(req, issuer).None?
    ensures Clear(req.records, req.unit, issuer, DependenciesOf(req.plan.value, req.unit))
    ensures !WaiversChanged(req.records, issuer)
  {
    FirstOffenceFinds(req.records, Start(req.records, req.unit, issuer) + 1, issuer, req.unit, DependenciesOf(req.plan.value, req.unit));
    forall k | 0 <= k < |req.records| ensures !TerminalRecord(req.records[k]) {
      NoOutcomeAnywhere(req.records, k);
    }
  }

  lemma ClearMeansUnrevoked(records: seq<Record>, unit: string, issuer: nat, deps: set<string>, end: int)
    requires Placed(records) && issuer < |records| && Clear(records, unit, issuer, deps)
    ensures EndAfter(records, deps, unit, issuer + 1, end, false) == end
  {
    ScansAgree(records, issuer, unit, deps);
    Unrevoked(records, deps, unit, issuer + 1, end, false);
  }

  // While a lease is active its end has not been brought forward: the
  // revocation scan for its unit and issuer returns the wall-time end.
  lemma ActiveMeansUnrevoked(req: Request)
    requires Placed(req.records) && IsActive(req)
    ensures
      var lease := Derived(req).lease;
      EndOf(req.records, req.plan.value, req.unit, lease.issuerSequence, lease.validUntil) == lease.validUntil
  {
    var issuer := ActiveStands(req);
    StandingIsClear(req, issuer);
    ClearMeansUnrevoked(req.records, req.unit, issuer, DependenciesOf(req.plan.value, req.unit), Derived(req).lease.validUntil);
  }

  // ---- exactly when a lease is active ----

  ghost predicate Untouched(req: Request, issuer: int)
    requires Carried(req, issuer)
  {
    && OutcomeOf(req.records).NoOutcome? && SameIds(req.contract.value.criteria, CriteriaOf(req.records))
    && !WaiversChanged(req.records, issuer)
    && forall k :: Start(req.records, req.unit, issuer) < k < |req.records| ==>
         Offence(req.records[k], k <= issuer, req.unit, DependenciesOf(req.plan.value, req.unit)).None?
  }

  ghost predicate OnApprovedRoute(req: Request, issuer: int)
    requires Carried(req, issuer)
  {
    var ri := LatestRoute(req.records[..issuer + 1], req.unit);
    && RouteNamed(req, ri, UnitFor(req)) && (ri != issuer ==> !RouteApprovalStale(req.records, ri, req.records[issuer]))
    && req.route.value.permissions <= UnitFor(req).permissions
  }

  predicate WithinLimits(req: Request, issued: int, unit: PlanUnit, policy: string) {
    && issued <= req.now < issued + unit.budgets.maxWallMinutes * MINUTE
    && 0 <= req.counters.attempts < unit.budgets.maxAttempts && 0 <= req.counters.costSpent < unit.budgets.costCeiling
    && req.policyDigest == policy != ""
  }

  // The contract presented is the one the latest acceptance and the issuer
  // bind, and the plan fits it.
  ghost predicate BindsContract(req: Request, a: Approval)
    requires req.plan.Some? && req.contract.Some?
  {
    && a.contractDigest == DigestOfContract(req.contract.value) && PlanFits(req.plan.value, req.contract.value)
    && exists k :: LatestAcceptance(req.records, k) && req.records[k].payload.approval.value.contractDigest == a.contractDigest
  }

  lemma BindsExactly(req: Request, a: Approval)
    requires req.plan.Some? && req.contract.Some?
    ensures ContractCarries(req, a, BoundContract(req.records)) <==> BindsContract(req, a)
  {
    BoundContractExactly(req.records);
  }

  // The unit's latest issuer carries the presented documents, nothing since
  // touches it, and the route, the time, the counters and the policy fit.
  ghost predicate Authorizes(req: Request, issuer: int) {
    && Carried(req, issuer)
    && var a := req.records[issuer].payload.approval.value;
       && a.runId == req.plan.value.runId && BindsContract(req, a)
       && Untouched(req, issuer) && OnApprovedRoute(req, issuer)
       && WithinLimits(req, a.timestamp.time, UnitFor(req), req.plan.value.policyDigest)
  }

  lemma StandingExactly(req: Request, issuer: nat)
    requires Carried(req, issuer)
    ensures StandingReason(req, issuer).None? <==> Untouched(req, issuer)
  {
    FirstOffenceFinds(req.records, Start(req.records, req.unit, issuer) + 1, issuer, req.unit, DependenciesOf(req.plan.value, req.unit));
  }

  lemma RouteExactly(req: Request, issuer: nat)
    requires Carried(req, issuer)
    ensures RouteReason(req, issuer, UnitFor(req)).None? <==> OnApprovedRoute(req, issuer)
  {
  }

  // The record at ri is the unit's latest route approval when the issuer was
  // recorded, and the selected route is the one it approved: the plan's
  // implementer, under that approval's digest, within the unit's permissions.
  // A correction keeps its route approval only while the plan is the same and
  // no waiver that approval bound has been touched.
  ghost predicate ApprovedRoute(req: Request, issuer: int, ri: int)
    requires Carried(req, issuer)
  {
    && 0 <= ri <= issuer && ApprovesRoute(req.records[ri], req.unit)
    && (forall k :: ri < k <= issuer ==> !ApprovesRoute(req.records[k], req.unit))
    && req.route.Some? && req.route.value.identity == UnitFor(req).implementer
    && {} < req.route.value.permissions <= UnitFor(req).permissions
    && req.route.value.approvalDigest == req.records[ri].payload.approval.value.transitionDigest != ""
    && (ri < issuer ==>
          && !WaiversChanged(req.records, ri)
          && req.records[ri].payload.approval.value.acceptedPlan == req.records[issuer].payload.approval.value.acceptedPlan)
  }

  // LatestRoute finds the one approval with none after it.
  lemma LatestRouteIs(records: seq<Record>, unit: string, issuer: nat, ri: int)
    requires issuer < |records|
    ensures LatestRoute(records[..issuer + 1], unit) == ri >= 0 <==>
              0 <= ri <= issuer && ApprovesRoute(records[ri], unit) && forall k :: ri < k <= issuer ==> !ApprovesRoute(records[k], unit)
  {
    var upTo := records[..issuer + 1];
    var latest := LatestRoute(upTo, unit);
    forall k | latest < k <= issuer ensures !ApprovesRoute(records[k], unit) {
      assert upTo[k] == records[k];
    }
    assert latest >= 0 ==> ApprovesRoute(records[latest], unit);
  }

  lemma OnRouteIsApproved(req: Request, issuer: nat, ri: int)
    requires Carried(req, issuer) && OnApprovedRoute(req, issuer)
    requires ri == LatestRoute(req.records[..issuer + 1], req.unit)
    ensures ApprovedRoute(req, issuer, ri)
  {
    LatestRouteIs(req.records, req.unit, issuer, ri);
  }

  lemma ApprovedIsOnRoute(req: Request, issuer: nat, ri: int)
    requires Carried(req, issuer) && ApprovedRoute(req, issuer, ri)
    ensures OnApprovedRoute(req, issuer)
  {
    LatestRouteIs(req.records, req.unit, issuer, ri);
  }

  // The authority is watched from the unit's latest route approval at the
  // issuer, if the issuer is a later correction, and from the issuer otherwise.
  lemma StartExactly(records: seq<Record>, unit: string, issuer: nat, ri: int)
    requires issuer < |records| && 0 <= ri < issuer && ApprovesRoute(records[ri], unit)
    requires forall k :: ri < k <= issuer ==> !ApprovesRoute(records[k], unit)
    ensures Start(records, unit, issuer) == ri
  {
    LatestRouteIs(records, unit, issuer, ri);
  }

  lemma StartAtIssuer(records: seq<Record>, unit: string, issuer: nat)
    requires issuer < |records| && (ApprovesRoute(records[issuer], unit) || forall k :: 0 <= k <= issuer ==> !ApprovesRoute(records[k], unit))
    ensures Start(records, unit, issuer) == issuer
  {
    var ri := LatestRoute(records[..issuer + 1], unit);
    LatestRouteIs(records, unit, issuer, ri);
    LatestRouteIs(records, unit, issuer, issuer);
  }

  // The route check passes if and only if some recorded approval approved the
  // selected route.
  lemma RouteIsApproved(req: Request, issuer: nat)
    requires Carried(req, issuer)
    ensures RouteReason(req, issuer, UnitFor(req)).None? <==> exists ri :: ApprovedRoute(req, issuer, ri)
  {
    RouteExactly(req, issuer);
    if OnApprovedRoute(req, issuer) {
      OnRouteIsApproved(req, issuer, LatestRoute(req.records[..issuer + 1], req.unit));
    }
    forall ri | ApprovedRoute(req, issuer, ri) ensures OnApprovedRoute(req, issuer) {
      ApprovedIsOnRoute(req, issuer, ri);
    }
  }

  lemma CarriedExactly(req: Request, issuer: nat)
    requires Carried(req, issuer)
    ensures
      var a := req.records[issuer].payload.approval.value;
      DocumentReason(req, a).None? <==> a.runId == req.plan.value.runId && BindsContract(req, a)
  {
    BindsExactly(req, req.records[issuer].payload.approval.value);
  }

  lemma ActiveAuthorizes(req: Request) returns (issuer: nat)
    requires IsActive(req)
    ensures Authorizes(req, issuer)
  {
    issuer := ActiveStands(req);
    StandingExactly(req, issuer);
    RouteExactly(req, issuer);
    CarriedExactly(req, issuer);
  }

  lemma AuthorizedIsActive(req: Request, issuer: nat)
    requires Authorizes(req, issuer)
    ensures IsActive(req)
  {
    StandingExactly(req, issuer);
    RouteExactly(req, issuer);
    CarriedExactly(req, issuer);
  }

  // Whatever order the derivation asks in, and whichever reason it reports, a
  // lease is active if and only if everything it rests on holds at once.
  lemma ActiveExactly(req: Request)
    ensures IsActive(req) <==> exists issuer :: Authorizes(req, issuer)
  {
    if IsActive(req) {
      var issuer := ActiveAuthorizes(req);
    }
    forall issuer | Authorizes(req, issuer) ensures IsActive(req) {
      AuthorizedIsActive(req, issuer);
    }
  }

  // An active lease never exceeds the contract the human accepted last: its
  // limits, its permissions and its worker are within the contract's, and the
  // policy is the contract's.
  lemma ActiveWithinContract(req: Request) returns (k: nat, contract: Contract)
    requires IsActive(req)
    ensures LatestAcceptance(req.records, k)
    ensures req.records[k].payload.approval.value.contractDigest == DigestOfContract(contract)
    ensures
      var budgets := Derived(req).lease.budgets;
      && budgets.maxAttempts <= contract.budgets.maxAttempts && budgets.maxWallMinutes <= contract.budgets.maxWallMinutes
      && budgets.costCeiling <= contract.budgets.costCeiling
    ensures req.route.Some? && req.route.value.identity in contract.permittedRoutes
    ensures req.route.value.permissions <= contract.permissionEnvelope && req.policyDigest == contract.policyDigest
  {
    var issuer := ActiveAuthorizes(req);
    var i := ActiveStands(req);
    contract := req.contract.value;
    var at: int :| LatestAcceptance(req.records, at)
      && req.records[at].payload.approval.value.contractDigest == req.records[issuer].payload.approval.value.contractDigest;
    k := at;
    UnitFitsContract(req, contract);
  }

  // Every unit of the plan under an active lease keeps to the contract: its
  // three routes are permitted, it advances only criteria of the contract,
  // and no criterion is left without a unit that advances it.
  lemma ActivePlanCovers(req: Request) returns (contract: Contract)
    requires IsActive(req)
    ensures req.contract == Some(contract) && req.plan.Some? && Covers(req.plan.value, contract)
  {
    var issuer := ActiveAuthorizes(req);
    contract := req.contract.value;
    FitsCovers(req.plan.value, contract);
  }

  ghost predicate Covers(plan: Plan, contract: Contract) {
    && plan.contractDigest == DigestOfContract(contract) && plan.runId == contract.runId && plan.policyDigest == contract.policyDigest
    && (forall u <- plan.units ::
      && {u.implementer, u.escalation, u.validator} <= contract.permittedRoutes
      && (forall id <- u.criteriaAdvanced :: id in contract.criteria))
    && (forall id <- contract.criteria :: exists u <- plan.units :: id in u.criteriaAdvanced)
  }

  lemma FitsCovers(plan: Plan, contract: Contract)
    requires PlanFits(plan, contract)
    ensures Covers(plan, contract)
  {
  }

  lemma UnitFitsContract(req: Request, contract: Contract)
    requires req.plan.Some? && UnitOf(req.plan.value.units, req.unit).Some? && PlanFits(req.plan.value, contract)
    ensures
      var u := UnitFor(req);
      && u.budgets.maxAttempts <= contract.budgets.maxAttempts && u.budgets.maxWallMinutes <= contract.budgets.maxWallMinutes
      && u.budgets.costCeiling <= contract.budgets.costCeiling
      && u.implementer in contract.permittedRoutes && u.permissions <= contract.permissionEnvelope
      && req.plan.value.policyDigest == contract.policyDigest
  {
    UnitIsLast(req.plan.value.units, req.unit);
  }

  // ---- no revival ----

  // A generation the chain itself has ended.
  ghost predicate Void(records: seq<Record>, unit: string, issuer: int, plan: Plan)
    requires 0 <= issuer < |records| && records[issuer].payload.approval.Some?
  {
    var deps := DependenciesOf(plan, unit);
    var ri := LatestRoute(records[..issuer + 1], unit);
    || (exists k :: 0 <= k < |records| && TerminalRecord(records[k]))
    || WaiversChanged(records, issuer)
    || (0 <= ri < issuer && RouteApprovalStale(records, ri, records[issuer]))
    || (exists k :: Start(records, unit, issuer) < k < |records| && Offence(records[k], k <= issuer, unit, deps).Some?)
  }

  lemma WaiverChangePersists(records: seq<Record>, later: seq<Record>, issuer: int)
    requires 0 <= issuer < |records| && records[issuer].payload.approval.Some? && records <= later
    ensures WaiversChanged(records, issuer) ==> WaiversChanged(later, issuer)
  {
    assert later[..issuer] == records[..issuer];
    var bound := records[issuer].payload.approval.value.activeWaivers;
    var live := LiveGrants(records[..issuer]);
    forall i | 0 <= i < |bound| && TouchedAfter(records, issuer, live, bound[i]) ensures TouchedAfter(later, issuer, live, bound[i]) {
      var s, k :| Names(live, s, bound[i]) && issuer < k < |records| && Touches(records[k], s);
      assert Touches(later[k], s);
    }
  }

  lemma VoidPersists(records: seq<Record>, later: seq<Record>, unit: string, issuer: int, plan: Plan)
    requires 0 <= issuer < |records| && records[issuer].payload.approval.Some? && records <= later
    requires Void(records, unit, issuer, plan)
    ensures Void(later, unit, issuer, plan)
  {
    assert later[..issuer + 1] == records[..issuer + 1];
    assert forall k :: 0 <= k < |records| ==> later[k] == records[k];
    WaiverChangePersists(records, later, issuer);
    var ri := LatestRoute(records[..issuer + 1], unit);
    if 0 <= ri < issuer {
      WaiverChangePersists(records, later, ri);
    }
  }

  lemma ActiveIsNotVoid(req: Request, issuer: nat)
    requires Carried(req, issuer) && StandingReason(req, issuer).None? && RouteReason(req, issuer, UnitFor(req)).None?
    ensures !Void(req.records, req.unit, issuer, req.plan.value)
  {
    StandingIsClear(req, issuer);
  }

  lemma {:induction false} OutcomeWasRecorded(records: seq<Record>)
    requires !OutcomeOf(records).NoOutcome?
    ensures exists k :: 0 <= k < |records| && TerminalRecord(records[k])
  {
    var n := |records| - 1;
    if TerminalRecord(records[n]) {
    } else {
      OutcomeWasRecorded(records[..n]);
      assert forall k :: 0 <= k < n ==> records[..n][k] == records[k];
    }
  }

  lemma StandingMeansVoid(req: Request, issuer: nat, reason: Reason)
    requires Carried(req, issuer) && EndedByChain(reason) && StandingReason(req, issuer) == Some(reason)
    ensures Void(req.records, req.unit, issuer, req.plan.value)
  {
    var deps := DependenciesOf(req.plan.value, req.unit);
    FirstOffenceFinds(req.records, Start(req.records, req.unit, issuer) + 1, issuer, req.unit, deps);
    if !OutcomeOf(req.records).NoOutcome? {
      OutcomeWasRecorded(req.records);
    }
  }

  lemma RouteMeansVoid(req: Request, issuer: nat, reason: Reason)
    requires Carried(req, issuer) && EndedByChain(reason) && RouteReason(req, issuer, UnitFor(req)) == Some(reason)
    ensures Void(req.records, req.unit, issuer, req.plan.value)
  {
  }

  lemma EndedMeansVoid(req: Request, issuer: nat, reason: Reason)
    requires Carried(req, issuer) && EndedByChain(reason) && Fell(req, issuer, reason)
    ensures Void(req.records, req.unit, issuer, req.plan.value)
  {
    if StandingReason(req, issuer) == Some(reason) {
      StandingMeansVoid(req, issuer, reason);
    } else {
      RouteMeansVoid(req, issuer, reason);
    }
  }

  lemma LatestIssuerAdvances(records: seq<Record>, later: seq<Record>, unit: string)
    requires records <= later
    ensures LatestIssuer(later, unit) >= LatestIssuer(records, unit)
  {
    var i := LatestIssuer(records, unit);
    if i >= 0 {
      assert later[i] == records[i];
    }
  }

  // Once a generation has ended by rewind, departure, waiver change or a
  // terminal outcome, no extension of the chain makes it active again,
  // whatever documents, route, counters, policy or time are presented: a lease
  // active later is of a later generation.
  lemma NoRevival(req: Request, later: Request)
    requires Placed(req.records) && Placed(later.records) && req.records <= later.records && req.unit == later.unit
    requires Derived(req).Inactive? && EndedByChain(Derived(req).reason) && IsActive(later)
    ensures Derived(later).lease.issuerSequence > Derived(req).lease.issuerSequence
  {
    var i := EndedFell(req);
    var j := ActiveStands(later);
    LatestIssuerAdvances(req.records, later.records, req.unit);
    EndedMeansVoid(req, i, Derived(req).reason);
    ActiveIsNotVoid(later, j);
    assert later.records[i] == req.records[i];
    if i == j {
      VoidPersists(req.records, later.records, req.unit, i, req.plan.value);
      assert false;
    }
  }
}
