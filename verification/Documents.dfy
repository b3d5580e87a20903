// The two human-bound documents, their digests and the routes they name
// (internal/model/contract.go, internal/host/host.go). A digest is modelled as
// an injective constructor over what it digests; text stands for the fields
// nothing here reads.
module Documents {
  import opened Vocabulary
  import PlanGraph

  datatype Budgets = Budgets(maxAttempts: int, maxWallMinutes: int, costCeiling: int)

  // A route without its approval reference is its identity, whatever order its
  // permission classes are listed in.
  datatype Route = Route(worker: string, model: string, effort: string, permissions: set<string>, text: string, approvalDigest: string)

  datatype RouteIdentity = RouteIdentity(worker: string, model: string, effort: string, permissions: set<string>, text: string)
                         | OtherIdentity(text: string)

  function IdentityOf(r: Route): RouteIdentity {
    RouteIdentity(r.worker, r.model, r.effort, r.permissions, r.text)
  }

  datatype RouteGrant = RouteGrant(identity: RouteIdentity, permissions: set<string>, approvalDigest: string)

  function GrantOf(r: Route): RouteGrant {
    RouteGrant(IdentityOf(r), r.permissions, r.approvalDigest)
  }

  datatype PlanUnit = PlanUnit(
    id: string, dependencies: seq<string>, criteriaAdvanced: seq<string>, budgets: Budgets, permissions: set<string>,
    implementer: RouteIdentity, escalation: RouteIdentity, validator: RouteIdentity, text: string)

  datatype Contract = Contract(
    runId: string, criteria: seq<string>, budgets: Budgets, costUnit: string, permittedRoutes: set<RouteIdentity>,
    permissionEnvelope: set<string>, policyDigest: string, text: string)

  datatype ContractDigest = NoContract | DigestOfContract(contract: Contract) | OtherContract(text: string)

  datatype Plan = Plan(runId: string, contractDigest: ContractDigest, policyDigest: string, units: seq<PlanUnit>)

  datatype PlanDigest = NoPlan | DigestOfPlan(plan: Plan) | OtherPlan(text: string)

  function Shape(units: seq<PlanUnit>): (out: seq<PlanGraph.Unit>) {
    if units == [] then []
    else Shape(units[..|units| - 1]) + [PlanGraph.Unit(units[|units| - 1].id, units[|units| - 1].dependencies)]
  }

  function GraphOf(plan: Plan): PlanGraph.Graph {
    PlanGraph.GraphOf(Shape(plan.units))
  }

  ghost function DependenciesOf(plan: Plan, unit: string): set<string> {
    PlanGraph.Closure(GraphOf(plan), unit)
  }

  // The last unit with this id, as a scan that overwrites its find leaves it.
  function UnitOf(units: seq<PlanUnit>, id: string): Option<PlanUnit> {
    if units == [] then None
    else if units[|units| - 1].id == id then Some(units[|units| - 1])
    else UnitOf(units[..|units| - 1], id)
  }

  // The last unit listed with the id, if any is.
  lemma {:induction false} UnitIsLast(units: seq<PlanUnit>, id: string)
    ensures forall k :: LastUnit(units, id, k) ==> UnitOf(units, id) == Some(units[k])
    ensures UnitOf(units, id).Some? ==> exists k :: LastUnit(units, id, k)
  {
    if units != [] {
      var n := |units| - 1;
      if units[n].id == id {
        assert LastUnit(units, id, n);
      } else {
        UnitIsLast(units[..n], id);
        forall k ensures LastUnit(units, id, k) <==> LastUnit(units[..n], id, k) {
          assert 0 <= k < n ==> units[..n][k] == units[k];
        }
        if UnitOf(units, id).Some? {
          var k :| LastUnit(units[..n], id, k);
          assert LastUnit(units, id, k);
        }
      }
    }
  }

  predicate LastUnit(units: seq<PlanUnit>, id: string, k: int) {
    0 <= k < |units| && units[k].id == id && forall i :: k < i < |units| ==> units[i].id != id
  }

  method FindUnit(units: seq<PlanUnit>, id: string) returns (unit: Option<PlanUnit>)
    ensures unit == UnitOf(units, id)
  {
    unit := None;
    for i := 0 to |units|
      invariant unit == UnitOf(units[..i], id)
    {
      assert units[..i + 1][..i] == units[..i];
      if units[i].id == id {
        unit := Some(units[i]);
      }
    }
    assert units[..|units|] == units;
  }

  predicate UnitFits(u: PlanUnit, c: Contract) {
    && u.implementer in c.permittedRoutes && u.escalation in c.permittedRoutes && u.validator in c.permittedRoutes
    && u.permissions <= c.permissionEnvelope
    && (forall i :: 0 <= i < |u.criteriaAdvanced| ==> u.criteriaAdvanced[i] in c.criteria)
    && u.budgets.maxAttempts <= c.budgets.maxAttempts && u.budgets.maxWallMinutes <= c.budgets.maxWallMinutes
    && u.budgets.costCeiling <= c.budgets.costCeiling
  }

  // ValidatePlanAgainstContract.
  predicate PlanFits(p: Plan, c: Contract) {
    && p.contractDigest == DigestOfContract(c) && p.runId == c.runId && p.policyDigest == c.policyDigest
    && (forall i :: 0 <= i < |p.units| ==> UnitFits(p.units[i], c))
    && (forall id :: id in c.criteria ==> exists i :: 0 <= i < |p.units| && id in p.units[i].criteriaAdvanced)
  }
}
