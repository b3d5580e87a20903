// The two traversals of a plan's dependency graph: the three-colour search of
// internal/model/contract.go (ValidatePlan) and the marking search of
// internal/engine/lease.go (dependencyClosure).
module PlanGraph {
  // Dependencies by unit; a unit the map does not name has none.
  type Graph = map<string, seq<string>>

  function Deps(g: Graph, u: string): seq<string> {
    if u in g then g[u] else []
  }

  ghost predicate IsPath(g: Graph, p: seq<string>) {
    p != [] && forall i, j :: 0 <= i && j == i + 1 < |p| ==> p[j] in Deps(g, p[i])
  }

  ghost predicate Joins(g: Graph, u: string, v: string, p: seq<string>) {
    IsPath(g, p) && |p| >= 2 && p[0] == u && p[|p| - 1] == v
  }

  // u depends on v, directly or through other units.
  ghost predicate DependsOn(g: Graph, u: string, v: string) {
    exists p :: Joins(g, u, v, p)
  }

  ghost predicate Acyclic(g: Graph) {
    forall u :: !DependsOn(g, u, u)
  }

  lemma ExtendPath(g: Graph, p: seq<string>, v: string)
    requires IsPath(g, p) && v in Deps(g, p[|p| - 1])
    ensures IsPath(g, p + [v])
  {
    var q := p + [v];
    forall i, j | 0 <= i && j == i + 1 < |q| ensures q[j] in Deps(g, q[i]) {
      if j < |p| {
        assert p[j] in Deps(g, p[i]);
      }
    }
  }

  lemma PathSlice(g: Graph, p: seq<string>, lo: nat, hi: nat)
    requires IsPath(g, p) && lo < hi <= |p|
    ensures IsPath(g, p[lo..hi])
  {
    var q := p[lo..hi];
    forall i, j | 0 <= i && j == i + 1 < |q| ensures q[j] in Deps(g, q[i]) {
      assert p[lo + j] in Deps(g, p[lo + i]);
    }
  }

  lemma EdgeDepends(g: Graph, u: string, v: string)
    requires v in Deps(g, u)
    ensures DependsOn(g, u, v)
  {
    assert Joins(g, u, v, [u, v]);
  }

  lemma DependsThen(g: Graph, u: string, v: string, w: string)
    requires DependsOn(g, u, v) && w in Deps(g, v)
    ensures DependsOn(g, u, w)
  {
    var p :| Joins(g, u, v, p);
    assert Joins(g, u, w, p + [w]);
  }

  // A set that holds u's dependencies and everything its members depend on
  // directly holds everything u depends on.
  lemma {:induction false} ClosedHoldsPath(g: Graph, s: set<string>, p: seq<string>)
    requires IsPath(g, p) && |p| >= 2
    requires forall d :: d in Deps(g, p[0]) ==> d in s
    requires forall v, d :: v in s && d in Deps(g, v) ==> d in s
    ensures p[|p| - 1] in s
    decreases |p|
  {
    if |p| > 2 {
      ClosedHoldsPath(g, s, p[..|p| - 1]);
      assert p[|p| - 1] in Deps(g, p[|p| - 2]);
    } else {
      assert p[1] in Deps(g, p[0]);
    }
  }

  // Units in an order where each comes after everything it depends on.
  ghost predicate Ordered(g: Graph, order: seq<string>) {
    forall i, d :: 0 <= i < |order| && d in Deps(g, order[i]) ==> d in order[..i]
  }

  lemma {:induction false} PathGoesDown(g: Graph, order: seq<string>, p: seq<string>, i: nat)
    requires Ordered(g, order) && IsPath(g, p) && |p| >= 2 && i < |order| && order[i] == p[0]
    ensures p[|p| - 1] in order[..i]
    decreases |p|
  {
    var d := p[1];
    assert d in Deps(g, p[0]);
    if |p| > 2 {
      var j :| 0 <= j < i && order[j] == d;
      PathGoesDown(g, order, p[1..], j);
    }
  }

  lemma OrderedIsAcyclic(g: Graph, order: seq<string>)
    requires Ordered(g, order) && forall u :: u in g ==> u in order
    ensures Acyclic(g)
  {
    forall u ensures !DependsOn(g, u, u) {
      if p :| Joins(g, u, u, p) {
        assert p[1] in Deps(g, p[0]);
        var i :| 0 <= i < |order| && order[i] == u;
        Descend(g, order, p, i);
      }
    }
  }

  lemma {:induction false} Descend(g: Graph, order: seq<string>, p: seq<string>, i: nat)
    requires Ordered(g, order) && IsPath(g, p) && |p| >= 2 && p[0] == p[|p| - 1] && i < |order| && order[i] == p[0]
    ensures false
    decreases i
  {
    PathGoesDown(g, order, p, i);
    var j :| 0 <= j < i && order[j] == p[0];
    Descend(g, order, p, j);
  }

  // ------------------------------------------------------------------
  // ValidatePlan.
  // ------------------------------------------------------------------

  datatype Unit = Unit(id: string, dependencies: seq<string>)

  datatype PlanResult = Accepted | NoUnits | BadUnit | BadDependency | Cycle

  // Later units overwrite earlier ones of the same id, as map assignment does.
  function GraphOf(units: seq<Unit>): Graph {
    if units == [] then map[]
    else GraphOf(units[..|units| - 1])[units[|units| - 1].id := units[|units| - 1].dependencies]
  }

  lemma {:induction false} GraphOfDistinct(units: seq<Unit>)
    ensures forall k :: k in GraphOf(units) <==> exists i :: 0 <= i < |units| && units[i].id == k
    ensures (forall i, j :: 0 <= i < j < |units| ==> units[i].id != units[j].id) ==>
              forall i :: 0 <= i < |units| ==> units[i].id in GraphOf(units) && GraphOf(units)[units[i].id] == units[i].dependencies
  {
    if units != [] {
      GraphOfDistinct(units[..|units| - 1]);
    }
  }

  // The checks before the search: unit ids present, distinct and well formed,
  // dependencies known and not the unit itself.
  ghost predicate UnitsOk(formOk: Unit -> bool, units: seq<Unit>) {
    && units != []
    && (forall i :: 0 <= i < |units| ==> formOk(units[i]))
    && (forall i, j :: 0 <= i < j < |units| ==> units[i].id != units[j].id)
  }

  ghost predicate KnownDependencies(g: Graph, u: Unit) {
    forall d :: d in u.dependencies ==> d in g && d != u.id
  }

  ghost predicate DependenciesOk(units: seq<Unit>) {
    forall i :: 0 <= i < |units| ==> KnownDependencies(GraphOf(units), units[i])
  }

  const WHITE := 0
  const GREY := 1
  const BLACK := 2

  function Colour(state: map<string, int>, u: string): int {
    if u in state then state[u] else WHITE
  }

  // The grey units are the path being searched; the black ones come in an
  // order that no dependency goes against.
  ghost predicate Consistent(g: Graph, state: map<string, int>, order: seq<string>, stack: seq<string>) {
    && (forall u :: Colour(state, u) == GREY <==> u in stack)
    && (forall u :: Colour(state, u) == BLACK <==> u in order)
    && (forall u :: Colour(state, u) in {WHITE, GREY, BLACK})
    && Ordered(g, order)
    && (stack == [] || IsPath(g, stack))
  }

  lemma TurnGrey(g: Graph, state: map<string, int>, order: seq<string>, stack: seq<string>, id: string)
    requires Consistent(g, state, order, stack) && Colour(state, id) == WHITE
    requires stack != [] ==> id in Deps(g, stack[|stack| - 1])
    ensures Consistent(g, state[id := GREY], order, stack + [id])
  {
    var state' := state[id := GREY];
    assert forall u :: u in stack + [id] <==> u in stack || u == id;
    assert forall u :: Colour(state', u) == if u == id then GREY else Colour(state, u);
    if stack != [] {
      ExtendPath(g, stack, id);
    }
  }

  lemma TurnBlack(g: Graph, state: map<string, int>, order: seq<string>, stack: seq<string>, id: string)
    requires Consistent(g, state, order, stack + [id]) && id !in stack
    requires forall d :: d in Deps(g, id) ==> Colour(state, d) == BLACK
    ensures Consistent(g, state[id := BLACK], order + [id], stack)
  {
    var after := order + [id];
    forall i, d | 0 <= i < |after| && d in Deps(g, after[i]) ensures d in after[..i] {
      if i < |order| {
        assert after[i] == order[i] && after[..i] == order[..i];
      } else {
        assert after[..i] == order;
        assert Colour(state, d) == BLACK;
      }
    }
    var state' := state[id := BLACK];
    assert forall u :: u in stack + [id] <==> u in stack || u == id;
    assert forall u :: u in after <==> u in order || u == id;
    assert forall u :: Colour(state', u) == if u == id then BLACK else Colour(state, u);
    if stack != [] {
      PathSlice(g, stack + [id], 0, |stack|);
      assert (stack + [id])[0..|stack|] == stack;
    }
  }

  lemma GreyMeansCycle(g: Graph, state: map<string, int>, order: seq<string>, stack: seq<string>, id: string)
    requires Consistent(g, state, order, stack) && Colour(state, id) == GREY
    requires stack != [] ==> id in Deps(g, stack[|stack| - 1])
    ensures !Acyclic(g)
  {
    var i :| 0 <= i < |stack| && stack[i] == id;
    PathSlice(g, stack, i, |stack|);
    var p := stack[i..|stack|];
    ExtendPath(g, p, id);
    assert Joins(g, id, id, p + [id]);
    assert DependsOn(g, id, id);
  }

  ghost function White(g: Graph, state: map<string, int>): set<string> {
    set u | u in g && Colour(state, u) == WHITE
  }

  ghost predicate StaysBlack(before: map<string, int>, after: map<string, int>) {
    forall u :: Colour(before, u) == BLACK ==> Colour(after, u) == BLACK
  }

  class CycleSearch {
    const g: Graph
    var state: map<string, int>
    ghost var order: seq<string>

    constructor (g: Graph)
      ensures this.g == g && state == map[] && order == []
    {
      this.g := g;
      state := map[];
      order := [];
    }

    // visit: false exactly when it ran into a grey unit, which closes a cycle.
    method Visit(id: string, ghost stack: seq<string>) returns (ok: bool)
      requires id in g && forall u, d :: u in g && d in g[u] ==> d in g
      requires Consistent(g, state, order, stack)
      requires stack != [] ==> id in Deps(g, stack[|stack| - 1])
      modifies this
      ensures ok ==> Consistent(g, state, order, stack) && Colour(state, id) == BLACK
      ensures ok ==> StaysBlack(old(state), state) && White(g, state) <= White(g, old(state))
      ensures !ok ==> !Acyclic(g)
      decreases White(g, state)
    {
      if Colour(state, id) == GREY {
        GreyMeansCycle(g, state, order, stack, id);
        return false;
      }
      if Colour(state, id) == BLACK {
        return true;
      }
      assert id in White(g, state) && id !in stack;
      TurnGrey(g, state, order, stack, id);
      state := state[id := GREY];
      ghost var inner := stack + [id];
      var deps := g[id];
      for i := 0 to |deps|
        invariant Consistent(g, state, order, inner)
        invariant forall j :: 0 <= j < i ==> Colour(state, deps[j]) == BLACK
        invariant StaysBlack(old(state), state)
        invariant White(g, state) <= White(g, old(state)) - {id}
      {
        assert deps[i] in g[id];
        ok := Visit(deps[i], inner);
        if !ok {
          return;
        }
      }
      TurnBlack(g, state, order, stack, id);
      state := state[id := BLACK];
      order := order + [id];
      return true;
    }
  }

  // The unit loop: every unit present, well formed and seen once.
  method CheckUnits(formOk: Unit -> bool, units: seq<Unit>) returns (ok: bool, byId: Graph)
    ensures ok <==> UnitsOk(formOk, units)
    ensures ok ==> byId == GraphOf(units)
  {
    byId := map[];
    if units == [] {
      return false, byId;
    }
    for i := 0 to |units|
      invariant byId == GraphOf(units[..i])
      invariant forall j :: 0 <= j < i ==> formOk(units[j])
      invariant forall j, k :: 0 <= j < k < i ==> units[j].id != units[k].id
    {
      assert units[..i + 1][..i] == units[..i];
      GraphOfDistinct(units[..i]);
      assert units[i].id in byId ==> exists j :: 0 <= j < i && units[..i][j] == units[j] && units[j].id == units[i].id;
      if units[i].id in byId || !formOk(units[i]) {
        return false, byId;
      }
      byId := byId[units[i].id := units[i].dependencies];
    }
    assert units[..|units|] == units;
    return true, byId;
  }

  // The dependency loop: every dependency known, and not the unit itself.
  method CheckDependencies(units: seq<Unit>, byId: Graph) returns (ok: bool)
    requires byId == GraphOf(units)
    ensures ok <==> DependenciesOk(units)
  {
    for i := 0 to |units|
      invariant forall j :: 0 <= j < i ==> KnownDependencies(byId, units[j])
    {
      var deps := units[i].dependencies;
      for k := 0 to |deps|
        invariant forall m :: 0 <= m < k ==> deps[m] in byId && deps[m] != units[i].id
      {
        if deps[k] !in byId || deps[k] == units[i].id {
          assert deps[k] in units[i].dependencies;
          assert !KnownDependencies(byId, units[i]);
          return false;
        }
      }
    }
    return true;
  }

  // ValidatePlan on the units: given its other checks pass, it accepts exactly
  // the acyclic plans. formOk stands for the id and field checks of one unit.
  method ValidatePlan(formOk: Unit -> bool, units: seq<Unit>) returns (res: PlanResult)
    ensures res.Accepted? <==> UnitsOk(formOk, units) && DependenciesOk(units) && Acyclic(GraphOf(units))
    ensures res.Accepted? ==> forall u :: u !in Closure(GraphOf(units), u)
    ensures res.Cycle? <==> UnitsOk(formOk, units) && DependenciesOk(units) && !Acyclic(GraphOf(units))
  {
    if units == [] {
      return NoUnits;
    }
    var ok, byId := CheckUnits(formOk, units);
    if !ok {
      return BadUnit;
    }
    ok := CheckDependencies(units, byId);
    if !ok {
      return BadDependency;
    }
    GraphOfDistinct(units);
    var search := new CycleSearch(byId);
    // The source visits the ids in sorted order; the verdict does not depend on it.
    var ids := byId.Keys;
    while ids != {}
      invariant search.g == byId && ids <= byId.Keys
      invariant Consistent(byId, search.state, search.order, [])
      invariant forall u :: u in byId && u !in ids ==> Colour(search.state, u) == BLACK
      decreases ids
    {
      var id :| id in ids;
      ok := search.Visit(id, []);
      if !ok {
        return Cycle;
      }
      ids := ids - {id};
    }
    OrderedIsAcyclic(byId, search.order);
    return Accepted;
  }

  // ------------------------------------------------------------------
  // dependencyClosure.
  // ------------------------------------------------------------------

  ghost function Targets(g: Graph): set<string> {
    set u, d | u in g && d in g[u] :: d
  }

  // Every unit that u transitively depends on.
  ghost function Closure(g: Graph, u: string): (s: set<string>)
    ensures forall v :: v in s <==> DependsOn(g, u, v)
  {
    var s := set v | v in Targets(g) && DependsOn(g, u, v);
    forall v | DependsOn(g, u, v) ensures v in s {
      var p :| Joins(g, u, v, p);
      assert p[|p| - 1] in Deps(g, p[|p| - 2]);
    }
    s
  }

  class Marking {
    const g: Graph
    var out: set<string>

    constructor (g: Graph)
      ensures this.g == g && out == {}
    {
      this.g := g;
      out := {};
    }

    method Visit(id: string, ghost root: string)
      requires id == root || DependsOn(g, root, id)
      requires forall v :: v in out ==> DependsOn(g, root, v)
      modifies this
      ensures old(out) <= out
      ensures forall v :: v in out ==> DependsOn(g, root, v)
      ensures forall d :: d in Deps(g, id) ==> d in out
      ensures forall v, d :: v in out - old(out) && d in Deps(g, v) ==> d in out
      decreases Targets(g) - out
    {
      var deps := if id in g then g[id] else [];
      for i := 0 to |deps|
        invariant old(out) <= out
        invariant forall v :: v in out ==> DependsOn(g, root, v)
        invariant forall j :: 0 <= j < i ==> deps[j] in out
        invariant forall v, d :: v in out - old(out) && d in Deps(g, v) ==> d in out
      {
        var d := deps[i];
        if d !in out {
          assert id in g && d in g[id];
          assert d in Targets(g);
          if id == root { EdgeDepends(g, root, d); } else { DependsThen(g, root, id, d); }
          out := out + {d};
          Visit(d, root);
        }
      }
    }
  }

  // It terminates and marks exactly the units transitively depended on.
  method DependencyClosure(g: Graph, unit: string) returns (out: set<string>)
    ensures out == Closure(g, unit)
  {
    var marking := new Marking(g);
    marking.Visit(unit, unit);
    out := marking.out;
    forall v | DependsOn(g, unit, v) ensures v in out {
      var p :| Joins(g, unit, v, p);
      ClosedHoldsPath(g, out, p);
    }
  }
}
