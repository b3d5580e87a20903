// The checkpoint classifier of internal/engine/checkpoint.go: path globs, the
// classes of a changed path, and the decision derived from them.
module Glob {
  type Segment = string

  // strings.Split(s, "/").
  function Split(s: string): (r: seq<Segment>)
    ensures |r| >= 1
  {
    if s == [] then [""]
    else
      var rest := Split(s[..|s| - 1]);
      if s[|s| - 1] == '/' then rest + [""]
      else rest[..|rest| - 1] + [rest[|rest| - 1] + [s[|s| - 1]]]
  }

  // The segments with a slash between each two.
  function Slashed(segs: seq<Segment>): string {
    if segs == [] then ""
    else if |segs| == 1 then segs[0]
    else Slashed(segs[..|segs| - 1]) + "/" + segs[|segs| - 1]
  }

  ghost predicate SplitOf(segs: seq<Segment>, s: string) {
    segs != [] && Slashed(segs) == s && forall i :: 0 <= i < |segs| ==> '/' !in segs[i]
  }

  // Put together again with slashes the segments are the text, and none holds
  // a slash.
  lemma {:induction false} SplitIsSplit(s: string)
    ensures SplitOf(Split(s), s)
  {
    if s != [] {
      var init, c := s[..|s| - 1], s[|s| - 1];
      SplitIsSplit(init);
      var rest := Split(init);
      assert s == init + [c];
      if c == '/' {
        assert (rest + [""])[..|rest|] == rest;
        assert Slashed(rest + [""]) == Slashed(rest) + "/" + "";
      } else {
        ExtendLast(rest, c);
      }
    }
  }

  lemma ExtendLast(segs: seq<Segment>, c: char)
    requires segs != []
    ensures Slashed(segs[..|segs| - 1] + [segs[|segs| - 1] + [c]]) == Slashed(segs) + [c]
  {
    var init, last := segs[..|segs| - 1], segs[|segs| - 1];
    var more := init + [last + [c]];
    assert more[..|more| - 1] == init && more[|more| - 1] == last + [c];
    LastChar(Slashed(init), last, c);
  }

  lemma LastChar(before: string, last: string, c: char)
    ensures before + "/" + (last + [c]) == (before + "/" + last) + [c]
  {
  }

  // What a glob means: "**" stands for any run of segments, "*" for one.
  ghost predicate Matches(g: seq<Segment>, p: seq<Segment>) {
    if g == [] then p == []
    else if g[0] == "**" then exists n :: 0 <= n <= |p| && Matches(g[1..], p[n..])
    else p != [] && (g[0] == "*" || g[0] == p[0]) && Matches(g[1..], p[1..])
  }

  // A match cuts the path into one piece per glob segment.
  ghost predicate FitsPiece(seg: Segment, piece: seq<Segment>) {
    if seg == "**" then true else |piece| == 1 && (seg == "*" || seg == piece[0])
  }

  function Join(pieces: seq<seq<Segment>>): seq<Segment> {
    if pieces == [] then [] else pieces[0] + Join(pieces[1..])
  }

  ghost predicate Cuts(g: seq<Segment>, p: seq<Segment>, pieces: seq<seq<Segment>>) {
    && |pieces| == |g|
    && Join(pieces) == p
    && forall i :: 0 <= i < |g| ==> FitsPiece(g[i], pieces[i])
  }

  lemma {:induction false} MatchesGivesCut(g: seq<Segment>, p: seq<Segment>) returns (pieces: seq<seq<Segment>>)
    requires Matches(g, p)
    ensures Cuts(g, p, pieces)
    decreases |g|
  {
    if g == [] {
      pieces := [];
    } else {
      var n := 1;
      if g[0] == "**" {
        n :| 0 <= n <= |p| && Matches(g[1..], p[n..]);
      }
      var rest := MatchesGivesCut(g[1..], p[n..]);
      pieces := [p[..n]] + rest;
      assert pieces[1..] == rest;
      assert p == p[..n] + p[n..];
      forall i | 0 <= i < |g| ensures FitsPiece(g[i], pieces[i]) {
        if i > 0 {
          assert g[i] == g[1..][i - 1] && pieces[i] == rest[i - 1];
        }
      }
    }
  }

  lemma {:induction false} CutGivesMatch(g: seq<Segment>, p: seq<Segment>, pieces: seq<seq<Segment>>)
    requires Cuts(g, p, pieces)
    ensures Matches(g, p)
    decreases |g|
  {
    if g != [] {
      var n := |pieces[0]|;
      assert p[n..] == Join(pieces[1..]) && p[..n] == pieces[0];
      forall i | 0 <= i < |g[1..]| ensures FitsPiece(g[1..][i], pieces[1..][i]) {
        assert g[1..][i] == g[i + 1] && pieces[1..][i] == pieces[i + 1];
      }
      CutGivesMatch(g[1..], p[n..], pieces[1..]);
      assert FitsPiece(g[0], pieces[0]);
    }
  }

  // The recursive relation is the declarative one.
  lemma MatchesIsCut(g: seq<Segment>, p: seq<Segment>)
    ensures Matches(g, p) <==> exists pieces :: Cuts(g, p, pieces)
  {
    if Matches(g, p) {
      var pieces := MatchesGivesCut(g, p);
    }
    if pieces :| Cuts(g, p, pieces) {
      CutGivesMatch(g, p, pieces);
    }
  }

  // The recurrence the table is filled by.
  lemma StarStar(g: seq<Segment>, p: seq<Segment>)
    requires g != [] && g[0] == "**"
    ensures Matches(g, p) <==> Matches(g[1..], p) || (p != [] && Matches(g, p[1..]))
  {
    if Matches(g, p) {
      var n :| 0 <= n <= |p| && Matches(g[1..], p[n..]);
      if n > 0 {
        assert p[1..][n - 1..] == p[n..];
      } else {
        assert p[0..] == p;
      }
    }
    if Matches(g[1..], p) {
      assert p[0..] == p;
    }
    if p != [] && Matches(g, p[1..]) {
      var n :| 0 <= n <= |p[1..]| && Matches(g[1..], p[1..][n..]);
      assert p[1..][n..] == p[n + 1..];
    }
  }

  ghost predicate Filled(dp: array2<bool>, g: seq<Segment>, p: seq<Segment>, i: int, j: int)
    reads dp
  {
    && dp.Length0 == |g| + 1 && dp.Length1 == |p| + 1
    && (forall a, b :: 0 <= a && i < a <= |g| && 0 <= b <= |p| ==> dp[a, b] == Matches(g[a..], p[b..]))
    && (0 <= i <= |g| ==> forall b :: 0 <= b && j < b <= |p| ==> dp[i, b] == Matches(g[i..], p[b..]))
  }

  lemma Cell(g: seq<Segment>, p: seq<Segment>, i: nat, j: nat)
    requires i < |g| && j <= |p|
    ensures g[i] == "**" ==>
              (Matches(g[i..], p[j..]) <==> Matches(g[i + 1..], p[j..]) || (j < |p| && Matches(g[i..], p[j + 1..])))
    ensures g[i] != "**" ==>
              (Matches(g[i..], p[j..]) <==> j < |p| && (g[i] == "*" || g[i] == p[j]) && Matches(g[i + 1..], p[j + 1..]))
  {
    assert g[i..][1..] == g[i + 1..];
    if j < |p| {
      assert p[j..][1..] == p[j + 1..];
    }
    if g[i] == "**" {
      StarStar(g[i..], p[j..]);
    }
  }

  // One cell of the table, from the cells already filled.
  method CellValue(dp: array2<bool>, g: seq<Segment>, p: seq<Segment>, i: nat, j: nat) returns (hit: bool)
    requires i <= |g| && j <= |p| && Filled(dp, g, p, i, j)
    ensures hit <==> Matches(g[i..], p[j..])
  {
    if i == |g| {
      return j == |p|;
    }
    var seg := g[i];
    Cell(g, p, i, j);
    if seg == "**" {
      hit := dp[i + 1, j];
      if !hit && j < |p| {
        hit := dp[i, j + 1];
      }
    } else if j < |p| && (seg == "*" || seg == p[j]) {
      hit := dp[i + 1, j + 1];
    } else {
      hit := false;
    }
  }

  // One row of the table, from its last column.
  method FillRow(dp: array2<bool>, g: seq<Segment>, p: seq<Segment>, i: nat)
    requires i <= |g| && Filled(dp, g, p, i, |p|)
    modifies dp
    ensures Filled(dp, g, p, i - 1, |p|)
  {
    var j := |p|;
    while j >= 0
      invariant -1 <= j <= |p|
      invariant Filled(dp, g, p, i, j)
    {
      var hit := CellValue(dp, g, p, i, j);
      dp[i, j] := hit;
      j := j - 1;
    }
  }

  // The table, filled from its last row and column, computes the match relation.
  method MatchCheckpointGlob(glob: string, path: string) returns (matched: bool)
    ensures matched <==> Matches(Split(glob), Split(path))
  {
    var g, p := Split(glob), Split(path);
    var dp := new bool[|g| + 1, |p| + 1];
    var i := |g|;
    while i >= 0
      invariant -1 <= i <= |g|
      invariant Filled(dp, g, p, i, |p|)
    {
      FillRow(dp, g, p, i);
      i := i - 1;
    }
    assert g[0..] == g && p[0..] == p;
    matched := dp[0, 0];
  }
}

module Checkpoints {
  import opened Vocabulary
  import opened Glob

  datatype Trigger =
    | ContractOrPermission | HighRisk | Interface | ExternalEffect
    | ControlLogic | Milestone | FinalClosure | Unclassified

  datatype Level = PerChange | Checkpoint | Final

  datatype Risk = Low | Medium | High | Critical | OtherRisk(text: string)

  datatype ChangedPath = ChangedPath(path: string, status: string, oldMode: string, newMode: string, binary: bool)

  datatype Rule = Rule(id: string, glob: string, classes: seq<Class>)

  datatype Baseline = Baseline(contractDigest: string, permissionClasses: seq<string>)

  datatype Contract = Contract(risk: Risk, checkpointPolicyDigest: string)

  datatype Unit = Unit(permissionClasses: seq<string>, materialMilestone: bool)

  // A missing policy leaves every changed path unclassified.
  datatype Input = Input(
    contract: Option<Contract>, policy: Option<seq<Rule>>, unit: Unit, baseline: Baseline, current: Baseline,
    manifest: seq<ChangedPath>, stage: Stage, targetOutcome: Outcome, hostRisk: Risk, disputed: bool)

  // Sorted duplicate-free lists are sets here, and the digest of the sorted
  // manifest is the manifest as a multiset.
  datatype Decision = Decision(
    level: Level, triggers: set<Trigger>, unclassifiedPaths: set<string>, familySeparation: bool,
    riskFloor: Risk, requiredRisk: Risk, policyDigest: string, manifestDigest: multiset<ChangedPath>)

  // The closed class vocabulary, and any other text.
  datatype Class =
    | PublicInterface | PersistedSchema | Protocol | ExternalEffectClass | Irreversible
    | Security | Approval | Routing | Evidence | Closure | Ordinary | OtherClass(text: string)

  const INTERFACE_CLASSES := {PublicInterface, PersistedSchema, Protocol}
  const EXTERNAL_CLASSES := {ExternalEffectClass, Irreversible}
  const CONTROL_CLASSES := {Security, Approval, Routing, Evidence, Closure}
  const NO_EXTERNAL_EFFECT := "no_external_effect"

  function AsSet(list: seq<string>): set<string> {
    set x | x in list
  }

  function RiskRank(r: Risk): nat {
    match r
    case Low => 1
    case Medium => 2
    case High => 3
    case Critical => 4
    case OtherRisk(_) => 0
  }

  function LevelRank(l: Level): nat {
    match l
    case PerChange => 0
    case Checkpoint => 1
    case Final => 2
  }

  // The first of the risks with the highest rank; the empty risk for none.
  function MaxRisk(risks: seq<Risk>): Risk {
    if risks == [] then OtherRisk("")
    else
      var best := MaxRisk(risks[..|risks| - 1]);
      if |risks| == 1 || RiskRank(risks[|risks| - 1]) > RiskRank(best) then risks[|risks| - 1] else best
  }

  lemma {:induction false} MaxRiskIsGreatest(risks: seq<Risk>)
    ensures risks != [] ==> MaxRisk(risks) in risks
    ensures forall r :: r in risks ==> RiskRank(r) <= RiskRank(MaxRisk(risks))
  {
    if |risks| > 1 {
      MaxRiskIsGreatest(risks[..|risks| - 1]);
    }
  }

  method MaxRouteRisk(risks: seq<Risk>) returns (best: Risk)
    ensures best == MaxRisk(risks)
  {
    best := OtherRisk("");
    var bestRank: int := -1;
    for i := 0 to |risks|
      invariant best == MaxRisk(risks[..i])
      invariant bestRank == if i == 0 then -1 else RiskRank(best)
    {
      assert risks[..i + 1][..i] == risks[..i];
      if RiskRank(risks[i]) > bestRank {
        best, bestRank := risks[i], RiskRank(risks[i]);
      }
    }
    assert risks[..|risks|] == risks;
  }

  // ------------------------------------------------------------------
  // What the manifest says.
  // ------------------------------------------------------------------

  // c is a class some rule gives the path.
  ghost predicate HasClass(policy: Option<seq<Rule>>, path: string, c: Class) {
    policy.Some? && exists r :: r in policy.value && Matches(Split(r.glob), Split(path)) && c in r.classes
  }

  ghost predicate Classified(policy: Option<seq<Rule>>, path: string) {
    exists c :: HasClass(policy, path, c)
  }

  ghost predicate SomePathHas(policy: Option<seq<Rule>>, manifest: seq<ChangedPath>, names: set<Class>) {
    exists cp, c :: cp in manifest && c in names && HasClass(policy, cp.path, c)
  }

  ghost function UnclassifiedPaths(policy: Option<seq<Rule>>, manifest: seq<ChangedPath>): set<string> {
    set cp | cp in manifest && !Classified(policy, cp.path) :: cp.path
  }

  method ClassesOf(policy: Option<seq<Rule>>, path: string) returns (classes: set<Class>)
    ensures forall c :: c in classes <==> HasClass(policy, path, c)
  {
    classes := {};
    if policy.None? {
      return;
    }
    var rules := policy.value;
    for i := 0 to |rules|
      invariant forall c :: c in classes <==> HasClass(Some(rules[..i]), path, c)
    {
      ghost var before := classes;
      assert rules[..i + 1] == rules[..i] + [rules[i]];
      var hit := MatchCheckpointGlob(rules[i].glob, path);
      if hit {
        classes := classes + set c | c in rules[i].classes;
      }
      forall c ensures c in classes <==> HasClass(Some(rules[..i + 1]), path, c) {
        if c in rules[i].classes && hit {
          assert rules[i] in rules[..i + 1];
        }
        if r :| r in rules[..i] && Matches(Split(r.glob), Split(path)) && c in r.classes {
          assert r in rules[..i + 1];
        }
      }
    }
    assert rules[..|rules|] == rules;
  }

  method ClassifyChangedPaths(policy: Option<seq<Rule>>, manifest: seq<ChangedPath>)
    returns (classes: map<string, set<Class>>, unclassified: set<string>)
    ensures classes.Keys == set cp | cp in manifest :: cp.path
    ensures forall path, c :: path in classes ==> (c in classes[path] <==> HasClass(policy, path, c))
    ensures unclassified == UnclassifiedPaths(policy, manifest)
  {
    classes := map[];
    for i := 0 to |manifest|
      invariant classes.Keys == set cp | cp in manifest[..i] :: cp.path
      invariant forall path, c :: path in classes ==> (c in classes[path] <==> HasClass(policy, path, c))
    {
      assert manifest[..i + 1] == manifest[..i] + [manifest[i]];
      var cls := ClassesOf(policy, manifest[i].path);
      classes := classes[manifest[i].path := cls];
    }
    assert manifest[..|manifest|] == manifest;
    unclassified := set path | path in classes && classes[path] == {};
    forall path ensures path in unclassified <==> path in UnclassifiedPaths(policy, manifest) {
      if path in classes && classes[path] != {} {
        var c :| c in classes[path];
        assert HasClass(policy, path, c);
      }
    }
  }

  // ------------------------------------------------------------------
  // The decision.
  // ------------------------------------------------------------------

  ghost predicate ClaimsSuccess(o: Outcome) {
    o.VerifiedSuccess? || o.VerifiedWithWaivers? || o.Partial?
  }

  ghost predicate ClosesRun(inp: Input) {
    ClaimsSuccess(inp.targetOutcome) || inp.stage.ReleaseAndClosure?
  }

  ghost predicate TouchesControlled(inp: Input) {
    SomePathHas(inp.policy, inp.manifest, INTERFACE_CLASSES + EXTERNAL_CLASSES + CONTROL_CLASSES)
  }

  ghost function FloorOf(inp: Input): Risk {
    if TouchesControlled(inp) then High else Low
  }

  ghost function ContractRisk(inp: Input): Risk {
    if inp.contract.Some? then inp.contract.value.risk else OtherRisk("")
  }

  predicate IsHigh(r: Risk) {
    RiskRank(r) >= RiskRank(High)
  }

  // The contract, the host or an observed change makes the risk high.
  ghost predicate HighAnywhere(inp: Input) {
    IsHigh(ContractRisk(inp)) || IsHigh(inp.hostRisk) || IsHigh(FloorOf(inp))
  }

  lemma HighestIsHigh(risks: seq<Risk>)
    requires risks != []
    ensures IsHigh(MaxRisk(risks)) <==> exists r :: r in risks && IsHigh(r)
  {
    MaxRiskIsGreatest(risks);
  }

  // When each of the eight triggers fires.
  ghost predicate Fires(inp: Input, t: Trigger) {
    match t
    case ContractOrPermission =>
      || inp.current.contractDigest != inp.baseline.contractDigest
      || AsSet(inp.current.permissionClasses) != AsSet(inp.baseline.permissionClasses)
    case HighRisk => HighAnywhere(inp)
    case Interface => SomePathHas(inp.policy, inp.manifest, INTERFACE_CLASSES)
    case ExternalEffect =>
      SomePathHas(inp.policy, inp.manifest, EXTERNAL_CLASSES) || NO_EXTERNAL_EFFECT !in inp.unit.permissionClasses
    case ControlLogic => SomePathHas(inp.policy, inp.manifest, CONTROL_CLASSES)
    case Milestone => inp.unit.materialMilestone && inp.stage.IndependentValidation?
    case FinalClosure => ClosesRun(inp)
    case Unclassified => UnclassifiedPaths(inp.policy, inp.manifest) != {}
  }

  ghost function TriggersOf(inp: Input): set<Trigger> {
    set t: Trigger | Fires(inp, t)
  }

  ghost function LevelOf(inp: Input): Level {
    if ClosesRun(inp) then Final
    else if inp.stage.IndependentValidation? && TriggersOf(inp) != {} then Checkpoint
    else PerChange
  }

  ghost function DecisionOf(inp: Input): Decision {
    Decision(
      LevelOf(inp), TriggersOf(inp), UnclassifiedPaths(inp.policy, inp.manifest),
      HighAnywhere(inp) || inp.disputed || ClosesRun(inp),
      FloorOf(inp), MaxRisk([ContractRisk(inp), FloorOf(inp)]),
      if inp.contract.Some? then inp.contract.value.checkpointPolicyDigest else "",
      multiset(inp.manifest))
  }

  predicate Severe(r: Risk) {
    r.High? || r.Critical?
  }

  // A path is given one of these classes.
  ghost predicate Touches(inp: Input, c: Class) {
    exists cp :: cp in inp.manifest && HasClass(inp.policy, cp.path, c)
  }

  ghost predicate TouchesInterface(inp: Input) {
    Touches(inp, PublicInterface) || Touches(inp, PersistedSchema) || Touches(inp, Protocol)
  }

  ghost predicate TouchesExternal(inp: Input) {
    Touches(inp, ExternalEffectClass) || Touches(inp, Irreversible)
  }

  ghost predicate TouchesControl(inp: Input) {
    || Touches(inp, Security) || Touches(inp, Approval) || Touches(inp, Routing) || Touches(inp, Evidence)
    || Touches(inp, Closure)
  }

  ghost predicate TouchesAny(inp: Input) {
    TouchesInterface(inp) || TouchesExternal(inp) || TouchesControl(inp)
  }

  // A success is claimed, or the run is being closed.
  predicate Claims(inp: Input) {
    inp.targetOutcome in {VerifiedSuccess, VerifiedWithWaivers, Partial} || inp.stage.ReleaseAndClosure?
  }

  // The risk is high or critical by the contract, the host or what was touched.
  ghost predicate SevereAnywhere(inp: Input) {
    (inp.contract.Some? && Severe(inp.contract.value.risk)) || Severe(inp.hostRisk) || TouchesAny(inp)
  }

  lemma GroupsExactly(inp: Input)
    ensures SomePathHas(inp.policy, inp.manifest, INTERFACE_CLASSES) <==> TouchesInterface(inp)
    ensures SomePathHas(inp.policy, inp.manifest, EXTERNAL_CLASSES) <==> TouchesExternal(inp)
    ensures SomePathHas(inp.policy, inp.manifest, CONTROL_CLASSES) <==> TouchesControl(inp)
    ensures TouchesControlled(inp) <==> TouchesAny(inp)
  {
    TouchesSome(inp, INTERFACE_CLASSES);
    TouchesSome(inp, EXTERNAL_CLASSES);
    TouchesSome(inp, CONTROL_CLASSES);
    TouchesSome(inp, INTERFACE_CLASSES + EXTERNAL_CLASSES + CONTROL_CLASSES);
  }

  // When each trigger is reported.
  lemma TriggersExactly(inp: Input, t: Trigger)
    ensures t in DecisionOf(inp).triggers <==>
              match t
              case ContractOrPermission =>
                || inp.current.contractDigest != inp.baseline.contractDigest
                || exists p :: (p in inp.current.permissionClasses) != (p in inp.baseline.permissionClasses)
              case HighRisk => SevereAnywhere(inp)
              case Interface => TouchesInterface(inp)
              case ExternalEffect => TouchesExternal(inp) || "no_external_effect" !in inp.unit.permissionClasses
              case ControlLogic => TouchesControl(inp)
              case Milestone => inp.unit.materialMilestone && inp.stage.IndependentValidation?
              case FinalClosure => Claims(inp)
              case Unclassified => exists cp :: cp in inp.manifest && forall c :: !HasClass(inp.policy, cp.path, c)
  {
    GroupsExactly(inp);
    PermissionsDiffer(inp.current.permissionClasses, inp.baseline.permissionClasses);
    UnclassifiedSome(inp);
  }

  lemma PermissionsDiffer(a: seq<string>, b: seq<string>)
    ensures AsSet(a) != AsSet(b) <==> exists p :: (p in a) != (p in b)
  {
    if forall p :: (p in a) == (p in b) {
      assert AsSet(a) == AsSet(b);
    } else {
      var p :| (p in a) != (p in b);
      assert (p in AsSet(a)) != (p in AsSet(b));
    }
  }

  lemma UnclassifiedSome(inp: Input)
    ensures UnclassifiedPaths(inp.policy, inp.manifest) != {} <==>
              exists cp :: cp in inp.manifest && forall c :: !HasClass(inp.policy, cp.path, c)
  {
    if cp :| cp in inp.manifest && forall c :: !HasClass(inp.policy, cp.path, c) {
      assert cp.path in UnclassifiedPaths(inp.policy, inp.manifest);
    }
    if UnclassifiedPaths(inp.policy, inp.manifest) != {} {
      var path :| path in UnclassifiedPaths(inp.policy, inp.manifest);
      assert !Classified(inp.policy, path);
    }
  }

  // The level, the separation and the two risks of the decision.
  lemma DecisionExactly(inp: Input)
    ensures
      var d := DecisionOf(inp);
      var risk := if inp.contract.Some? then inp.contract.value.risk else OtherRisk("");
      && (d.level.Final? <==> Claims(inp))
      && (d.level.Checkpoint? <==> !Claims(inp) && inp.stage.IndependentValidation? && d.triggers != {})
      && (d.familySeparation <==> SevereAnywhere(inp) || inp.disputed || Claims(inp))
      && d.riskFloor == (if TouchesAny(inp) then High else Low)
      && d.requiredRisk == if risk.Critical? then Critical
                           else if risk.High? || TouchesAny(inp) then High
                           else if risk.Medium? then Medium else Low
  {
    GroupsExactly(inp);
    RequiredRisk(ContractRisk(inp), FloorOf(inp));
  }

  lemma TouchesSome(inp: Input, names: set<Class>)
    ensures SomePathHas(inp.policy, inp.manifest, names) <==> exists c :: c in names && Touches(inp, c)
  {
  }

  lemma RequiredRisk(risk: Risk, floor: Risk)
    requires floor.High? || floor.Low?
    ensures MaxRisk([risk, floor]) == if risk.Critical? then Critical
                                      else if risk.High? || floor.High? then High
                                      else if risk.Medium? then Medium else Low
  {
    assert [risk, floor][..1] == [risk] && [risk][..0] == [];
  }

  method HasAnyClass(classes: map<string, set<Class>>, names: set<Class>) returns (found: bool)
    ensures found <==> exists path, c :: path in classes && c in names && c in classes[path]
  {
    found := exists path | path in classes :: classes[path] * names != {};
    assert found ==> exists path, c :: path in classes && c in names && c in classes[path] by {
      if path :| path in classes && classes[path] * names != {} {
        var c :| c in classes[path] * names;
      }
    }
    assert !found ==> forall path, c :: path in classes && c in names ==> c !in classes[path] by {
      forall path, c | path in classes && c in names && c in classes[path] ensures found {
        assert c in classes[path] * names;
      }
    }
  }

  // The three observed class groups and the unclassified paths.
  method Observe(inp: Input) returns (t3: bool, t4Observed: bool, t5: bool, unclassified: set<string>)
    ensures t3 <==> Fires(inp, Interface)
    ensures t4Observed <==> SomePathHas(inp.policy, inp.manifest, EXTERNAL_CLASSES)
    ensures t5 <==> Fires(inp, ControlLogic)
    ensures unclassified == UnclassifiedPaths(inp.policy, inp.manifest)
    ensures (if t3 || t4Observed || t5 then High else Low) == FloorOf(inp)
  {
    var pathClasses;
    pathClasses, unclassified := ClassifyChangedPaths(inp.policy, inp.manifest);
    t3 := HasAnyClass(pathClasses, INTERFACE_CLASSES);
    SomePathIs(inp, pathClasses, INTERFACE_CLASSES);
    t4Observed := HasAnyClass(pathClasses, EXTERNAL_CLASSES);
    SomePathIs(inp, pathClasses, EXTERNAL_CLASSES);
    t5 := HasAnyClass(pathClasses, CONTROL_CLASSES);
    SomePathIs(inp, pathClasses, CONTROL_CLASSES);
    SomeUnion(inp);
  }

  // triggers[t] = true, when the condition of t holds.
  function Mark(triggers: set<Trigger>, fires: bool, t: Trigger): (r: set<Trigger>)
    ensures forall u :: u in r <==> u in triggers || (fires && u == t)
  {
    if fires then triggers + {t} else triggers
  }

  // Which of the eight measured conditions a trigger stands for.
  predicate Flagged(t: Trigger, t1: bool, t2: bool, t3: bool, t4: bool, t5: bool, t6: bool, t7: bool, t8: bool) {
    match t
    case ContractOrPermission => t1
    case HighRisk => t2
    case Interface => t3
    case ExternalEffect => t4
    case ControlLogic => t5
    case Milestone => t6
    case FinalClosure => t7
    case Unclassified => t8
  }

  // The triggers, gathered one by one from what was measured.
  method Gather(t1: bool, t2: bool, t3: bool, t4: bool, t5: bool, t6: bool, t7: bool,
            t8: bool) returns (triggers: set<Trigger>)
    ensures forall t :: t in triggers <==> Flagged(t, t1, t2, t3, t4, t5, t6, t7, t8)
  {
    triggers := Mark({}, t1, ContractOrPermission);
    triggers := Mark(triggers, t3, Interface);
    triggers := Mark(triggers, t4, ExternalEffect);
    triggers := Mark(triggers, t5, ControlLogic);
    triggers := Mark(triggers, t6, Milestone);
    triggers := Mark(triggers, t7, FinalClosure);
    triggers := Mark(triggers, t8, Unclassified);
    triggers := Mark(triggers, t2, HighRisk);
  }

  method CollectTriggers(inp: Input, t3: bool, t4: bool, t5: bool, t7: bool, unclassified: bool, t2: bool)
    returns (triggers: set<Trigger>)
    requires t3 <==> Fires(inp, Interface)
    requires t4 <==> Fires(inp, ExternalEffect)
    requires t5 <==> Fires(inp, ControlLogic)
    requires t7 <==> Fires(inp, FinalClosure)
    requires unclassified <==> Fires(inp, Unclassified)
    requires t2 <==> Fires(inp, HighRisk)
    ensures triggers == TriggersOf(inp)
  {
    var t1 := inp.current.contractDigest != inp.baseline.contractDigest
              || AsSet(inp.current.permissionClasses) != AsSet(inp.baseline.permissionClasses);
    var t6 := inp.unit.materialMilestone && inp.stage.IndependentValidation?;
    triggers := Gather(t1, t2, t3, t4, t5, t6, t7, unclassified);
    forall t ensures Flagged(t, t1, t2, t3, t4, t5, t6, t7, unclassified) <==> Fires(inp, t) {
      match t
      case ContractOrPermission =>
      case HighRisk =>
      case Interface =>
      case ExternalEffect =>
      case ControlLogic =>
      case Milestone =>
      case FinalClosure =>
      case Unclassified =>
    }
  }

  method ClassifyCheckpoint(inp: Input) returns (d: Decision)
    ensures d == DecisionOf(inp)
  {
    var t3, t4Observed, t5, unclassified := Observe(inp);
    var t4Allowed := NO_EXTERNAL_EFFECT !in inp.unit.permissionClasses;
    var t7 := inp.targetOutcome.VerifiedSuccess? || inp.targetOutcome.VerifiedWithWaivers? || inp.targetOutcome.Partial?
              || inp.stage.ReleaseAndClosure?;
    var riskFloor := Low;
    if t3 || t4Observed || t5 {
      riskFloor := High;
    }
    var contractRisk, policyDigest := OtherRisk(""), "";
    if inp.contract.Some? {
      contractRisk := inp.contract.value.risk;
      policyDigest := inp.contract.value.checkpointPolicyDigest;
    }
    var combinedRisk := MaxRouteRisk([contractRisk, inp.hostRisk, riskFloor]);
    HighestIsHigh([contractRisk, inp.hostRisk, riskFloor]);
    var high := RiskRank(combinedRisk) >= RiskRank(High);
    var triggers := CollectTriggers(inp, t3, t4Observed || t4Allowed, t5, t7, unclassified != {}, high);
    var requiredRisk := MaxRouteRisk([contractRisk, riskFloor]);
    var familySeparation := high || inp.disputed || t7;
    var level := PerChange;
    if t7 {
      level := Final;
    } else if inp.stage.IndependentValidation? && triggers != {} {
      level := Checkpoint;
    }
    d := Decision(level, triggers, unclassified, familySeparation, riskFloor, requiredRisk, policyDigest, multiset(inp.manifest));
  }

  lemma SomePathIs(inp: Input, classes: map<string, set<Class>>, names: set<Class>)
    requires classes.Keys == set cp | cp in inp.manifest :: cp.path
    requires forall path, c :: path in classes ==> (c in classes[path] <==> HasClass(inp.policy, path, c))
    ensures (exists path, c :: path in classes && c in names && c in classes[path]) <==> SomePathHas(inp.policy, inp.manifest, names)
  {
    forall cp, c | cp in inp.manifest && c in names && HasClass(inp.policy, cp.path, c)
      ensures exists path, c :: path in classes && c in names && c in classes[path]
    {
      assert cp.path in classes && c in classes[cp.path];
    }
  }

  lemma SomeUnion(inp: Input)
    ensures TouchesControlled(inp) <==>
              SomePathHas(inp.policy, inp.manifest, INTERFACE_CLASSES)
              || SomePathHas(inp.policy, inp.manifest, EXTERNAL_CLASSES)
              || SomePathHas(inp.policy, inp.manifest, CONTROL_CLASSES)
  {
    SomePathMonotone(inp.policy, inp.manifest, inp.manifest, INTERFACE_CLASSES, INTERFACE_CLASSES + EXTERNAL_CLASSES + CONTROL_CLASSES);
    SomePathMonotone(inp.policy, inp.manifest, inp.manifest, EXTERNAL_CLASSES, INTERFACE_CLASSES + EXTERNAL_CLASSES + CONTROL_CLASSES);
    SomePathMonotone(inp.policy, inp.manifest, inp.manifest, CONTROL_CLASSES, INTERFACE_CLASSES + EXTERNAL_CLASSES + CONTROL_CLASSES);
    if TouchesControlled(inp) {
      var cp, c :| cp in inp.manifest && c in INTERFACE_CLASSES + EXTERNAL_CLASSES + CONTROL_CLASSES && HasClass(inp.policy, cp.path, c);
    }
  }

  lemma SomePathMonotone(policy: Option<seq<Rule>>, small: seq<ChangedPath>, large: seq<ChangedPath>,
            names: set<Class>, more: set<Class>)
    requires names <= more && forall cp :: cp in small ==> cp in large
    ensures SomePathHas(policy, small, names) ==> SomePathHas(policy, large, more)
  {
    if cp, c :| cp in small && c in names && HasClass(policy, cp.path, c) {
      assert cp in large && c in more;
    }
  }

  // ------------------------------------------------------------------
  // What the decision does not depend on, and how it can move.
  // ------------------------------------------------------------------

  // The order of the manifest and of the policy's rules does not matter.
  lemma OrderIrrelevant(a: Input, b: Input)
    requires multiset(a.manifest) == multiset(b.manifest)
    requires a.policy.Some? <==> b.policy.Some?
    requires a.policy.Some? ==> multiset(a.policy.value) == multiset(b.policy.value)
    requires b == a.(manifest := b.manifest, policy := b.policy)
    ensures DecisionOf(a) == DecisionOf(b)
  {
    SameMembers(a.manifest, b.manifest);
    if a.policy.Some? {
      SameMembers(a.policy.value, b.policy.value);
    }
    forall path, c ensures HasClass(a.policy, path, c) == HasClass(b.policy, path, c) {
    }
    forall names ensures SomePathHas(a.policy, a.manifest, names) == SomePathHas(b.policy, b.manifest, names) {
      SomePathSame(a, b, names);
      SomePathSame(b, a, names);
    }
    forall path ensures Classified(a.policy, path) == Classified(b.policy, path) {
    }
    assert UnclassifiedPaths(a.policy, a.manifest) == UnclassifiedPaths(b.policy, b.manifest);
    forall t ensures Fires(a, t) == Fires(b, t) {
    }
    assert TriggersOf(a) == TriggersOf(b);
  }

  lemma SomePathSame(a: Input, b: Input, names: set<Class>)
    requires forall cp :: cp in a.manifest <==> cp in b.manifest
    requires forall path, c :: HasClass(a.policy, path, c) == HasClass(b.policy, path, c)
    ensures SomePathHas(a.policy, a.manifest, names) ==> SomePathHas(b.policy, b.manifest, names)
  {
    if cp, c :| cp in a.manifest && c in names && HasClass(a.policy, cp.path, c) {
      assert cp in b.manifest && HasClass(b.policy, cp.path, c);
    }
  }

  lemma SameMembers<T>(a: seq<T>, b: seq<T>)
    requires multiset(a) == multiset(b)
    ensures forall x :: x in a <==> x in b
  {
    forall x ensures x in a <==> x in b {
      assert x in a <==> x in multiset(a);
      assert x in b <==> x in multiset(b);
    }
  }

  // One more changed path never removes a trigger or an unclassified path and
  // never lowers the level, the risk floor or the required risk.
  lemma MorePathsNeverRelax(inp: Input, cp: ChangedPath)
    ensures var before, after := DecisionOf(inp), DecisionOf(inp.(manifest := inp.manifest + [cp]));
            && before.triggers <= after.triggers
            && before.unclassifiedPaths <= after.unclassifiedPaths
            && LevelRank(before.level) <= LevelRank(after.level)
            && RiskRank(before.riskFloor) <= RiskRank(after.riskFloor)
            && RiskRank(before.requiredRisk) <= RiskRank(after.requiredRisk)
            && (before.familySeparation ==> after.familySeparation)
  {
    var more := inp.(manifest := inp.manifest + [cp]);
    forall names ensures SomePathHas(inp.policy, inp.manifest, names) ==> SomePathHas(more.policy, more.manifest, names) {
      SomePathMonotone(inp.policy, inp.manifest, more.manifest, names, names);
    }
    RiskMonotone(inp, more);
    assert UnclassifiedPaths(inp.policy, inp.manifest) <= UnclassifiedPaths(more.policy, more.manifest);
    forall t | Fires(inp, t) ensures Fires(more, t) {
    }
  }

  lemma RiskMonotone(a: Input, b: Input)
    requires ContractRisk(a) == ContractRisk(b) && a.hostRisk == b.hostRisk
    requires RiskRank(FloorOf(a)) <= RiskRank(FloorOf(b))
    ensures RiskRank(MaxRisk([ContractRisk(a), FloorOf(a)])) <= RiskRank(MaxRisk([ContractRisk(b), FloorOf(b)]))
  {
    MaxRiskIsGreatest([ContractRisk(a), FloorOf(a)]);
    MaxRiskIsGreatest([ContractRisk(b), FloorOf(b)]);
    assert FloorOf(b) in [ContractRisk(b), FloorOf(b)] && ContractRisk(b) in [ContractRisk(b), FloorOf(b)];
  }
}
