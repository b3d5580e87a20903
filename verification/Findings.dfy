// Importing a review's findings (internal/host/findings_import.go): what a
// report may raise, and what a snapshot may drop.
module Findings {
  import opened Vocabulary
  import CoreModel
  import Resolution

  datatype Verdict = Approve | RequestChanges | OtherVerdict(text: string)

  // A report finding's claim about a kernel rule or a declared budget.
  datatype Reference = Reference(kind: string, id: string)

  datatype AuditFinding = AuditFinding(id: string, ref: Option<Reference>)

  // What HMA measured itself at import.
  datatype Facts = Facts(ruleHolds: set<string>, budgetExceeded: set<string>)

  const KERNEL_RULES: seq<string> := ["no_shell"]
  const MEASURED_BUDGETS: seq<string> := ["max_files", "max_diff_lines"]
  const ESTABLISHED_PREFIX := "HMA-"
  const MEASURED_PREFIX := "HMA-BUDGET-"
  const KERNEL_PREFIX := "HMA-KERNEL-"

  function Strength(d: FindingDisposition): nat {
    match d
    case Block => 2
    case Waivable => 1
    case _ => 0
  }

  // ------------------------------------------------------------------
  // What a report may raise.
  // ------------------------------------------------------------------

  predicate SourceId(id: string) {
    id != "" && '/' !in id && !(ESTABLISHED_PREFIX <= id)
  }

  ghost predicate UniqueSources(audit: seq<AuditFinding>) {
    forall i, j :: 0 <= i < j < |audit| ==> audit[i].id != audit[j].id
  }

  predicate NamesHeldRule(f: AuditFinding, facts: Facts) {
    f.ref.Some? && f.ref.value.kind == "kernel_rule" && f.ref.value.id in KERNEL_RULES && f.ref.value.id in facts.ruleHolds
  }

  predicate NamesExceededBudget(f: AuditFinding, facts: Facts) {
    f.ref.Some? && f.ref.value.kind == "declared_budget" && f.ref.value.id in MEASURED_BUDGETS && f.ref.value.id in facts.budgetExceeded
  }

  // A report never raises more than the measured facts carry.
  ghost predicate Raised(d: Finding, f: AuditFinding, facts: Facts) {
    && d.id == f.id && d.unitId == ""
    && (d.disposition.Block? <==> NamesHeldRule(f, facts))
    && (d.disposition.Waivable? <==> NamesExceededBudget(f, facts))
    && (d.disposition.Advisory? || d.disposition.Block? || d.disposition.Waivable?)
    && d.advisory == if d.disposition.Advisory? then "PARK" else ""
  }

  method MapAuditFindings(audit: seq<AuditFinding>, facts: Facts) returns (out: Option<seq<Finding>>)
    ensures out.Some? <==> (forall i :: 0 <= i < |audit| ==> SourceId(audit[i].id)) && UniqueSources(audit)
    ensures out.Some? ==> |out.value| == |audit| && forall i :: 0 <= i < |audit| ==> Raised(out.value[i], audit[i], facts)
  {
    var seen: set<string> := {};
    var found: seq<Finding> := [];
    for i := 0 to |audit|
      invariant |found| == i && forall j :: 0 <= j < i ==> Raised(found[j], audit[j], facts)
      invariant forall j :: 0 <= j < i ==> SourceId(audit[j].id)
      invariant forall j, k :: 0 <= j < k < i ==> audit[j].id != audit[k].id
      invariant seen == set j | 0 <= j < i :: audit[j].id
    {
      var f := audit[i];
      if f.id == "" || '/' in f.id || f.id in seen || ESTABLISHED_PREFIX <= f.id {
        return None;
      }
      seen := seen + {f.id};
      var d := Finding(f.id, "", Advisory, "PARK");
      if f.ref.Some? {
        var r := f.ref.value;
        if r.kind == "kernel_rule" && r.id in KERNEL_RULES && r.id in facts.ruleHolds {
          d := Finding(f.id, "", Block, "");
        } else if r.kind == "declared_budget" && r.id in MEASURED_BUDGETS && r.id in facts.budgetExceeded {
          d := Finding(f.id, "", Waivable, "");
        }
      }
      found := found + [d];
    }
    return Some(found);
  }

  // The findings HMA raises itself, whatever the report says: one for every
  // measured budget exceeded and one for every kernel rule that holds.
  function BudgetFinding(name: string, tag: string): Finding {
    Finding(MEASURED_PREFIX + name + "-" + tag, "", Waivable, "")
  }

  function RuleFinding(name: string): Finding {
    Finding(KERNEL_PREFIX + name, "", Block, "")
  }

  ghost function FromBudgets(names: seq<string>, facts: Facts, tag: string): seq<Finding> {
    if names == [] then []
    else FromBudgets(names[..|names| - 1], facts, tag)
         + if names[|names| - 1] in facts.budgetExceeded then [BudgetFinding(names[|names| - 1], tag)] else []
  }

  ghost function FromRules(names: seq<string>, facts: Facts): seq<Finding> {
    if names == [] then []
    else FromRules(names[..|names| - 1], facts)
         + if names[|names| - 1] in facts.ruleHolds then [RuleFinding(names[|names| - 1])] else []
  }

  ghost function Established(facts: Facts, tag: string): seq<Finding> {
    FromBudgets(MEASURED_BUDGETS, facts, tag) + FromRules(KERNEL_RULES, facts)
  }

  method AddEstablishedFindings(imported: seq<Finding>, facts: Facts, tag: string) returns (out: seq<Finding>)
    ensures out == imported + Established(facts, tag)
  {
    out := imported;
    for i := 0 to |MEASURED_BUDGETS|
      invariant out == imported + FromBudgets(MEASURED_BUDGETS[..i], facts, tag)
    {
      var name := MEASURED_BUDGETS[i];
      assert MEASURED_BUDGETS[..i + 1][..i] == MEASURED_BUDGETS[..i];
      if name in facts.budgetExceeded {
        out := out + [BudgetFinding(name, tag)];
      }
    }
    assert MEASURED_BUDGETS[..|MEASURED_BUDGETS|] == MEASURED_BUDGETS;
    ghost var budgets := FromBudgets(MEASURED_BUDGETS, facts, tag);
    for i := 0 to |KERNEL_RULES|
      invariant out == imported + (budgets + FromRules(KERNEL_RULES[..i], facts))
    {
      var name := KERNEL_RULES[i];
      assert KERNEL_RULES[..i + 1][..i] == KERNEL_RULES[..i];
      if name in facts.ruleHolds {
        out := out + [RuleFinding(name)];
      }
    }
    assert KERNEL_RULES[..|KERNEL_RULES|] == KERNEL_RULES;
  }

  // ------------------------------------------------------------------
  // The snapshot an import writes.
  // ------------------------------------------------------------------

  function UnitFindingId(unit: string, id: string): string {
    unit + "/" + id
  }

  function Others(prior: seq<Finding>, unit: string): seq<Finding> {
    if prior == [] then []
    else Others(prior[..|prior| - 1], unit)
         + if prior[|prior| - 1].unitId == unit then [] else [prior[|prior| - 1]]
  }

  function Own(prior: seq<Finding>, unit: string): map<string, Finding> {
    if prior == [] then map[]
    else
      var f := prior[|prior| - 1];
      if f.unitId == unit then Own(prior[..|prior| - 1], unit)[f.id := f] else Own(prior[..|prior| - 1], unit)
  }

  // An imported finding as it is recorded: namespaced and owned, unless a
  // verdict other than approval would weaken what the unit already has.
  function Recorded(own: map<string, Finding>, unit: string, verdict: Verdict, f: Finding): Finding {
    var g := f.(id := UnitFindingId(unit, f.id), unitId := unit);
    if g.id in own && !verdict.Approve? && Strength(own[g.id].disposition) > Strength(g.disposition) then own[g.id] else g
  }

  function AllRecorded(own: map<string, Finding>, unit: string, verdict: Verdict,
            imported: seq<Finding>): seq<Finding> {
    if imported == [] then []
    else AllRecorded(own, unit, verdict, imported[..|imported| - 1]) + [Recorded(own, unit, verdict, imported[|imported| - 1])]
  }

  function Kept(prior: seq<Finding>, unit: string, have: set<string>): seq<Finding> {
    if prior == [] then []
    else
      var f := prior[|prior| - 1];
      Kept(prior[..|prior| - 1], unit, have) + if f.unitId == unit && f.id !in have && Strength(f.disposition) > 0 then [f] else []
  }

  function Ids(fs: seq<Finding>): set<string> {
    set f | f in fs :: f.id
  }

  function Snapshot(prior: seq<Finding>, unit: string, imported: seq<Finding>, verdict: Verdict): seq<Finding> {
    var recorded := AllRecorded(Own(prior, unit), unit, verdict, imported);
    Others(prior, unit) + recorded + if verdict.Approve? then [] else Kept(prior, unit, Ids(recorded))
  }

  // The three loops of SnapshotFindings, in order.
  method SplitPrior(prior: seq<Finding>, unit: string) returns (out: seq<Finding>, priorOwn: map<string, Finding>)
    ensures out == Others(prior, unit) && priorOwn == Own(prior, unit)
  {
    out, priorOwn := [], map[];
    for i := 0 to |prior|
      invariant out == Others(prior[..i], unit) && priorOwn == Own(prior[..i], unit)
    {
      assert prior[..i + 1][..i] == prior[..i];
      var f := prior[i];
      if f.unitId == unit {
        priorOwn := priorOwn[f.id := f];
      } else {
        out := out + [f];
      }
    }
    assert prior[..|prior|] == prior;
  }

  method RecordImported(own: map<string, Finding>, unit: string, imported: seq<Finding>, verdict: Verdict)
    returns (recorded: seq<Finding>, have: set<string>)
    ensures recorded == AllRecorded(own, unit, verdict, imported) && have == Ids(recorded)
  {
    recorded, have := [], {};
    for i := 0 to |imported|
      invariant recorded == AllRecorded(own, unit, verdict, imported[..i]) && have == Ids(recorded)
    {
      assert imported[..i + 1][..i] == imported[..i];
      var f := imported[i].(id := UnitFindingId(unit, imported[i].id), unitId := unit);
      if f.id in own && !verdict.Approve? && Strength(own[f.id].disposition) > Strength(f.disposition) {
        f := own[f.id];
      }
      have := have + {f.id};
      recorded := recorded + [f];
    }
    assert imported[..|imported|] == imported;
  }

  method KeepBlockers(prior: seq<Finding>, unit: string, have: set<string>) returns (kept: seq<Finding>)
    ensures kept == Kept(prior, unit, have)
  {
    kept := [];
    for i := 0 to |prior|
      invariant kept == Kept(prior[..i], unit, have)
    {
      assert prior[..i + 1][..i] == prior[..i];
      var f := prior[i];
      if f.unitId == unit && f.id !in have && Strength(f.disposition) > 0 {
        kept := kept + [f];
      }
    }
    assert prior[..|prior|] == prior;
  }

  method SnapshotFindings(prior: seq<Finding>, unit: string, imported: seq<Finding>,
            verdict: Verdict) returns (out: seq<Finding>)
    ensures out == Snapshot(prior, unit, imported, verdict)
  {
    var others, own := SplitPrior(prior, unit);
    var recorded, have := RecordImported(own, unit, imported, verdict);
    out := others + recorded;
    if !verdict.Approve? {
      var kept := KeepBlockers(prior, unit, have);
      out := out + kept;
    }
  }

  // ------------------------------------------------------------------
  // What a snapshot can and cannot do.
  // ------------------------------------------------------------------

  ghost predicate UniqueIds(fs: seq<Finding>) {
    forall i, j :: 0 <= i < j < |fs| ==> fs[i].id != fs[j].id
  }

  lemma {:induction false} OthersMembers(prior: seq<Finding>, unit: string, f: Finding)
    ensures f in Others(prior, unit) <==> f in prior && f.unitId != unit
  {
    if prior != [] {
      OthersMembers(prior[..|prior| - 1], unit, f);
      assert prior == prior[..|prior| - 1] + [prior[|prior| - 1]];
    }
  }

  lemma {:induction false} OwnKeys(prior: seq<Finding>, unit: string)
    ensures forall k :: k in Own(prior, unit) ==>
              Own(prior, unit)[k] in prior && Own(prior, unit)[k].id == k && Own(prior, unit)[k].unitId == unit
  {
    if prior != [] {
      OwnKeys(prior[..|prior| - 1], unit);
      assert prior == prior[..|prior| - 1] + [prior[|prior| - 1]];
    }
  }

  lemma LastIdDiffers(prior: seq<Finding>, f: Finding)
    requires UniqueIds(prior) && prior != [] && f in prior[..|prior| - 1]
    ensures f.id != prior[|prior| - 1].id
  {
    var i :| 0 <= i < |prior| - 1 && prior[..|prior| - 1][i] == f;
    assert prior[i] == f;
  }

  lemma {:induction false} OwnHolds(prior: seq<Finding>, unit: string, f: Finding)
    requires UniqueIds(prior) && f in prior && f.unitId == unit
    ensures f.id in Own(prior, unit) && Own(prior, unit)[f.id] == f
  {
    var init, last := prior[..|prior| - 1], prior[|prior| - 1];
    assert prior == init + [last];
    if f in init {
      LastIdDiffers(prior, f);
      OwnHolds(init, unit, f);
    }
  }

  lemma OwnMembers(prior: seq<Finding>, unit: string)
    ensures forall k :: k in Own(prior, unit) ==> Own(prior, unit)[k] in prior && Own(prior, unit)[k].id == k && Own(prior, unit)[k].unitId == unit
    ensures UniqueIds(prior) ==> forall f :: f in prior && f.unitId == unit ==> f.id in Own(prior, unit) && Own(prior, unit)[f.id] == f
  {
    OwnKeys(prior, unit);
    if UniqueIds(prior) {
      forall f | f in prior && f.unitId == unit ensures f.id in Own(prior, unit) && Own(prior, unit)[f.id] == f {
        OwnHolds(prior, unit, f);
      }
    }
  }

  lemma {:induction false} KeptMembers(prior: seq<Finding>, unit: string, have: set<string>, f: Finding)
    ensures f in Kept(prior, unit, have) <==> f in prior && f.unitId == unit && f.id !in have && Strength(f.disposition) > 0
  {
    if prior != [] {
      KeptMembers(prior[..|prior| - 1], unit, have, f);
      assert prior == prior[..|prior| - 1] + [prior[|prior| - 1]];
    }
  }

  lemma {:induction false} RecordedMembers(own: map<string, Finding>, unit: string, verdict: Verdict,
            imported: seq<Finding>)
    ensures |AllRecorded(own, unit, verdict, imported)| == |imported|
    ensures forall i :: 0 <= i < |imported| ==> AllRecorded(own, unit, verdict, imported)[i] == Recorded(own, unit, verdict, imported[i])
  {
    if imported != [] {
      RecordedMembers(own, unit, verdict, imported[..|imported| - 1]);
    }
  }

  // g stands in for f: same finding, no weaker.
  ghost predicate AtLeast(fs: seq<Finding>, f: Finding) {
    exists g :: g in fs && g.id == f.id && g.unitId == f.unitId && Strength(g.disposition) >= Strength(f.disposition)
  }

  // Findings of other units, and findings nobody owns, come through unchanged
  // and no new ones appear; the unit's own come from this import or before it.
  lemma OthersUnchanged(prior: seq<Finding>, unit: string, imported: seq<Finding>, verdict: Verdict, f: Finding)
    requires f.unitId != unit
    ensures f in Snapshot(prior, unit, imported, verdict) <==> f in prior
  {
    var own := Own(prior, unit);
    var recorded := AllRecorded(own, unit, verdict, imported);
    OthersMembers(prior, unit, f);
    OwnMembers(prior, unit);
    RecordedMembers(own, unit, verdict, imported);
    KeptMembers(prior, unit, Ids(recorded), f);
    assert forall i :: 0 <= i < |recorded| ==> Recorded(own, unit, verdict, imported[i]).unitId == unit;
  }

  // Any verdict but approval keeps every blocker of the unit at its strength.
  lemma BlockersStay(prior: seq<Finding>, unit: string, imported: seq<Finding>, verdict: Verdict, f: Finding)
    requires UniqueIds(prior) && f in prior && f.unitId == unit && Strength(f.disposition) > 0 && !verdict.Approve?
    ensures AtLeast(Snapshot(prior, unit, imported, verdict), f)
  {
    var own := Own(prior, unit);
    var recorded := AllRecorded(own, unit, verdict, imported);
    OwnMembers(prior, unit);
    RecordedMembers(own, unit, verdict, imported);
    KeptMembers(prior, unit, Ids(recorded), f);
    if f.id in Ids(recorded) {
      var g :| g in recorded && g.id == f.id;
      var i :| 0 <= i < |recorded| && recorded[i] == g;
      assert g == Recorded(own, unit, verdict, imported[i]);
      assert g in Snapshot(prior, unit, imported, verdict);
    } else {
      assert f in Snapshot(prior, unit, imported, verdict);
    }
  }

  // What the import of g gives the unit: g under the unit's name, or what the
  // unit already has under that name, if that is stronger.
  ghost predicate Takes(prior: seq<Finding>, unit: string, g: Finding, f: Finding) {
    && f.id == unit + "/" + g.id && f.unitId == unit
    && (if f in prior && Strength(f.disposition) > Strength(g.disposition) then true
        else f == g.(id := unit + "/" + g.id, unitId := unit)
             && forall h :: h in prior && h.unitId == unit && h.id == f.id ==> Strength(h.disposition) <= Strength(g.disposition))
  }

  lemma TakesExactly(prior: seq<Finding>, unit: string, verdict: Verdict, g: Finding, f: Finding)
    requires UniqueIds(prior) && !verdict.Approve?
    ensures f == Recorded(Own(prior, unit), unit, verdict, g) <==> Takes(prior, unit, g, f)
  {
    OwnMembers(prior, unit);
  }

  // Without approval the unit's findings are exactly what the import gives, and
  // those it had that block or can be waived and are not named again.
  lemma SnapshotExactly(prior: seq<Finding>, unit: string, imported: seq<Finding>, verdict: Verdict, f: Finding)
    requires UniqueIds(prior) && !verdict.Approve? && f.unitId == unit
    ensures f in Snapshot(prior, unit, imported, verdict) <==>
              || (exists i :: 0 <= i < |imported| && Takes(prior, unit, imported[i], f))
              || (f in prior && (f.disposition.Block? || f.disposition.Waivable?)
                  && forall i :: 0 <= i < |imported| ==> f.id != unit + "/" + imported[i].id)
  {
    var own := Own(prior, unit);
    var recorded := AllRecorded(own, unit, verdict, imported);
    OwnMembers(prior, unit);
    RecordedMembers(own, unit, verdict, imported);
    OthersMembers(prior, unit, f);
    KeptMembers(prior, unit, Ids(recorded), f);
    forall i | 0 <= i < |imported|
      ensures f == recorded[i] <==> Takes(prior, unit, imported[i], f)
      ensures recorded[i].id == unit + "/" + imported[i].id
    {
      TakesExactly(prior, unit, verdict, imported[i], f);
    }
  }

  // An approving review leaves the unit exactly the findings it imports.
  lemma ApprovalReplaces(prior: seq<Finding>, unit: string, imported: seq<Finding>, f: Finding)
    requires f.unitId == unit
    ensures f in Snapshot(prior, unit, imported, Approve) <==>
              exists i :: 0 <= i < |imported| && f == imported[i].(id := UnitFindingId(unit, imported[i].id), unitId := unit)
  {
    RecordedMembers(Own(prior, unit), unit, Approve, imported);
    OthersMembers(prior, unit, f);
    var recorded := AllRecorded(Own(prior, unit), unit, Approve, imported);
    if i :| 0 <= i < |imported| && f == imported[i].(id := UnitFindingId(unit, imported[i].id), unitId := unit) {
      assert recorded[i] == f;
    }
  }

  // ---- when a snapshot validates ----

  // What every append demands of a finding: an advisory one, and no other, says
  // what became of it.
  predicate Recordable(f: Finding) {
    match f.disposition
    case OtherFinding(_) => false
    case Advisory => f.advisory in {"ACCEPT", "PARK", "KILL"}
    case _ => f.advisory == ""
  }

  ghost predicate AllRecordable(fs: seq<Finding>) {
    forall f :: f in fs ==> Recordable(f)
  }

  // With a report as it was mapped and the blocking findings as they were
  // recorded, a snapshot can be recorded if and only if every finding of the
  // other units can.
  lemma SnapshotRecordable(prior: seq<Finding>, unit: string, imported: seq<Finding>, verdict: Verdict)
    requires AllRecordable(imported)
    requires forall f :: f in prior && Strength(f.disposition) > 0 ==> Recordable(f)
    ensures AllRecordable(Snapshot(prior, unit, imported, verdict)) <==> forall f :: f in prior && f.unitId != unit ==> Recordable(f)
  {
    var out := Snapshot(prior, unit, imported, verdict);
    forall f | f in prior && f.unitId != unit ensures f in out {
      OthersUnchanged(prior, unit, imported, verdict, f);
    }
    forall f | f in out ensures Recordable(f) || (f in prior && f.unitId != unit) {
      SnapshotSources(prior, unit, imported, verdict, f);
      if i :| 0 <= i < |imported| && f == imported[i].(id := UnitFindingId(unit, imported[i].id), unitId := unit) {
        assert imported[i] in imported;
      }
    }
  }

  lemma {:induction false} EstablishedRecordable(budgets: seq<string>, rules: seq<string>, facts: Facts, tag: string)
    ensures AllRecordable(FromBudgets(budgets, facts, tag) + FromRules(rules, facts))
    decreases |budgets| + |rules|
  {
    if budgets != [] {
      EstablishedRecordable(budgets[..|budgets| - 1], rules, facts, tag);
    } else if rules != [] {
      EstablishedRecordable(budgets, rules[..|rules| - 1], facts, tag);
    }
  }

  // HMA raises these and no others: a broken kernel rule blocks, an exceeded
  // budget can be waived.
  lemma EstablishedExactly(facts: Facts, tag: string, f: Finding)
    ensures f in Established(facts, tag) <==>
              || ("no_shell" in facts.ruleHolds && f == Finding("HMA-KERNEL-no_shell", "", Block, ""))
              || ("max_files" in facts.budgetExceeded && f == Finding("HMA-BUDGET-max_files-" + tag, "", Waivable, ""))
              || ("max_diff_lines" in facts.budgetExceeded && f == Finding("HMA-BUDGET-max_diff_lines-" + tag, "", Waivable, ""))
  {
    RaisedTexts(tag);
    EstablishedAre(facts, tag, f);
  }

  lemma RaisedTexts(tag: string)
    ensures BudgetFinding("max_files", tag) == Finding("HMA-BUDGET-max_files-" + tag, "", Waivable, "")
    ensures BudgetFinding("max_diff_lines", tag) == Finding("HMA-BUDGET-max_diff_lines-" + tag, "", Waivable, "")
    ensures RuleFinding("no_shell") == Finding("HMA-KERNEL-no_shell", "", Block, "")
  {
    assert MEASURED_PREFIX + "max_files" + "-" == "HMA-BUDGET-max_files-";
    assert MEASURED_PREFIX + "max_diff_lines" + "-" == "HMA-BUDGET-max_diff_lines-";
  }

  lemma EstablishedAre(facts: Facts, tag: string, f: Finding)
    ensures f in Established(facts, tag) <==>
              || ("no_shell" in facts.ruleHolds && f == RuleFinding("no_shell"))
              || ("max_files" in facts.budgetExceeded && f == BudgetFinding("max_files", tag))
              || ("max_diff_lines" in facts.budgetExceeded && f == BudgetFinding("max_diff_lines", tag))
  {
    BudgetsExactly(MEASURED_BUDGETS, facts, tag, f);
    RulesExactly(KERNEL_RULES, facts, f);
    MeasuredNames();
  }

  lemma MeasuredNames()
    ensures forall n :: n in MEASURED_BUDGETS <==> n == "max_files" || n == "max_diff_lines"
    ensures forall n :: n in KERNEL_RULES <==> n == "no_shell"
  {
    assert MEASURED_BUDGETS[0] == "max_files" && MEASURED_BUDGETS[1] == "max_diff_lines" && KERNEL_RULES[0] == "no_shell";
  }

  lemma {:induction false} BudgetsExactly(names: seq<string>, facts: Facts, tag: string, f: Finding)
    ensures f in FromBudgets(names, facts, tag) <==> exists n :: n in names && n in facts.budgetExceeded && f == BudgetFinding(n, tag)
  {
    if names != [] {
      BudgetsExactly(names[..|names| - 1], facts, tag, f);
      assert names == names[..|names| - 1] + [names[|names| - 1]];
    }
  }

  lemma {:induction false} RulesExactly(names: seq<string>, facts: Facts, f: Finding)
    ensures f in FromRules(names, facts) <==> exists n :: n in names && n in facts.ruleHolds && f == RuleFinding(n)
  {
    if names != [] {
      RulesExactly(names[..|names| - 1], facts, f);
      assert names == names[..|names| - 1] + [names[|names| - 1]];
    }
  }

  // What an import hands to the snapshot can be recorded.
  lemma MappedRecordable(audit: seq<AuditFinding>, facts: Facts, tag: string, mapped: seq<Finding>)
    requires |mapped| == |audit| && forall i :: 0 <= i < |audit| ==> Raised(mapped[i], audit[i], facts)
    ensures AllRecordable(mapped + Established(facts, tag))
  {
    EstablishedRecordable(MEASURED_BUDGETS, KERNEL_RULES, facts, tag);
  }

  // Where a snapshot's findings come from.
  lemma SnapshotSources(prior: seq<Finding>, unit: string, imported: seq<Finding>, verdict: Verdict, f: Finding)
    requires f in Snapshot(prior, unit, imported, verdict)
    ensures
      || (f in prior && (f.unitId != unit || Strength(f.disposition) > 0))
      || exists i :: 0 <= i < |imported| && f == imported[i].(id := UnitFindingId(unit, imported[i].id), unitId := unit)
  {
    var own := Own(prior, unit);
    var recorded := AllRecorded(own, unit, verdict, imported);
    OwnMembers(prior, unit);
    OthersMembers(prior, unit, f);
    KeptMembers(prior, unit, Ids(recorded), f);
    RecordedMembers(own, unit, verdict, imported);
    if f in recorded {
      var i :| 0 <= i < |recorded| && recorded[i] == f;
      assert f == Recorded(own, unit, verdict, imported[i]);
    }
  }

  // A human override from WAIVABLE to ADVISORY leaves a finding that cannot be
  // recorded again, so no snapshot of another unit can.
  lemma OverrideStopsImports(prior: seq<Finding>, g: Finding, decision: CoreModel.FindingOverride, unit: string,
            imported: seq<Finding>, verdict: Verdict)
    requires Recordable(g) && g.disposition.Waivable? && decision.disposition.Advisory? && g.unitId != unit
    requires Resolution.Overridden(g, decision) in prior
    ensures !AllRecordable(Snapshot(prior, unit, imported, verdict))
  {
    OthersUnchanged(prior, unit, imported, verdict, Resolution.Overridden(g, decision));
  }

  // ---- whole sequences of imports ----

  datatype Import = Import(unit: string, imported: seq<Finding>, verdict: Verdict)

  // An import whose snapshot repeats an id or does not validate is refused and
  // records nothing.
  ghost function AfterImport(prior: seq<Finding>, i: Import): seq<Finding> {
    var out := Snapshot(prior, i.unit, i.imported, i.verdict);
    if UniqueIds(out) && AllRecordable(out) then out else prior
  }

  ghost function AfterImports(prior: seq<Finding>, imports: seq<Import>): seq<Finding> {
    if imports == [] then prior else AfterImport(AfterImports(prior, imports[..|imports| - 1]), imports[|imports| - 1])
  }

  // Over any sequence of imports, a BLOCK or WAIVABLE finding of a unit does
  // not disappear and does not weaken until an approving review of that unit,
  // whatever reviews of other units do.
  lemma {:induction false} BlockersOutlast(prior: seq<Finding>, imports: seq<Import>, f: Finding)
    requires UniqueIds(prior) && f in prior && Strength(f.disposition) > 0
    requires forall i :: 0 <= i < |imports| && imports[i].unit == f.unitId ==> !imports[i].verdict.Approve?
    ensures UniqueIds(AfterImports(prior, imports))
    ensures AtLeast(AfterImports(prior, imports), f)
  {
    if imports != [] {
      var init, last := imports[..|imports| - 1], imports[|imports| - 1];
      BlockersOutlast(prior, init, f);
      var mid := AfterImports(prior, init);
      var g :| g in mid && g.id == f.id && g.unitId == f.unitId && Strength(g.disposition) >= Strength(f.disposition);
      if g.unitId == last.unit {
        BlockersStay(mid, last.unit, last.imported, last.verdict, g);
      } else {
        OthersUnchanged(mid, last.unit, last.imported, last.verdict, g);
      }
    }
  }

  // ---- ids ----

  // Source ids hold no slash, so the last slash of a namespaced id splits it
  // in only one way.
  lemma {:induction false} NamespacedIdsDiffer(u1: string, i1: string, u2: string, i2: string)
    requires '/' !in i1 && '/' !in i2
    ensures UnitFindingId(u1, i1) == UnitFindingId(u2, i2) <==> u1 == u2 && i1 == i2
  {
    var a, b := UnitFindingId(u1, i1), UnitFindingId(u2, i2);
    assert a[|u1|] == '/' && forall k :: |u1| < k < |a| ==> a[k] == i1[k - |u1| - 1];
    assert b[|u2|] == '/' && forall k :: |u2| < k < |b| ==> b[k] == i2[k - |u2| - 1];
    if a == b {
      assert |u1| == |u2|;
      assert u1 == a[..|u1|] && u2 == b[..|u2|] && i1 == a[|u1| + 1..] && i2 == b[|u2| + 1..];
    }
  }

  // An owned finding carries its owner's namespace; an unowned one has no slash.
  ghost predicate WellNamed(f: Finding) {
    if f.unitId == "" then '/' !in f.id
    else exists id :: '/' !in id && f.id == UnitFindingId(f.unitId, id)
  }

  lemma ForeignIds(f: Finding, unit: string, id: string)
    requires WellNamed(f) && f.unitId != unit && '/' !in id
    ensures f.id != UnitFindingId(unit, id)
  {
    if f.unitId == "" {
      assert UnitFindingId(unit, id)[|unit|] == '/';
    } else {
      var x :| '/' !in x && f.id == UnitFindingId(f.unitId, x);
      NamespacedIdsDiffer(f.unitId, x, unit, id);
    }
  }

  lemma UniqueConcat(a: seq<Finding>, b: seq<Finding>)
    requires UniqueIds(a) && UniqueIds(b)
    requires forall f, g :: f in a && g in b ==> f.id != g.id
    ensures UniqueIds(a + b)
  {
  }

  lemma {:induction false} FiltersUnique(prior: seq<Finding>, unit: string, have: set<string>)
    requires UniqueIds(prior)
    ensures UniqueIds(Others(prior, unit)) && UniqueIds(Kept(prior, unit, have))
  {
    if prior != [] {
      var init, last := prior[..|prior| - 1], prior[|prior| - 1];
      FiltersUnique(init, unit, have);
      forall f | f in init ensures f.id != last.id {
        var i :| 0 <= i < |init| && init[i] == f;
        assert prior[i] == f;
      }
      forall f ensures (f in Others(init, unit) ==> f in init) && (f in Kept(init, unit, have) ==> f in init) {
        OthersMembers(init, unit, f);
        KeptMembers(init, unit, have, f);
      }
    }
  }

  // What an import hands to the snapshot.
  ghost predicate Importable(imported: seq<Finding>) {
    UniqueIds(imported) && forall i :: 0 <= i < |imported| ==> '/' !in imported[i].id
  }

  lemma RecordedIds(own: map<string, Finding>, unit: string, verdict: Verdict, imported: seq<Finding>)
    requires Importable(imported)
    requires forall k :: k in own ==> own[k].id == k && own[k].unitId == unit
    ensures var recorded := AllRecorded(own, unit, verdict, imported);
            && |recorded| == |imported|
            && (forall i :: 0 <= i < |recorded| ==> recorded[i].id == UnitFindingId(unit, imported[i].id) && recorded[i].unitId == unit)
            && UniqueIds(recorded)
  {
    var recorded := AllRecorded(own, unit, verdict, imported);
    RecordedMembers(own, unit, verdict, imported);
    forall i | 0 <= i < |recorded| ensures recorded[i].id == UnitFindingId(unit, imported[i].id) && recorded[i].unitId == unit {
      assert recorded[i] == Recorded(own, unit, verdict, imported[i]);
    }
    forall i, j | 0 <= i < j < |recorded| ensures recorded[i].id != recorded[j].id {
      NamespacedIdsDiffer(unit, imported[i].id, unit, imported[j].id);
    }
  }

  lemma OthersForeign(prior: seq<Finding>, unit: string, f: Finding, id: string)
    requires forall g :: g in prior ==> WellNamed(g)
    requires f in Others(prior, unit) && '/' !in id
    ensures f in prior && f.id != UnitFindingId(unit, id)
  {
    OthersMembers(prior, unit, f);
    ForeignIds(f, unit, id);
  }

  lemma KeptNamed(prior: seq<Finding>, unit: string, have: set<string>, f: Finding) returns (id: string)
    requires unit != "" && forall g :: g in prior ==> WellNamed(g)
    requires f in Kept(prior, unit, have)
    ensures f in prior && f.id !in have && '/' !in id && f.id == UnitFindingId(unit, id)
  {
    KeptMembers(prior, unit, have, f);
    id :| '/' !in id && f.id == UnitFindingId(f.unitId, id);
  }

  // An import of a report that passed MapAuditFindings repeats no id, and keeps
  // every finding well named.
  lemma ImportKeepsIdsUnique(prior: seq<Finding>, unit: string, imported: seq<Finding>, verdict: Verdict)
    requires unit != "" && UniqueIds(prior) && Importable(imported)
    requires forall f :: f in prior ==> WellNamed(f)
    ensures UniqueIds(Snapshot(prior, unit, imported, verdict))
    ensures forall f :: f in Snapshot(prior, unit, imported, verdict) ==> WellNamed(f)
  {
    var own := Own(prior, unit);
    var recorded := AllRecorded(own, unit, verdict, imported);
    var others, kept := Others(prior, unit), Kept(prior, unit, Ids(recorded));
    OwnMembers(prior, unit);
    RecordedIds(own, unit, verdict, imported);
    FiltersUnique(prior, unit, Ids(recorded));
    forall f, g | f in others && g in recorded ensures f.id != g.id {
      var i :| 0 <= i < |recorded| && recorded[i] == g;
      OthersForeign(prior, unit, f, imported[i].id);
    }
    UniqueConcat(others, recorded);
    forall f, g | f in others + recorded && g in kept ensures f.id != g.id {
      var id := KeptNamed(prior, unit, Ids(recorded), g);
      if f in others {
        OthersForeign(prior, unit, f, id);
      } else {
        assert f.id in Ids(recorded);
      }
    }
    UniqueConcat(others + recorded, kept);
    forall f | f in others ensures WellNamed(f) {
      OthersMembers(prior, unit, f);
    }
    forall f | f in recorded ensures WellNamed(f) {
      var i :| 0 <= i < |recorded| && recorded[i] == f;
    }
    forall f | f in kept ensures WellNamed(f) {
      KeptMembers(prior, unit, Ids(recorded), f);
    }
  }

  // An id of the kind HMA raises: reserved, slash-free, told apart by a mark.
  ghost predicate Reserved(f: Finding, mark: char) {
    '/' !in f.id && ESTABLISHED_PREFIX <= f.id && |f.id| > 4 && f.id[4] == mark
  }

  lemma BudgetFindingId(name: string, other: string, tag: string)
    requires '/' !in name && '/' !in tag
    ensures Reserved(BudgetFinding(name, tag), 'B')
    ensures name != other ==> BudgetFinding(name, tag).id != BudgetFinding(other, tag).id
  {
    var a, b := BudgetFinding(name, tag).id, BudgetFinding(other, tag).id;
    assert a[11..11 + |name|] == name;
    assert |a| == |b| ==> b[11..11 + |name|] == other;
    assert a[..4] == ESTABLISHED_PREFIX;
  }

  lemma RuleFindingId(name: string, other: string)
    requires '/' !in name
    ensures Reserved(RuleFinding(name), 'K')
    ensures name != other ==> RuleFinding(name).id != RuleFinding(other).id
  {
    var a, b := RuleFinding(name).id, RuleFinding(other).id;
    assert a[11..] == name && b[11..] == other;
    assert a[..4] == ESTABLISHED_PREFIX;
  }

  ghost predicate PlainNames(names: seq<string>) {
    && (forall i :: 0 <= i < |names| ==> '/' !in names[i])
    && (forall i, j :: 0 <= i < j < |names| ==> names[i] != names[j])
  }

  lemma {:induction false} BudgetsReserved(names: seq<string>, facts: Facts, tag: string)
    requires PlainNames(names) && '/' !in tag
    ensures UniqueIds(FromBudgets(names, facts, tag))
    ensures forall f :: f in FromBudgets(names, facts, tag) ==>
              Reserved(f, 'B') && exists n :: n in names && f == BudgetFinding(n, tag)
  {
    if names != [] {
      var init, last := names[..|names| - 1], names[|names| - 1];
      BudgetsReserved(init, facts, tag);
      BudgetFindingId(last, last, tag);
      forall f | f in FromBudgets(init, facts, tag) ensures f.id != BudgetFinding(last, tag).id {
        var n :| n in init && f == BudgetFinding(n, tag);
        BudgetFindingId(n, last, tag);
      }
      UniqueConcat(FromBudgets(init, facts, tag), if last in facts.budgetExceeded then [BudgetFinding(last, tag)] else []);
    }
  }

  lemma {:induction false} RulesReserved(names: seq<string>, facts: Facts)
    requires PlainNames(names)
    ensures UniqueIds(FromRules(names, facts))
    ensures forall f :: f in FromRules(names, facts) ==> Reserved(f, 'K') && exists n :: n in names && f == RuleFinding(n)
  {
    if names != [] {
      var init, last := names[..|names| - 1], names[|names| - 1];
      RulesReserved(init, facts);
      RuleFindingId(last, last);
      forall f | f in FromRules(init, facts) ensures f.id != RuleFinding(last).id {
        var n :| n in init && f == RuleFinding(n);
        RuleFindingId(n, last);
      }
      UniqueConcat(FromRules(init, facts), if last in facts.ruleHolds then [RuleFinding(last)] else []);
    }
  }

  lemma EstablishedReserved(facts: Facts, tag: string)
    requires '/' !in tag
    ensures UniqueIds(Established(facts, tag))
    ensures forall f :: f in Established(facts, tag) ==> '/' !in f.id && ESTABLISHED_PREFIX <= f.id
  {
    assert |MEASURED_BUDGETS[0]| != |MEASURED_BUDGETS[1]|;
    BudgetsReserved(MEASURED_BUDGETS, facts, tag);
    RulesReserved(KERNEL_RULES, facts);
    UniqueConcat(FromBudgets(MEASURED_BUDGETS, facts, tag), FromRules(KERNEL_RULES, facts));
  }

  // What an import hands to the snapshot is importable: report ids are unique
  // and slash-free, and the ids HMA raises itself are reserved.
  lemma ImportsAreImportable(audit: seq<AuditFinding>, mapped: seq<Finding>, facts: Facts, tag: string)
    requires (forall i :: 0 <= i < |audit| ==> SourceId(audit[i].id)) && UniqueSources(audit)
    requires |mapped| == |audit| && forall i :: 0 <= i < |audit| ==> Raised(mapped[i], audit[i], facts)
    requires '/' !in tag
    ensures Importable(mapped + Established(facts, tag))
  {
    var e := Established(facts, tag);
    EstablishedReserved(facts, tag);
    forall i | 0 <= i < |mapped| ensures SourceId(mapped[i].id) {
      assert SourceId(audit[i].id) && Raised(mapped[i], audit[i], facts);
    }
    forall i, j | 0 <= i < j < |mapped| ensures mapped[i].id != mapped[j].id {
      assert Raised(mapped[i], audit[i], facts) && Raised(mapped[j], audit[j], facts);
    }
    UniqueConcat(mapped, e);
    forall i | 0 <= i < |mapped + e| ensures '/' !in (mapped + e)[i].id {
      assert (mapped + e)[i] in mapped || (mapped + e)[i] in e;
    }
  }
}
