// Human resolution (internal/engine/resolution.go): the state it is evaluated
// against, one waiver operation or finding override, and the records the
// replay of that state writes into.
module Resolution {
  import opened Vocabulary
  import opened CoreModel
  import opened StageProjection
  import Chain
  import CoreStore

  // ---- the projection, on values ----

  // The first finding with this id takes the override's disposition.
  function ApplyOverride(findings: seq<Finding>, f: FindingOverride): seq<Finding> {
    if findings == [] then []
    else if findings[0].id == f.findingId then [Overridden(findings[0], f)] + findings[1..]
    else [findings[0]] + ApplyOverride(findings[1..], f)
  }

  function Overridden(g: Finding, f: FindingOverride): Finding {
    g.(disposition := f.disposition, advisory := if f.disposition.Advisory? then g.advisory else "")
  }

  // A record that sets the findings: any snapshot, or a non-empty list.
  predicate SetsFindings(r: Record) {
    r.payload.findingsSnapshot || r.payload.findings != []
  }

  function Overriding(r: Record, findings: seq<Finding>): seq<Finding> {
    if r.payload.findingOverride.Some? then ApplyOverride(findings, r.payload.findingOverride.value) else findings
  }

  function FindingsOf(log: seq<Record>): seq<Finding> {
    if log == [] then []
    else
      var r := log[|log| - 1];
      Overriding(r, if SetsFindings(r) then r.payload.findings else FindingsOf(log[..|log| - 1]))
  }

  function LegacyWaivers(active: set<Scope>, waivers: seq<Waiver>): set<Scope> {
    if waivers == [] then active
    else
      var before := LegacyWaivers(active, waivers[..|waivers| - 1]);
      var w := waivers[|waivers| - 1];
      if w.active then before + {w.scope} else before - {w.scope}
  }

  function OperatedWaivers(active: set<Scope>, op: Option<WaiverOperation>): set<Scope> {
    if op.None? then active
    else match op.value.action
      case Grant => active + {op.value.scope}
      case Expire => active - {op.value.scope}
      case Withdraw => active - {op.value.scope}
      case OtherAction(_) => active
  }

  function WaiversOf(log: seq<Record>): set<Scope> {
    if log == [] then {}
    else
      var c := log[|log| - 1].payload;
      OperatedWaivers(LegacyWaivers(WaiversOf(log[..|log| - 1]), c.waivers), c.waiverOperation)
  }

  datatype ResolutionState = ResolutionState(
    criteria: seq<Criterion>, findings: seq<Finding>, activeWaivers: set<Scope>, usedNonces: set<string>)

  function Projected(log: seq<Record>): ResolutionState {
    ResolutionState(CriteriaOf(log), FindingsOf(log), WaiversOf(log), NoncesOf(log))
  }

  // ---- what the projection holds ----

  // No later record sets the findings, and none from here on overrides one.
  predicate Reigns(log: seq<Record>, k: int) {
    && 0 <= k < |log| && (log[k].payload.findingsSnapshot || log[k].payload.findings != [])
    && (forall i :: k < i < |log| ==> !log[i].payload.findingsSnapshot && log[i].payload.findings == [])
    && forall i :: k <= i < |log| ==> log[i].payload.findingOverride.None?
  }

  // The findings are the last list recorded, a snapshot's even if it is empty,
  // until an override moves one.
  lemma {:induction false} FindingsAreLast(log: seq<Record>, k: int)
    requires Reigns(log, k)
    ensures FindingsOf(log) == log[k].payload.findings
  {
    var n := |log| - 1;
    if k < n {
      FindingsAreLast(log[..n], k);
    }
  }

  // The last entry of a legacy list for this scope.
  predicate LastEntry(waivers: seq<Waiver>, scope: Scope, k: int) {
    && 0 <= k < |waivers| && waivers[k].scope == scope
    && forall i :: k < i < |waivers| ==> waivers[i].scope != scope
  }

  predicate Operates(r: Record, scope: Scope, grant: bool) {
    && r.payload.waiverOperation.Some? && r.payload.waiverOperation.value.scope == scope
    && (if grant then r.payload.waiverOperation.value.action.Grant?
        else r.payload.waiverOperation.value.action.Expire? || r.payload.waiverOperation.value.action.Withdraw?)
  }

  // The record activates the scope, or ends it: by its operation, or, if that
  // is about another, by its own list.
  ghost predicate Sets(r: Record, scope: Scope, on: bool) {
    || Operates(r, scope, on)
    || (!Operates(r, scope, !on) && exists k :: LastEntry(r.payload.waivers, scope, k) && r.payload.waivers[k].active == on)
  }

  lemma {:induction false} EntryDecides(active: set<Scope>, waivers: seq<Waiver>, scope: Scope, k: int)
    requires LastEntry(waivers, scope, k)
    ensures scope in LegacyWaivers(active, waivers) <==> waivers[k].active
  {
    var n := |waivers| - 1;
    if k < n {
      EntryDecides(active, waivers[..n], scope, k);
    }
  }

  lemma {:induction false} NoEntryKeeps(active: set<Scope>, waivers: seq<Waiver>, scope: Scope) returns (k: int)
    ensures LastEntry(waivers, scope, k) || (scope in LegacyWaivers(active, waivers) <==> scope in active)
    ensures !LastEntry(waivers, scope, k) ==> forall i :: 0 <= i < |waivers| ==> waivers[i].scope != scope
  {
    k := -1;
    if waivers != [] {
      k := |waivers| - 1;
      if waivers[k].scope != scope {
        k := NoEntryKeeps(active, waivers[..k], scope);
      }
    }
  }

  lemma WaiversStep(log: seq<Record>, r: Record, scope: Scope)
    ensures scope in WaiversOf(log + [r]) <==> Sets(r, scope, true) || (scope in WaiversOf(log) && !Sets(r, scope, false))
  {
    assert (log + [r])[..|log|] == log;
    var k := NoEntryKeeps(WaiversOf(log), r.payload.waivers, scope);
    if LastEntry(r.payload.waivers, scope, k) {
      EntryDecides(WaiversOf(log), r.payload.waivers, scope, k);
    }
  }

  // A waiver is active if and only if some record activates it and none since
  // ends it.
  lemma {:induction false} WaiversExactly(log: seq<Record>, scope: Scope)
    ensures scope in WaiversOf(log) <==>
              exists i :: 0 <= i < |log| && Sets(log[i], scope, true) && forall j :: i < j < |log| ==> !Sets(log[j], scope, false)
  {
    if log != [] {
      var n := |log| - 1;
      WaiversExactly(log[..n], scope);
      WaiversStep(log[..n], log[n], scope);
      assert log == log[..n] + [log[n]];
      assert forall i :: 0 <= i < n ==> log[..n][i] == log[i];
    }
  }

  // ---- the projection, as it runs ----
  //
  // A decoded record's findings are a slice of its own. The replay keeps that
  // slice, not a copy, as its current findings, unless the record is a
  // snapshot; an override then writes into it.

  // The record whose findings are current after n records, or -1.
  function Owner(log: seq<Record>, n: nat): (o: int)
    requires n <= |log|
    ensures -1 <= o < n
  {
    if n == 0 then -1 else if SetsFindings(log[n - 1]) then n - 1 else Owner(log, n - 1)
  }

  lemma {:induction false} OwnerSets(log: seq<Record>, n: nat)
    requires n <= |log|
    ensures Owner(log, n) >= 0 ==> SetsFindings(log[Owner(log, n)])
  {
    if n > 0 && !SetsFindings(log[n - 1]) {
      OwnerSets(log, n - 1);
    }
  }

  // What record i's slice holds after n records have been replayed.
  function SliceAfter(log: seq<Record>, n: nat, i: nat): seq<Finding>
    requires n <= |log| && i < |log|
  {
    if n == 0 then log[i].payload.findings
    else if Owner(log, n) == i && !log[i].payload.findingsSnapshot then Overriding(log[n - 1], SliceAfter(log, n - 1, i))
    else SliceAfter(log, n - 1, i)
  }

  lemma {:induction false} SliceUntouched(log: seq<Record>, n: nat, i: nat)
    requires n <= i < |log|
    ensures SliceAfter(log, n, i) == log[i].payload.findings
  {
    if n > 0 {
      OwnerSets(log, n);
      SliceUntouched(log, n - 1, i);
    }
  }

  // The owner's slice is the current findings.
  lemma {:induction false} SliceIsFindings(log: seq<Record>, n: nat)
    requires n <= |log| && Owner(log, n) >= 0 && !log[Owner(log, n)].payload.findingsSnapshot
    ensures SliceAfter(log, n, Owner(log, n)) == FindingsOf(log[..n])
  {
    OwnerSets(log, n);
    assert log[..n][..n - 1] == log[..n - 1];
    if SetsFindings(log[n - 1]) {
      SliceUntouched(log, n - 1, n - 1);
    } else {
      SliceIsFindings(log, n - 1);
    }
  }

  method UpdateWaivers(active: set<Scope>, r: Record) returns (out: set<Scope>)
    ensures out == OperatedWaivers(LegacyWaivers(active, r.payload.waivers), r.payload.waiverOperation)
  {
    out := active;
    var waivers := r.payload.waivers;
    for i := 0 to |waivers|
      invariant out == LegacyWaivers(active, waivers[..i])
    {
      assert waivers[..i + 1][..i] == waivers[..i];
      if waivers[i].active {
        out := out + {waivers[i].scope};
      } else {
        out := out - {waivers[i].scope};
      }
    }
    assert waivers[..|waivers|] == waivers;
    if r.payload.waiverOperation.Some? {
      var w := r.payload.waiverOperation.value;
      match w.action
      case Grant => out := out + {w.scope};
      case Expire => out := out - {w.scope};
      case Withdraw => out := out - {w.scope};
      case OtherAction(_) =>
    }
  }

  // Only the first finding with the id changes; with none, nothing does.
  lemma {:induction false} OverrideChangesFirst(findings: seq<Finding>, f: FindingOverride, j: nat)
    requires j <= |findings| && forall k :: 0 <= k < j ==> findings[k].id != f.findingId
    requires j < |findings| ==> findings[j].id == f.findingId
    ensures ApplyOverride(findings, f) == if j < |findings| then findings[j := Overridden(findings[j], f)] else findings
  {
    if j > 0 {
      OverrideChangesFirst(findings[1..], f, j - 1);
      assert findings == [findings[0]] + findings[1..];
    } else if findings != [] {
      assert findings[0 := Overridden(findings[0], f)] == [Overridden(findings[0], f)] + findings[1..];
    }
  }

  // The override loop: it stops at the first finding with the id.
  method OverrideInPlace(findings: array<Finding>, f: FindingOverride)
    modifies findings
    ensures findings[..] == ApplyOverride(old(findings[..]), f)
  {
    var j := 0;
    while j < findings.Length && findings[j].id != f.findingId
      invariant 0 <= j <= findings.Length
      invariant forall k :: 0 <= k < j ==> findings[k].id != f.findingId
    {
      j := j + 1;
    }
    OverrideChangesFirst(findings[..], f, j);
    if j < findings.Length {
      findings[j] := findings[j].(disposition := f.disposition, advisory := if f.disposition.Advisory? then findings[j].advisory else "");
    }
  }

  // The records as they are in memory: slices[i] is record i's own findings.
  ghost predicate OnePerRecord(slices: seq<array<Finding>>, log: seq<Record>) {
    && |slices| == |log|
    && (forall i, j :: 0 <= i < j < |slices| ==> slices[i] != slices[j])
  }

  ghost predicate Backs(slices: seq<array<Finding>>, log: seq<Record>)
    requires |slices| == |log|
    reads slices
  {
    forall i :: 0 <= i < |slices| ==> slices[i][..] == log[i].payload.findings
  }

  ghost predicate BacksAfter(slices: seq<array<Finding>>, log: seq<Record>, n: nat)
    requires n <= |log| == |slices|
    reads slices
  {
    forall i {:trigger SliceAfter(log, n, i)} :: 0 <= i < |slices| ==> slices[i][..] == SliceAfter(log, n, i)
  }

  // Where the replay's current findings live: in the owner's own slice, or in
  // a copy made from a snapshot.
  ghost predicate HoldsCurrent(current: array<Finding>, slices: seq<array<Finding>>, log: seq<Record>, n: nat)
    requires n <= |log| && |slices| == |log|
    reads current
  {
    var o := Owner(log, n);
    && current[..] == FindingsOf(log[..n])
    && (o >= 0 && !log[o].payload.findingsSnapshot ==> current == slices[o])
    && (o < 0 || log[o].payload.findingsSnapshot ==> current !in slices)
  }

  // One record's findings and override.
  method ReplayFindings(log: seq<Record>, slices: seq<array<Finding>>, n: nat,
            current: array<Finding>) returns (next: array<Finding>)
    requires OnePerRecord(slices, log) && n < |log| && BacksAfter(slices, log, n)
    requires HoldsCurrent(current, slices, log, n)
    modifies slices, current
    ensures BacksAfter(slices, log, n + 1) && HoldsCurrent(next, slices, log, n + 1)
    ensures next == current || next in slices || fresh(next)
  {
    var c := log[n].payload;
    next := current;
    SliceUntouched(log, n, n);
    OwnerSets(log, n + 1);
    OwnerSets(log, n);
    assert log[..n + 1][..n] == log[..n];
    if c.findingsSnapshot {
      next := new Finding[|c.findings|](i requires 0 <= i < |c.findings| => c.findings[i]);
      assert next[..] == c.findings;
    } else if |c.findings| > 0 {
      next := slices[n];
    }
    if c.findingOverride.Some? {
      OverrideInPlace(next, c.findingOverride.value);
    }
    forall i | 0 <= i < |slices| ensures slices[i][..] == SliceAfter(log, n + 1, i) {
      assert old(slices[i][..]) == SliceAfter(log, n, i);
    }
  }

  // What n records leave besides findings.
  ghost predicate Replayed(log: seq<Record>, n: nat, criteria: seq<Criterion>, active: set<Scope>, used: set<string>)
    requires n <= |log|
  {
    criteria == CriteriaOf(log[..n]) && active == WaiversOf(log[..n]) && used == NoncesOf(log[..n])
  }

  // One record's criteria, waivers and nonces.
  method ReplayRest(log: seq<Record>, n: nat, criteria: seq<Criterion>, active: set<Scope>, used: set<string>)
    returns (criteria': seq<Criterion>, active': set<Scope>, used': set<string>)
    requires n < |log| && Replayed(log, n, criteria, active, used)
    ensures Replayed(log, n + 1, criteria', active', used')
  {
    ghost var before, after := log[..n], log[..n + 1];
    assert after[..n] == before && after == before + [log[n]] && after[n] == log[n];
    NoncesSnoc(before, log[n]);
    criteria' := if |log[n].payload.criteria| > 0 then log[n].payload.criteria else criteria;
    active' := UpdateWaivers(active, log[n]);
    used' := SpendNonces(used, log[n]);
  }

  lemma BeforeReplay(log: seq<Record>, slices: seq<array<Finding>>, current: array<Finding>)
    requires OnePerRecord(slices, log) && Backs(slices, log) && current[..] == [] && current !in slices
    ensures BacksAfter(slices, log, 0) && HoldsCurrent(current, slices, log, 0) && Replayed(log, 0, [], {}, {})
  {
  }

  // One turn of the replay loop.
  method ReplayRecord(log: seq<Record>, slices: seq<array<Finding>>, n: nat, criteria: seq<Criterion>,
            active: set<Scope>, used: set<string>,
                      current: array<Finding>)
    returns (criteria': seq<Criterion>, active': set<Scope>, used': set<string>, next: array<Finding>)
    requires OnePerRecord(slices, log) && n < |log| && Replayed(log, n, criteria, active, used)
    requires BacksAfter(slices, log, n) && HoldsCurrent(current, slices, log, n)
    modifies slices, current
    ensures Replayed(log, n + 1, criteria', active', used')
    ensures BacksAfter(slices, log, n + 1) && HoldsCurrent(next, slices, log, n + 1)
    ensures next == current || next in slices || fresh(next)
  {
    criteria', active', used' := ReplayRest(log, n, criteria, active, used);
    next := ReplayFindings(log, slices, n, current);
  }

  // The replay loop, from an empty list of findings.
  method ReplayAll(log: seq<Record>, slices: seq<array<Finding>>, empty: array<Finding>)
    returns (criteria: seq<Criterion>, active: set<Scope>, used: set<string>, current: array<Finding>)
    requires OnePerRecord(slices, log) && Backs(slices, log) && empty[..] == [] && empty !in slices
    modifies slices, empty
    ensures Replayed(log, |log|, criteria, active, used)
    ensures BacksAfter(slices, log, |log|) && HoldsCurrent(current, slices, log, |log|)
  {
    criteria, active, used, current := [], {}, {}, empty;
    BeforeReplay(log, slices, empty);
    for n := 0 to |log|
      invariant Replayed(log, n, criteria, active, used)
      invariant BacksAfter(slices, log, n)
      invariant HoldsCurrent(current, slices, log, n)
      invariant current in slices || current == empty || fresh(current)
    {
      criteria, active, used, current := ReplayRecord(log, slices, n, criteria, active, used, current);
    }
  }

  method ProjectResolutionState(log: seq<Record>, slices: seq<array<Finding>>) returns (state: ResolutionState)
    requires OnePerRecord(slices, log) && Backs(slices, log)
    modifies slices
    ensures state == Projected(log)
    ensures BacksAfter(slices, log, |log|)
  {
    var empty := new Finding[0];
    var criteria, active, used, current := ReplayAll(log, slices, empty);
    AfterReplay(log, criteria, active, used, current[..]);
    state := ResolutionState(criteria, current[..], active, used);
  }

  lemma AfterReplay(log: seq<Record>, criteria: seq<Criterion>, active: set<Scope>, used: set<string>,
            findings: seq<Finding>)
    requires Replayed(log, |log|, criteria, active, used) && findings == FindingsOf(log[..|log|])
    ensures ResolutionState(criteria, findings, active, used) == Projected(log)
  {
    assert log[..|log|] == log;
  }

  // ---- the records after a projection ----
  //
  // A transaction hands its callback the records it loaded, and appends by
  // writing those same records again, anchors and all.

  function Rewritten(log: seq<Record>, n: nat): (out: seq<Record>)
    requires n <= |log|
    ensures |out| == n
    ensures forall i :: 0 <= i < n ==> out[i] == AsRewritten(log, i)
  {
    if n == 0 then [] else Rewritten(log, n - 1) + [AsRewritten(log, n - 1)]
  }

  function AsRewritten(log: seq<Record>, i: nat): Record
    requires i < |log|
  {
    log[i].(payload := log[i].payload.(findings := SliceAfter(log, |log|, i)))
  }

  // The first record after i that sets the findings, or the end.
  function ReignEnd(log: seq<Record>, i: nat): (e: nat)
    requires i < |log|
    ensures i < e <= |log|
    ensures e < |log| ==> SetsFindings(log[e])
    ensures forall k :: i < k < e ==> !SetsFindings(log[k])
    decreases |log| - i
  {
    if i + 1 == |log| || SetsFindings(log[i + 1]) then i + 1 else ReignEnd(log, i + 1)
  }

  // Every list of findings that was recorded outside a snapshot still reads,
  // when the next list replaces it, as it was recorded.
  predicate Undisturbed(log: seq<Record>) {
    forall i :: 0 <= i < |log| && SetsFindings(log[i]) && !log[i].payload.findingsSnapshot ==>
      FindingsOf(log[..ReignEnd(log, i)]) == log[i].payload.findings
  }

  lemma {:induction false} OwnsThroughReign(log: seq<Record>, i: nat, n: nat)
    requires i < |log| && SetsFindings(log[i]) && i < n <= |log|
    ensures Owner(log, n) == i <==> n <= ReignEnd(log, i)
  {
    if n > i + 1 {
      OwnsThroughReign(log, i, n - 1);
      OwnerSets(log, n - 1);
    }
  }

  lemma {:induction false} NeverOwns(log: seq<Record>, i: nat, n: nat)
    requires i < |log| && n <= |log| && (!SetsFindings(log[i]) || log[i].payload.findingsSnapshot)
    ensures SliceAfter(log, n, i) == log[i].payload.findings
  {
    if n > 0 {
      NeverOwns(log, i, n - 1);
      OwnerSets(log, n);
    }
  }

  lemma {:induction false} SliceAtEnd(log: seq<Record>, i: nat, n: nat)
    requires i < |log| && SetsFindings(log[i]) && !log[i].payload.findingsSnapshot && ReignEnd(log, i) <= n <= |log|
    ensures SliceAfter(log, n, i) == FindingsOf(log[..ReignEnd(log, i)])
  {
    OwnsThroughReign(log, i, n);
    if n == ReignEnd(log, i) {
      SliceIsFindings(log, n);
    } else {
      SliceAtEnd(log, i, n - 1);
    }
  }

  // Whether the projection left the records it was given unchanged.
  lemma {:induction false} UnchangedIffUndisturbed(log: seq<Record>)
    ensures Rewritten(log, |log|) == log <==> Undisturbed(log)
  {
    forall i | 0 <= i < |log|
      ensures AsRewritten(log, i) == log[i] <==>
                (SetsFindings(log[i]) && !log[i].payload.findingsSnapshot ==> FindingsOf(log[..ReignEnd(log, i)]) == log[i].payload.findings)
    {
      if SetsFindings(log[i]) && !log[i].payload.findingsSnapshot {
        SliceAtEnd(log, i, |log|);
      } else {
        NeverOwns(log, i, |log|);
      }
    }
    forall i | 0 <= i < |log| ensures Rewritten(log, |log|)[i] == AsRewritten(log, i) {}
  }

  // Records rewritten with their old anchors are a chain only if none changed.
  lemma RewrittenIsChain(runId: string, valid: Record -> bool, log: seq<Record>)
    requires Chain.IsChain(runId, valid, log)
    ensures Chain.IsChain(runId, valid, Rewritten(log, |log|)) <==> Undisturbed(log)
  {
    UnchangedIffUndisturbed(log);
    var out := Rewritten(log, |log|);
    if Chain.IsChain(runId, valid, out) {
      forall i | 0 <= i < |log| ensures out[i] == log[i] {
        assert Chain.Follows(runId, log[..i], log[i]) && Chain.Follows(runId, out[..i], out[i]);
      }
      assert out == log;
    }
  }

  // A waivable finding recorded outside a snapshot, then overridden: a log
  // whose records the projection changes.
  lemma OverrideDisturbs(blank: Content, g: Finding, f: FindingOverride, r: Record, s: Record)
    requires r.payload == blank.(findings := [g], findingsSnapshot := false, findingOverride := None)
    requires s.payload == blank.(findings := [], findingsSnapshot := false, findingOverride := Some(f))
    requires g.id == f.findingId && g.disposition != f.disposition
    ensures !Undisturbed([r, s]) && Undisturbed([r])
  {
    var log := [r, s];
    assert log[..2][..1] == [r] && log[..2] == log && [r][..0] == [] && [r][..1] == [r];
    assert ReignEnd(log, 0) == 2 && ReignEnd([r], 0) == 1;
    OverrideChangesFirst([g], f, 0);
    assert FindingsOf([r]) == [g];
    assert FindingsOf(log) == ApplyOverride([g], f);
  }

  // A transaction that projects the resolution state and then appends, as
  // reconciliation and crediting do. Once it has appended, the run can be
  // loaded again exactly when the projection had left the records as recorded
  // and the new record's line can be read.
  method ProjectAndAppend(store: CoreStore.Store<Content>, r0: Record) returns (res: CoreStore.AppendResult,
            r: Record, ghost log: seq<Record>)
    modifies store
    ensures res.Appended? ==>
              && CoreStore.LoadsAs(store.runId, store.valid, store.length, old(store.files), log)
              && r == CoreStore.Anchored(r0)
              && (CoreStore.Loadable(store.runId, store.valid, store.length, store.files) <==>
                  Undisturbed(log) && store.length(r) < CoreStore.LINE_LIMIT)
  {
    var loaded := store.LoadLocked();
    if !loaded.Loaded? {
      return CoreStore.Failed, r0, [];
    }
    var records := loaded.log;
    log := records;
    var slices := Decode(records);
    var state := ProjectResolutionState(records, slices);
    var existing := Encode(records, slices);
    res, r := store.AppendLocked(existing, r0);
    if res.Appended? {
      CoreStore.SettledLoads(store.runId, store.valid, store.length, existing, r, store.files);
      RewrittenIsChain(store.runId, store.valid, log);
      UnchangedIffUndisturbed(log);
    }
  }

  // Each decoded record has a findings slice of its own.
  method Decode(log: seq<Record>) returns (slices: seq<array<Finding>>)
    ensures OnePerRecord(slices, log) && Backs(slices, log)
    ensures forall i :: 0 <= i < |slices| ==> fresh(slices[i])
  {
    slices := [];
    for n := 0 to |log|
      invariant OnePerRecord(slices, log[..n]) && Backs(slices, log[..n])
      invariant forall i :: 0 <= i < |slices| ==> fresh(slices[i])
    {
      var findings := log[n].payload.findings;
      var slice := new Finding[|findings|](i requires 0 <= i < |findings| => findings[i]);
      assert slice[..] == findings;
      slices := slices + [slice];
    }
    assert log[..|log|] == log;
  }

  // The records as they are marshalled again.
  method Encode(log: seq<Record>, slices: seq<array<Finding>>) returns (out: seq<Record>)
    requires |slices| == |log| && BacksAfter(slices, log, |log|)
    ensures out == Rewritten(log, |log|)
  {
    out := [];
    for n := 0 to |log|
      invariant out == Rewritten(log, n)
    {
      out := out + [log[n].(payload := log[n].payload.(findings := slices[n][..]))];
    }
  }
}
