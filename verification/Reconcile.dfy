// Classifying what the ledgers say was launched against what the host log
// authorized (internal/host/reconcile.go).
module Reconciling {
  import opened Vocabulary
  import opened Documents
  import opened HostModel
  import CoreModel
  import Leases
  import Revocation

  datatype LedgerRun = LedgerRun(
    namespace: string, dir: string, runId: string, mode: string, startedAt: Stamp, unreadable: bool, launch: Launch)

  datatype Refusal =
    | RunUnreadable | IdMismatch | NoMatchingRecord | AmbiguousMatch | NamespaceMismatch | ModeMismatch | RouteMismatch
    | TimesUnreadable | GenerationMissing | GenerationPlanMissing | PolicyNotPresented | PolicyUnproven
    | OutsideValidity | RecordReused

  datatype Verdict = Predates | Refused(reason: Refusal) | Authorized(record: HostAnchor)

  datatype Input = Input(
    core: seq<CoreModel.Record>, history: seq<HostRecord>, plans: map<PlanDigest, Plan>, policyDigest: string)

  // ---- the host records a run is matched with ----

  predicate Carries(r: HostRecord, id: string) {
    || (r.payload.body.ReservationBody? && r.payload.body.reservation.dispatchId == id)
    || (r.payload.body.PacketBody? && r.payload.body.dispatch.dispatchId == id)
  }

  function Matches(history: seq<HostRecord>, id: string): seq<HostRecord> {
    if history == [] then []
    else Matches(history[..|history| - 1], id) + (if Carries(history[|history| - 1], id) then [history[|history| - 1]] else [])
  }

  function IdOf(r: HostRecord): Option<string> {
    match r.payload.body
    case ReservationBody(v) => Some(v.dispatchId)
    case PacketBody(p) => Some(p.dispatchId)
    case _ => None
  }

  function AdmissionAt(history: seq<HostRecord>, a: HostAnchor): Option<Admitted> {
    if history == [] then None
    else if history[|history| - 1].payload.body.AdmissionBody? && history[|history| - 1].headAnchor == a
    then Some(history[|history| - 1].payload.body.admission)
    else AdmissionAt(history[..|history| - 1], a)
  }

  // The namespace m's launches belong to: its admission's, or its own.
  function NamespaceFor(history: seq<HostRecord>, m: HostRecord): string {
    match m.payload.body
    case ReservationBody(v) =>
      var adm := AdmissionAt(history, v.admission);
      if adm.Some? && adm.value.controller == v.controller then adm.value.namespace else ""
    case PacketBody(p) => p.namespace
    case _ => ""
  }

  // The first implementation preflight of the unit whose route is the one
  // reserved.
  function PreflightOf(history: seq<HostRecord>, unit: string, identity: RouteIdentity): Option<Preflight> {
    if history == [] then None
    else if NamesRoute(history[0], unit, identity) then Some(history[0].payload.body.preflight)
    else PreflightOf(history[1..], unit, identity)
  }

  predicate NamesRoute(r: HostRecord, unit: string, identity: RouteIdentity) {
    && r.payload.body.PreflightBody? && r.payload.body.preflight.unit == unit && r.payload.body.preflight.implementation
    && IdentityOf(r.payload.body.preflight.route) == identity
  }

  predicate LaunchMatches(history: seq<HostRecord>, m: HostRecord, l: Launch) {
    match m.payload.body
    case ReservationBody(v) =>
      var p := PreflightOf(history, v.unit, v.routeIdentity);
      p.Some? && l.agent == p.value.route.worker && l.model == p.value.route.model && l.effort == p.value.route.effort
    case PacketBody(p) => l == p.launch
    case _ => false
  }

  method FindPreflight(history: seq<HostRecord>, unit: string, identity: RouteIdentity) returns (p: Option<Preflight>)
    ensures p == PreflightOf(history, unit, identity)
  {
    for i := 0 to |history|
      invariant PreflightOf(history, unit, identity) == PreflightOf(history[i..], unit, identity)
    {
      assert history[i..][1..] == history[i + 1..];
      if NamesRoute(history[i], unit, identity) {
        return Some(history[i].payload.body.preflight);
      }
    }
    return None;
  }

  // ---- windows ----

  datatype Window = Open(from: int, until: int) | Shut(reason: Refusal)

  // The first record at this sequence that carries an approval.
  function GenerationRecord(core: seq<CoreModel.Record>, issuer: int): Option<CoreModel.Record> {
    if core == [] then None
    else if core[0].sequence == issuer && core[0].payload.approval.Some? then Some(core[0])
    else GenerationRecord(core[1..], issuer)
  }

  function GenerationPlan(inp: Input, issuer: int): Option<Plan> {
    var r := GenerationRecord(inp.core, issuer);
    if r.Some? && r.value.payload.approval.Some? && r.value.payload.approval.value.acceptedPlan in inp.plans
    then Some(inp.plans[r.value.payload.approval.value.acceptedPlan]) else None
  }

  method FindGenerationPlan(inp: Input, issuer: int) returns (plan: Option<Plan>)
    ensures plan == GenerationPlan(inp, issuer)
  {
    for i := 0 to |inp.core|
      invariant GenerationRecord(inp.core, issuer) == GenerationRecord(inp.core[i..], issuer)
    {
      assert inp.core[i..][1..] == inp.core[i + 1..];
      var r := inp.core[i];
      if r.sequence == issuer && r.payload.approval.Some? {
        return if r.payload.approval.value.acceptedPlan in inp.plans then Some(inp.plans[r.payload.approval.value.acceptedPlan]) else None;
      }
    }
    return None;
  }

  // policyBound.
  function PolicyBound(inp: Input, plan: Plan, issuer: int, from: int, until: int): Window {
    var revoked := PolicyEnd(inp.core, inp.history, plan.policyDigest, issuer);
    if inp.policyDigest == "" then Shut(PolicyNotPresented)
    else if inp.policyDigest != plan.policyDigest && revoked.None? then Shut(PolicyUnproven)
    else Open(from, if revoked.Some? && revoked.value < until then revoked.value else until)
  }

  // The first terminal outcome with a readable time, or the zero time.
  function FirstEnd(core: seq<CoreModel.Record>): int {
    if core == [] then ZERO_TIME
    else
      var before, r := FirstEnd(core[..|core| - 1]), core[|core| - 1];
      if before == ZERO_TIME && CoreModel.TerminalRecord(r) then TimeOr(r.payload.timestamp) else before
  }

  function TimeOr(t: Stamp): int {
    if t.At? then t.time else ZERO_TIME
  }

  // The issuer current when the core head was this anchor, by index, and that
  // head's sequence, or -1.
  function IssuerAtHead(core: seq<CoreModel.Record>, head: CoreModel.Anchor, unit: string): (int, int) {
    if core == [] then (-1, -1)
    else
      var (issuer, after) := IssuerAtHead(core[..|core| - 1], head, unit);
      var r := core[|core| - 1];
      (if after < 0 && Leases.IssuesLease(r, unit) then |core| - 1 else issuer, if r.headAnchor == head then r.sequence else after)
  }

  lemma {:induction false} IssuerAtHeadIssues(core: seq<CoreModel.Record>, head: CoreModel.Anchor, unit: string)
    ensures -1 <= IssuerAtHead(core, head, unit).0 < |core|
    ensures IssuerAtHead(core, head, unit).0 >= 0 ==> Leases.IssuesLease(core[IssuerAtHead(core, head, unit).0], unit)
  {
    if core != [] {
      IssuerAtHeadIssues(core[..|core| - 1], head, unit);
    }
  }

  ghost function ReservationWindow(inp: Input, v: Reserved): Window {
    if !v.validFrom.At? || !v.validUntil.At? then Shut(TimesUnreadable)
    else
      var plan := GenerationPlan(inp, v.generation.issuerSequence);
      if plan.None? then Shut(GenerationPlanMissing)
      else
        var until := Revocation.EndOf(inp.core, plan.value, v.unit, v.generation.issuerSequence, v.validUntil.time);
        PolicyBound(inp, plan.value, v.generation.issuerSequence, v.validFrom.time, until)
  }

  function Earlier(a: int, b: int): int {
    if b < a then b else a
  }

  // The run's first outcome ends it, if that is sooner.
  function UntilOutcome(core: seq<CoreModel.Record>, until: int): int {
    if FirstEnd(core) != ZERO_TIME then Earlier(until, FirstEnd(core)) else until
  }

  ghost function PacketWindow(inp: Input, m: HostRecord, p: Packet): Window {
    if !m.payload.timestamp.At? || !p.validUntil.At? then Shut(TimesUnreadable)
    else
      var until := UntilOutcome(inp.core, p.validUntil.time);
      var (issuer, after) := IssuerAtHead(inp.core, m.payload.coreHead, p.unit);
      IssuerAtHeadIssues(inp.core, m.payload.coreHead, p.unit);
      if after < 0 then Shut(TimesUnreadable)
      else if issuer < 0 then Shut(GenerationMissing)
      else IssuedWindow(inp, p.unit, inp.core[issuer], m.payload.timestamp.time, until)
  }

  // A review's window under the generation ir issued.
  ghost function IssuedWindow(inp: Input, unit: string, ir: CoreModel.Record, from: int, until: int): Window
    requires ir.payload.approval.Some?
  {
    var a := ir.payload.approval.value;
    if a.acceptedPlan !in inp.plans || UnitOf(inp.plans[a.acceptedPlan].units, unit).None? then Shut(GenerationPlanMissing)
    else if !a.timestamp.At? then Shut(TimesUnreadable)
    else
      var plan := inp.plans[a.acceptedPlan];
      var wall := a.timestamp.time + UnitOf(plan.units, unit).value.budgets.maxWallMinutes * Leases.MINUTE;
      PolicyBound(inp, plan, ir.sequence, from, Revocation.ReviewEndOf(inp.core, plan, unit, ir.sequence, Earlier(until, wall)))
  }

  ghost function Validity(inp: Input, m: HostRecord): Window {
    match m.payload.body
    case ReservationBody(v) => ReservationWindow(inp, v)
    case PacketBody(p) => PacketWindow(inp, m, p)
    case _ => Shut(TimesUnreadable)
  }

  method BoundByPolicy(inp: Input, plan: Plan, issuer: int, from: int, until: int) returns (w: Window)
    ensures w == PolicyBound(inp, plan, issuer, from, until)
  {
    var revoked := PolicyRevokedAt(inp.core, inp.history, plan.policyDigest, issuer);
    var end := until;
    if revoked.Some? && revoked.value < end {
      end := revoked.value;
    }
    if inp.policyDigest == "" {
      return Shut(PolicyNotPresented);
    }
    if inp.policyDigest != plan.policyDigest && revoked.None? {
      return Shut(PolicyUnproven);
    }
    return Open(from, end);
  }

  method FindIssuerAtHead(core: seq<CoreModel.Record>, head: CoreModel.Anchor, unit: string) returns (issuer: int,
            after: int)
    ensures (issuer, after) == IssuerAtHead(core, head, unit)
  {
    issuer, after := -1, -1;
    for i := 0 to |core|
      invariant (issuer, after) == IssuerAtHead(core[..i], head, unit)
    {
      assert core[..i + 1][..i] == core[..i];
      if after < 0 && Leases.IssuesLease(core[i], unit) {
        issuer := i;
      }
      if core[i].headAnchor == head {
        after := core[i].sequence;
      }
    }
    assert core[..|core|] == core;
  }

  method ValidityOf(inp: Input, m: HostRecord, terminal: int) returns (w: Window)
    requires terminal == FirstEnd(inp.core)
    ensures w == Validity(inp, m)
  {
    if m.payload.body.ReservationBody? {
      var v := m.payload.body.reservation;
      if !v.validFrom.At? || !v.validUntil.At? {
        return Shut(TimesUnreadable);
      }
      var plan := FindGenerationPlan(inp, v.generation.issuerSequence);
      if plan.None? {
        return Shut(GenerationPlanMissing);
      }
      var until := Revocation.RevokedAt(inp.core, plan.value, v.unit, v.generation.issuerSequence, v.validUntil.time);
      w := BoundByPolicy(inp, plan.value, v.generation.issuerSequence, v.validFrom.time, until);
    } else if m.payload.body.PacketBody? {
      w := PacketValidity(inp, m, terminal);
    } else {
      w := Shut(TimesUnreadable);
    }
  }

  method PacketValidity(inp: Input, m: HostRecord, terminal: int) returns (w: Window)
    requires terminal == FirstEnd(inp.core) && m.payload.body.PacketBody?
    ensures w == PacketWindow(inp, m, m.payload.body.dispatch)
  {
    var p := m.payload.body.dispatch;
    if !m.payload.timestamp.At? || !p.validUntil.At? {
      return Shut(TimesUnreadable);
    }
    var until := p.validUntil.time;
    if terminal != ZERO_TIME && terminal < until {
      until := terminal;
    }
    var issuer, after := FindIssuerAtHead(inp.core, m.payload.coreHead, p.unit);
    IssuerAtHeadIssues(inp.core, m.payload.coreHead, p.unit);
    if after < 0 {
      return Shut(TimesUnreadable);
    }
    if issuer < 0 {
      return Shut(GenerationMissing);
    }
    var a := inp.core[issuer].payload.approval.value;
    if a.acceptedPlan !in inp.plans {
      return Shut(GenerationPlanMissing);
    }
    var plan := inp.plans[a.acceptedPlan];
    var unit := FindUnit(plan.units, p.unit);
    if unit.None? {
      return Shut(GenerationPlanMissing);
    }
    if !a.timestamp.At? {
      return Shut(TimesUnreadable);
    }
    var wall := a.timestamp.time + unit.value.budgets.maxWallMinutes * Leases.MINUTE;
    if wall < until {
      until := wall;
    }
    until := Revocation.RevokedReviewAt(inp.core, plan, p.unit, inp.core[issuer].sequence, until);
    w := BoundByPolicy(inp, plan, inp.core[issuer].sequence, m.payload.timestamp.time, until);
  }

  // ---- one run ----

  function First(core: seq<CoreModel.Record>): int {
    if core == [] then ZERO_TIME else TimeOr(core[0].payload.timestamp)
  }

  // What a run is, before asking whether its record was used already.
  ghost function ClassOf(inp: Input, run: LedgerRun): Verdict {
    if run.unreadable || !run.startedAt.At? then Refused(RunUnreadable)
    else if run.startedAt.time < First(inp.core) then Predates
    else if run.runId != run.dir then Refused(IdMismatch)
    else
      var matches := Matches(inp.history, run.runId);
      if matches == [] then Refused(NoMatchingRecord)
      else if |matches| > 1 then Refused(AmbiguousMatch)
      else MatchedClass(inp, run, matches[0])
  }

  ghost function MatchedClass(inp: Input, run: LedgerRun, m: HostRecord): Verdict
    requires run.startedAt.At?
  {
    var ns := NamespaceFor(inp.history, m);
    if ns == "" || run.namespace != ns then Refused(NamespaceMismatch)
    else if (run.mode == "review") != m.payload.body.PacketBody? then Refused(ModeMismatch)
    else if !LaunchMatches(inp.history, m, run.launch) then Refused(RouteMismatch)
    else
      match Validity(inp, m)
      case Shut(reason) => Refused(reason)
      case Open(from, until) => if from <= run.startedAt.time < until then Authorized(m.headAnchor) else Refused(OutsideValidity)
  }

  // A run's class, unless an earlier run has used its record.
  function Judge(own: Verdict, used: set<HostAnchor>): Verdict {
    if own.Authorized? && own.record in used then Refused(RecordReused) else own
  }

  ghost function Classes(inp: Input, runs: seq<LedgerRun>): (cs: seq<Verdict>)
    ensures |cs| == |runs| && forall i :: 0 <= i < |runs| ==> cs[i] == ClassOf(inp, runs[i])
  {
    if runs == [] then [] else Classes(inp, runs[..|runs| - 1]) + [ClassOf(inp, runs[|runs| - 1])]
  }

  ghost function JudgeAll(classes: seq<Verdict>): (vs: seq<Verdict>)
    ensures |vs| == |classes|
  {
    if classes == [] then []
    else
      var before := JudgeAll(classes[..|classes| - 1]);
      before + [Judge(classes[|classes| - 1], UsedBy(before))]
  }

  ghost function Verdicts(inp: Input, runs: seq<LedgerRun>): (vs: seq<Verdict>)
    ensures |vs| == |runs|
  {
    JudgeAll(Classes(inp, runs))
  }

  ghost function UsedBy(vs: seq<Verdict>): set<HostAnchor> {
    set i | 0 <= i < |vs| && vs[i].Authorized? :: vs[i].record
  }

  // The directories with this verdict, in order.
  ghost function AuthorizedDirs(runs: seq<LedgerRun>, vs: seq<Verdict>): seq<string>
    requires |runs| == |vs|
  {
    if runs == [] then []
    else
      var n := |runs| - 1;
      AuthorizedDirs(runs[..n], vs[..n]) + if vs[n].Authorized? then [runs[n].dir] else []
  }

  datatype Unauthorized = Unauthorized(runId: string, reason: Complaint)

  datatype Complaint = Launched(why: Refusal) | JournalAdmissionMissing | JournalAdmissionMismatch | JournalAttemptUnreserved

  ghost function RefusedRuns(runs: seq<LedgerRun>, vs: seq<Verdict>): seq<Unauthorized>
    requires |runs| == |vs|
  {
    if runs == [] then []
    else
      var n := |runs| - 1;
      RefusedRuns(runs[..n], vs[..n]) + if vs[n].Refused? then [Unauthorized(runs[n].dir, Launched(vs[n].reason))] else []
  }

  // ---- journals ----

  predicate Reserves(r: HostRecord, id: string, j: Journal) {
    && r.payload.body.ReservationBody? && r.payload.body.reservation.dispatchId == id
    && r.payload.body.reservation.controller == j.controller && r.payload.body.reservation.unit == j.unit
  }

  predicate AdmitsJournal(r: HostRecord, j: Journal) {
    r.payload.body.AdmissionBody? && r.payload.body.admission.controller == j.controller
  }

  function AdmissionsOf(history: seq<HostRecord>, j: Journal): seq<Admitted> {
    if history == [] then []
    else
      AdmissionsOf(history[..|history| - 1], j)
      + if AdmitsJournal(history[|history| - 1], j) then [history[|history| - 1].payload.body.admission] else []
  }

  predicate BoundTo(a: Admitted, j: Journal) {
    && a.envelope == j.envelope && a.namespace == j.namespace && a.unit == j.unit
    && a.cloneBaseline == j.cloneBaseline && a.liveRoot == j.liveRoot
  }

  predicate ReservedFor(history: seq<HostRecord>, j: Journal, id: string) {
    exists i :: 0 <= i < |history| && Reserves(history[i], id, j)
  }

  function UnreservedAttempts(history: seq<HostRecord>, j: Journal, attempts: seq<string>): seq<Unauthorized> {
    if attempts == [] then []
    else
      var id := attempts[|attempts| - 1];
      UnreservedAttempts(history, j, attempts[..|attempts| - 1])
      + if id == "" || ReservedFor(history, j, id) then [] else [Unauthorized(id, JournalAttemptUnreserved)]
  }

  function JournalComplaints(history: seq<HostRecord>, j: Journal): seq<Unauthorized> {
    var matched := AdmissionsOf(history, j);
    (if |matched| != 1 then [Unauthorized(j.controller, JournalAdmissionMissing)]
     else if !BoundTo(matched[0], j) then [Unauthorized(j.controller, JournalAdmissionMismatch)] else [])
    + UnreservedAttempts(history, j, j.attempts)
  }

  function AllComplaints(history: seq<HostRecord>, journals: seq<HostRecord>): seq<Unauthorized> {
    if journals == [] then []
    else
      AllComplaints(history, journals[..|journals| - 1])
      + if journals[|journals| - 1].payload.body.JournalBody?
        then JournalComplaints(history, journals[|journals| - 1].payload.body.journal) else []
  }

  // ---- reconciliation ----

  class Index {
    var admissions: map<HostAnchor, Admitted>
    var byDispatch: map<string, seq<HostRecord>>

    ghost predicate Of(history: seq<HostRecord>)
      reads this
    {
      && (forall a :: Lookup(admissions, a) == AdmissionAt(history, a))
      && (forall id :: Found(byDispatch, id) == Matches(history, id))
    }

    constructor (history: seq<HostRecord>)
      ensures Of(history)
    {
      admissions, byDispatch := map[], map[];
      new;
      for i := 0 to |history|
        invariant Of(history[..i])
      {
        Add(history[..i], history[i]);
        assert history[..i + 1] == history[..i] + [history[i]];
      }
      assert history[..|history|] == history;
    }

    method Add(ghost before: seq<HostRecord>, r: HostRecord)
      requires Of(before)
      modifies this
      ensures Of(before + [r])
    {
      AdmissionsGrow(admissions, before, r);
      DispatchesGrow(byDispatch, before, r);
      if r.payload.body.AdmissionBody? {
        admissions := admissions[r.headAnchor := r.payload.body.admission];
      } else if IdOf(r).Some? {
        var id := IdOf(r).value;
        byDispatch := byDispatch[id := Found(byDispatch, id) + [r]];
      }
    }
  }

  lemma AdmissionsGrow(m: map<HostAnchor, Admitted>, before: seq<HostRecord>, r: HostRecord)
    requires forall a :: Lookup(m, a) == AdmissionAt(before, a)
    ensures var n := if r.payload.body.AdmissionBody? then m[r.headAnchor := r.payload.body.admission] else m;
            forall a :: Lookup(n, a) == AdmissionAt(before + [r], a)
  {
    assert (before + [r])[..|before|] == before;
  }

  lemma DispatchesGrow(m: map<string, seq<HostRecord>>, before: seq<HostRecord>, r: HostRecord)
    requires forall id :: Found(m, id) == Matches(before, id)
    ensures var n := if IdOf(r).Some? then m[IdOf(r).value := Found(m, IdOf(r).value) + [r]] else m;
            forall id :: Found(n, id) == Matches(before + [r], id)
  {
    var n := if IdOf(r).Some? then m[IdOf(r).value := Found(m, IdOf(r).value) + [r]] else m;
    forall id ensures Found(n, id) == Matches(before + [r], id) {
      OneRecordMore(before, r, id);
      assert Found(m, id) == Matches(before, id);
    }
  }

  lemma OneRecordMore(before: seq<HostRecord>, r: HostRecord, id: string)
    ensures Matches(before + [r], id) == if IdOf(r) == Some(id) then Matches(before, id) + [r] else Matches(before, id)
  {
    assert (before + [r])[..|before|] == before;
  }

  function Lookup(m: map<HostAnchor, Admitted>, a: HostAnchor): Option<Admitted> {
    if a in m then Some(m[a]) else None
  }

  function Found(m: map<string, seq<HostRecord>>, id: string): seq<HostRecord> {
    if id in m then m[id] else []
  }

  method Classify(inp: Input, index: Index, terminal: int, run: LedgerRun) returns (v: Verdict)
    requires index.Of(inp.history) && terminal == FirstEnd(inp.core)
    ensures v == ClassOf(inp, run)
  {
    if run.unreadable || !run.startedAt.At? {
      return Refused(RunUnreadable);
    }
    if run.startedAt.time < First(inp.core) {
      return Predates;
    }
    if run.runId != run.dir {
      return Refused(IdMismatch);
    }
    var matches := Found(index.byDispatch, run.runId);
    if |matches| != 1 {
      return if |matches| == 0 then Refused(NoMatchingRecord) else Refused(AmbiguousMatch);
    }
    var m := matches[0];
    var ns := "";
    if m.payload.body.ReservationBody? {
      var adm := Lookup(index.admissions, m.payload.body.reservation.admission);
      if adm.None? || adm.value.controller != m.payload.body.reservation.controller {
        return Refused(NamespaceMismatch);
      }
      ns := adm.value.namespace;
    } else if m.payload.body.PacketBody? {
      ns := m.payload.body.dispatch.namespace;
    }
    if ns == "" || run.namespace != ns {
      return Refused(NamespaceMismatch);
    }
    if (run.mode == "review") != m.payload.body.PacketBody? {
      return Refused(ModeMismatch);
    }
    var same := CheckLaunch(inp.history, m, run.launch);
    if !same {
      return Refused(RouteMismatch);
    }
    var w := ValidityOf(inp, m, terminal);
    match w
    case Shut(reason) => v := Refused(reason);
    case Open(from, until) =>
      v := if run.startedAt.time < from || run.startedAt.time >= until then Refused(OutsideValidity) else Authorized(m.headAnchor);
  }

  method CheckLaunch(history: seq<HostRecord>, m: HostRecord, l: Launch) returns (same: bool)
    ensures same == LaunchMatches(history, m, l)
  {
    match m.payload.body
    case ReservationBody(v) =>
      var p := FindPreflight(history, v.unit, v.routeIdentity);
      same := p.Some? && l.agent == p.value.route.worker && l.model == p.value.route.model && l.effort == p.value.route.effort;
    case PacketBody(p) => same := l == p.launch;
    case _ => same := false;
  }

  method FindFirstEnd(core: seq<CoreModel.Record>) returns (terminal: int)
    ensures terminal == FirstEnd(core)
  {
    terminal := ZERO_TIME;
    for i := 0 to |core|
      invariant terminal == FirstEnd(core[..i])
    {
      assert core[..i + 1][..i] == core[..i];
      if CoreModel.TerminalRecord(core[i]) && terminal == ZERO_TIME {
        terminal := TimeOr(core[i].payload.timestamp);
      }
    }
    assert core[..|core|] == core;
  }

  method CheckJournal(history: seq<HostRecord>, j: Journal) returns (out: seq<Unauthorized>)
    ensures out == JournalComplaints(history, j)
  {
    var matched: seq<Admitted> := [];
    for i := 0 to |history|
      invariant matched == AdmissionsOf(history[..i], j)
    {
      assert history[..i + 1][..i] == history[..i];
      if AdmitsJournal(history[i], j) {
        matched := matched + [history[i].payload.body.admission];
      }
    }
    assert history[..|history|] == history;
    out := [];
    if |matched| != 1 {
      out := [Unauthorized(j.controller, JournalAdmissionMissing)];
    } else if !BoundTo(matched[0], j) {
      out := [Unauthorized(j.controller, JournalAdmissionMismatch)];
    }
    ghost var before := out;
    for k := 0 to |j.attempts|
      invariant out == before + UnreservedAttempts(history, j, j.attempts[..k])
    {
      assert j.attempts[..k + 1][..k] == j.attempts[..k];
      var id := j.attempts[k];
      if id == "" {
        continue;
      }
      if !ReservedFor(history, j, id) {
        out := out + [Unauthorized(id, JournalAttemptUnreserved)];
      }
    }
    assert j.attempts[..|j.attempts|] == j.attempts;
  }

  // The lists of these runs, and the records they used.
  ghost predicate Tallied(inp: Input, runs: seq<LedgerRun>, authorized: seq<string>, unauthorized: seq<Unauthorized>,
            used: set<HostAnchor>) {
    && authorized == AuthorizedDirs(runs, Verdicts(inp, runs)) && unauthorized == RefusedRuns(runs, Verdicts(inp, runs))
    && used == UsedBy(Verdicts(inp, runs))
  }

  // What one verdict adds to the lists and to the records used.
  function Allowed(v: Verdict, dir: string): seq<string> {
    if v.Authorized? then [dir] else []
  }

  function Complained(v: Verdict, dir: string): seq<Unauthorized> {
    if v.Refused? then [Unauthorized(dir, Launched(v.reason))] else []
  }

  function Spent(v: Verdict): set<HostAnchor> {
    if v.Authorized? then {v.record} else {}
  }

  lemma TallyNext(inp: Input, runs: seq<LedgerRun>, i: nat, authorized: seq<string>, unauthorized: seq<Unauthorized>,
            used: set<HostAnchor>)
    requires i < |runs| && Tallied(inp, runs[..i], authorized, unauthorized, used)
    ensures
      var v := Judge(ClassOf(inp, runs[i]), used);
      Tallied(inp, runs[..i + 1], authorized + Allowed(v, runs[i].dir), unauthorized + Complained(v, runs[i].dir), used + Spent(v))
  {
    VerdictsSnoc(inp, runs, i);
  }

  // The switch of the loop over the runs.
  method Count(own: Verdict, dir: string, authorized: seq<string>, unauthorized: seq<Unauthorized>,
            used: set<HostAnchor>)
    returns (allowed: seq<string>, refused: seq<Unauthorized>, spent: set<HostAnchor>)
    ensures
      var v := Judge(own, used);
      allowed == authorized + Allowed(v, dir) && refused == unauthorized + Complained(v, dir) && spent == used + Spent(v)
  {
    allowed, refused, spent := authorized, unauthorized, used;
    match own
    case Predates =>
    case Refused(reason) => refused := refused + [Unauthorized(dir, Launched(reason))];
    case Authorized(record) =>
      if record in used {
        refused := refused + [Unauthorized(dir, Launched(RecordReused))];
      } else {
        spent := spent + {record};
        allowed := allowed + [dir];
      }
  }

  method ReconcileRuns(inp: Input, index: Index, runs: seq<LedgerRun>)
    returns (authorized: seq<string>, unauthorized: seq<Unauthorized>, used: set<HostAnchor>)
    requires index.Of(inp.history)
    ensures Tallied(inp, runs, authorized, unauthorized, used)
  {
    var terminal := FindFirstEnd(inp.core);
    authorized, unauthorized, used := [], [], {};
    for i := 0 to |runs|
      invariant index.Of(inp.history) && Tallied(inp, runs[..i], authorized, unauthorized, used)
    {
      var own := Classify(inp, index, terminal, runs[i]);
      TallyNext(inp, runs, i, authorized, unauthorized, used);
      authorized, unauthorized, used := Count(own, runs[i].dir, authorized, unauthorized, used);
    }
    assert runs[..|runs|] == runs;
  }

  method CheckJournals(history: seq<HostRecord>) returns (complaints: seq<Unauthorized>)
    ensures complaints == AllComplaints(history, history)
  {
    complaints := [];
    for i := 0 to |history|
      invariant complaints == AllComplaints(history, history[..i])
    {
      assert history[..i + 1][..i] == history[..i];
      if history[i].payload.body.JournalBody? {
        var more := CheckJournal(history, history[i].payload.body.journal);
        complaints := complaints + more;
      }
    }
    assert history[..|history|] == history;
  }

  // runs is the ledger in the order it was sorted into.
  method Reconcile(inp: Input, runs: seq<LedgerRun>) returns (authorized: seq<string>,
            unauthorized: seq<Unauthorized>, unlaunched: seq<string>)
    ensures authorized == AuthorizedDirs(runs, Verdicts(inp, runs))
    ensures unauthorized == RefusedRuns(runs, Verdicts(inp, runs)) + AllComplaints(inp.history, inp.history)
    ensures unlaunched == UnlaunchedIds(inp.history, UsedBy(Verdicts(inp, runs)))
  {
    var index := new Index(inp.history);
    var used;
    authorized, unauthorized, used := ReconcileRuns(inp, index, runs);
    unlaunched := FindUnlaunched(inp.history, used);
    var complaints := CheckJournals(inp.history);
    unauthorized := unauthorized + complaints;
  }

  method FindUnlaunched(history: seq<HostRecord>, used: set<HostAnchor>) returns (unlaunched: seq<string>)
    ensures unlaunched == UnlaunchedIds(history, used)
  {
    unlaunched := [];
    for i := 0 to |history|
      invariant unlaunched == UnlaunchedIds(history[..i], used)
    {
      assert history[..i + 1][..i] == history[..i];
      var r := history[i];
      if r.payload.body.ReservationBody? && r.headAnchor !in used {
        unlaunched := unlaunched + [r.payload.body.reservation.dispatchId];
      }
    }
    assert history[..|history|] == history;
  }

  function UnlaunchedIds(history: seq<HostRecord>, used: set<HostAnchor>): seq<string> {
    if history == [] then []
    else
      var r := history[|history| - 1];
      UnlaunchedIds(history[..|history| - 1], used)
      + if r.payload.body.ReservationBody? && r.headAnchor !in used then [r.payload.body.reservation.dispatchId] else []
  }

  lemma UsedBySnoc(vs: seq<Verdict>, v: Verdict)
    ensures UsedBy(vs + [v]) == UsedBy(vs) + (if v.Authorized? then {v.record} else {})
  {
    forall a | a in UsedBy(vs) ensures a in UsedBy(vs + [v]) {
      var k :| 0 <= k < |vs| && vs[k].Authorized? && vs[k].record == a;
      assert (vs + [v])[k] == vs[k];
    }
    if v.Authorized? {
      assert (vs + [v])[|vs|] == v;
    }
  }

  lemma ListsSnoc(runs: seq<LedgerRun>, i: nat, vs: seq<Verdict>, v: Verdict)
    requires i < |runs| && |vs| == i
    ensures AuthorizedDirs(runs[..i + 1], vs + [v]) == AuthorizedDirs(runs[..i], vs) + (if v.Authorized? then [runs[i].dir] else [])
    ensures RefusedRuns(runs[..i + 1], vs + [v])
            == RefusedRuns(runs[..i], vs) + (if v.Refused? then [Unauthorized(runs[i].dir, Launched(v.reason))] else [])
  {
    assert runs[..i + 1][..i] == runs[..i] && (vs + [v])[..i] == vs;
  }

  // The verdict lists of one run more.
  lemma VerdictsSnoc(inp: Input, runs: seq<LedgerRun>, i: nat)
    requires i < |runs|
    ensures
      var before := Verdicts(inp, runs[..i]);
      var v := Judge(ClassOf(inp, runs[i]), UsedBy(before));
      && Verdicts(inp, runs[..i + 1]) == before + [v]
      && UsedBy(before + [v]) == UsedBy(before) + (if v.Authorized? then {v.record} else {})
      && AuthorizedDirs(runs[..i + 1], before + [v]) == AuthorizedDirs(runs[..i], before) + (if v.Authorized? then [runs[i].dir] else [])
      && RefusedRuns(runs[..i + 1], before + [v])
         == RefusedRuns(runs[..i], before) + (if v.Refused? then [Unauthorized(runs[i].dir, Launched(v.reason))] else [])
  {
    var before := Verdicts(inp, runs[..i]);
    var v := Judge(ClassOf(inp, runs[i]), UsedBy(before));
    assert runs[..i + 1][..i] == runs[..i];
    assert Classes(inp, runs[..i + 1])[..i] == Classes(inp, runs[..i]);
    UsedBySnoc(before, v);
    ListsSnoc(runs, i, before, v);
  }

  // ---- what the classification guarantees ----

  // No two directories of one namespace, as a file system keeps them.
  predicate DistinctRuns(runs: seq<LedgerRun>) {
    forall i, j :: 0 <= i < j < |runs| ==> runs[i].namespace != runs[j].namespace || runs[i].dir != runs[j].dir
  }

  // What authorized a run: one record that carries its id, in its namespace.
  lemma {:induction false} SingleMatch(history: seq<HostRecord>, id: string)
    ensures forall r :: r in Matches(history, id) <==> r in history && Carries(r, id)
  {
    if history != [] {
      var n := |history| - 1;
      SingleMatch(history[..n], id);
      assert history == history[..n] + [history[n]];
    }
  }

  lemma AuthorizedBy(inp: Input, run: LedgerRun) returns (m: HostRecord)
    requires ClassOf(inp, run).Authorized?
    ensures m in inp.history && Carries(m, run.dir) && m.headAnchor == ClassOf(inp, run).record
    ensures run.namespace == NamespaceFor(inp.history, m)
    ensures Matches(inp.history, run.dir) == [m]
  {
    m := Matches(inp.history, run.runId)[0];
    assert m in Matches(inp.history, run.runId);
    SingleMatch(inp.history, run.runId);
  }

  // A record authorizes at most one directory of one namespace.
  lemma OneRunPerRecord(inp: Input, a: LedgerRun, b: LedgerRun)
    requires HostPlaced(inp.history)
    requires ClassOf(inp, a).Authorized? && ClassOf(inp, b) == ClassOf(inp, a)
    ensures a.namespace == b.namespace && a.dir == b.dir
  {
    var m := AuthorizedBy(inp, a);
    var n := AuthorizedBy(inp, b);
    assert m == n;
  }

  lemma {:induction false} JudgedPrefix(classes: seq<Verdict>, i: nat)
    requires i <= |classes|
    ensures JudgeAll(classes)[..i] == JudgeAll(classes[..i])
  {
    var n := |classes| - 1;
    if i <= n {
      JudgedPrefix(classes[..n], i);
      assert classes[..n][..i] == classes[..i];
      assert JudgeAll(classes)[..i] == JudgeAll(classes[..n])[..i];
    } else {
      assert classes[..i] == classes;
    }
  }

  lemma VerdictAt(inp: Input, runs: seq<LedgerRun>, i: nat)
    requires i < |runs|
    ensures Verdicts(inp, runs)[i] == Judge(ClassOf(inp, runs[i]), UsedBy(Verdicts(inp, runs)[..i]))
  {
    var classes := Classes(inp, runs);
    JudgedPrefix(classes, i);
    JudgedPrefix(classes, i + 1);
    assert classes[..i + 1][..i] == classes[..i];
    assert JudgeAll(classes)[..i + 1][i] == JudgeAll(classes)[i];
  }

  // No record authorizes two runs, whatever the ledgers hold.
  lemma NoRecordTwice(inp: Input, runs: seq<LedgerRun>, i: nat, j: nat)
    requires i < j < |runs| && Verdicts(inp, runs)[i].Authorized? && Verdicts(inp, runs)[j].Authorized?
    ensures Verdicts(inp, runs)[i].record != Verdicts(inp, runs)[j].record
  {
    VerdictAt(inp, runs, j);
    assert Verdicts(inp, runs)[..j][i] == Verdicts(inp, runs)[i];
  }

  // When directories are distinct, a run's verdict is its own: no record is
  // reused, and neither the order of the runs nor the other runs matter.
  lemma {:induction false} VerdictIsOwn(inp: Input, runs: seq<LedgerRun>, i: nat)
    requires HostPlaced(inp.history) && DistinctRuns(runs) && i < |runs|
    ensures Verdicts(inp, runs)[i] == ClassOf(inp, runs[i])
    ensures Verdicts(inp, runs)[i] != Refused(RecordReused)
    decreases i
  {
    VerdictAt(inp, runs, i);
    var c := ClassOf(inp, runs[i]);
    if c.Authorized? && c.record in UsedBy(Verdicts(inp, runs)[..i]) {
      var k :| 0 <= k < i && Verdicts(inp, runs)[..i][k].Authorized? && Verdicts(inp, runs)[..i][k].record == c.record;
      VerdictIsOwn(inp, runs, k);
      OneRunPerRecord(inp, runs[k], runs[i]);
      assert false;
    }
    NeverReusedOutright(inp, runs[i]);
  }

  lemma NeverReusedOutright(inp: Input, run: LedgerRun)
    ensures ClassOf(inp, run) != Refused(RecordReused)
  {
  }

  lemma OrderIrrelevant(inp: Input, runs: seq<LedgerRun>, other: seq<LedgerRun>, i: nat, j: nat)
    requires HostPlaced(inp.history) && DistinctRuns(runs) && DistinctRuns(other)
    requires i < |runs| && j < |other| && runs[i] == other[j]
    ensures Verdicts(inp, runs)[i] == Verdicts(inp, other)[j]
  {
    VerdictIsOwn(inp, runs, i);
    VerdictIsOwn(inp, other, j);
  }

  function CountPredating(vs: seq<Verdict>): nat {
    if vs == [] then 0 else CountPredating(vs[..|vs| - 1]) + if vs[|vs| - 1].Predates? then 1 else 0
  }

  // Where a run's entry stands in the two lists.
  ghost predicate Listed(runs: seq<LedgerRun>, vs: seq<Verdict>, i: nat)
    requires |runs| == |vs| && i < |runs|
  {
    var a, r := |AuthorizedDirs(runs[..i], vs[..i])|, |RefusedRuns(runs[..i], vs[..i])|;
    var authorized, refused := AuthorizedDirs(runs, vs), RefusedRuns(runs, vs);
    match vs[i]
    case Predates => true
    case Authorized(_) => a < |authorized| && authorized[a] == runs[i].dir
    case Refused(reason) => r < |refused| && refused[r] == Unauthorized(runs[i].dir, Launched(reason))
  }

  lemma {:induction false} EntryAt(runs: seq<LedgerRun>, vs: seq<Verdict>, i: nat)
    requires |runs| == |vs| && i < |runs|
    ensures Listed(runs, vs, i)
  {
    var n := |runs| - 1;
    if i < n {
      EntryAt(runs[..n], vs[..n], i);
      assert runs[..n][..i] == runs[..i] && vs[..n][..i] == vs[..i];
    }
  }

  lemma {:induction false} EntriesCount(runs: seq<LedgerRun>, vs: seq<Verdict>)
    requires |runs| == |vs|
    ensures |AuthorizedDirs(runs, vs)| + |RefusedRuns(runs, vs)| + CountPredating(vs) == |runs|
  {
    if runs != [] {
      EntriesCount(runs[..|runs| - 1], vs[..|runs| - 1]);
    }
  }

  // Every run is reported once: its entry is in the list its verdict names, at
  // the place the runs before it leave, and the lists hold nothing else.
  lemma EveryRunOnce(inp: Input, runs: seq<LedgerRun>)
    ensures
      var vs := Verdicts(inp, runs);
      && (forall i :: 0 <= i < |runs| ==> Listed(runs, vs, i))
      && |AuthorizedDirs(runs, vs)| + |RefusedRuns(runs, vs)| + CountPredating(vs) == |runs|
  {
    var vs := Verdicts(inp, runs);
    forall i | 0 <= i < |runs| ensures Listed(runs, vs, i) {
      EntryAt(runs, vs, i);
    }
    EntriesCount(runs, vs);
  }

  // ---- exactly which launches are authorized ----

  ghost predicate NotRevoked(core: seq<CoreModel.Record>, plan: Plan, unit: string, issuer: int, review: bool, t: int) {
    forall r :: r in core && Revocation.Revokes(r, DependenciesOf(plan, unit), unit, issuer, review) ==> t < Revocation.EventTime(r)
  }

  // Some policy was presented; the plan's own, unless its replacement is on
  // record; and no recorded replacement came before t.
  ghost predicate PolicyAllows(inp: Input, plan: Plan, issuer: int, t: int) {
    && inp.policyDigest != ""
    && (inp.policyDigest == plan.policyDigest || exists r :: r in inp.history && Applies(inp.core, r, plan.policyDigest, issuer))
    && (forall r :: r in inp.history && Applies(inp.core, r, plan.policyDigest, issuer) ==> t < ObservedAt(inp.core, r, plan.policyDigest))
  }

  predicate Inside(w: Window, t: int) {
    w.Open? && w.from <= t < w.until
  }

  // A window bounded by policy holds exactly the times it held before that the
  // policy allows.
  lemma PolicyBoundExactly(inp: Input, plan: Plan, issuer: int, from: int, until: int, t: int)
    ensures Inside(PolicyBound(inp, plan, issuer, from, until), t) <==> from <= t < until && PolicyAllows(inp, plan, issuer, t)
  {
    PolicyEndIsEarliest(inp.core, inp.history, plan.policyDigest, issuer);
  }

  lemma EndExactly(core: seq<CoreModel.Record>, plan: Plan, unit: string, issuer: int, original: int, review: bool,
            t: int)
    ensures t < Revocation.EndAfter(core, DependenciesOf(plan, unit), unit, issuer, original, review)
            <==> t < original && NotRevoked(core, plan, unit, issuer, review, t)
  {
    Revocation.EndIsEarliest(core, DependenciesOf(plan, unit), unit, issuer, original, review);
  }

  // The record at this sequence is an approval, and the plan it accepted is kept.
  predicate PlanKept(inp: Input, issuer: int) {
    && 1 <= issuer <= |inp.core| && inp.core[issuer - 1].payload.approval.Some?
    && inp.core[issuer - 1].payload.approval.value.acceptedPlan in inp.plans
  }

  lemma {:induction false} GenerationFound(core: seq<CoreModel.Record>, base: int, issuer: int)
    requires forall i :: 0 <= i < |core| ==> core[i].sequence == base + i + 1
    ensures GenerationRecord(core, issuer)
            == if base < issuer <= base + |core| && core[issuer - base - 1].payload.approval.Some?
               then Some(core[issuer - base - 1]) else None
    decreases |core|
  {
    if core != [] {
      GenerationFound(core[1..], base + 1, issuer);
      assert forall i :: 0 <= i < |core| - 1 ==> core[1..][i] == core[i + 1];
    }
  }

  lemma GenerationPlanExactly(inp: Input, issuer: int)
    requires Leases.Placed(inp.core)
    ensures GenerationPlan(inp, issuer)
            == if PlanKept(inp, issuer) then Some(inp.plans[inp.core[issuer - 1].payload.approval.value.acceptedPlan]) else None
  {
    GenerationFound(inp.core, 0, issuer);
  }

  // At t the reservation still authorizes: in its own times, before every
  // event that ends its generation, on a policy that allows it.
  ghost predicate ReservationCovers(inp: Input, v: Reserved, t: int) {
    var issuer := v.generation.issuerSequence;
    && v.validFrom.At? && v.validUntil.At? && v.validFrom.time <= t < v.validUntil.time
    && PlanKept(inp, issuer)
    && var plan := inp.plans[inp.core[issuer - 1].payload.approval.value.acceptedPlan];
       NotRevoked(inp.core, plan, v.unit, issuer, false, t) && PolicyAllows(inp, plan, issuer, t)
  }

  // The unit's lease when the packet was issued is that of this approval, and
  // the plan it accepted is kept.
  predicate PacketGeneration(inp: Input, m: HostRecord, p: Packet, h: int, issuer: int) {
    && 0 <= h < |inp.core| && inp.core[h].headAnchor == m.payload.coreHead
    && issuer == Leases.LatestIssuer(inp.core[..h + 1], p.unit) && 0 <= issuer
    && inp.core[issuer].payload.approval.value.acceptedPlan in inp.plans
    && UnitOf(inp.plans[inp.core[issuer].payload.approval.value.acceptedPlan].units, p.unit).Some?
    && inp.core[issuer].payload.approval.value.timestamp.At?
  }

  predicate EndsRun(r: CoreModel.Record) {
    CoreModel.TerminalRecord(r) && r.payload.timestamp.At? && r.payload.timestamp.time != ZERO_TIME
  }

  // The first outcome on record with a readable time.
  predicate FirstOutcome(core: seq<CoreModel.Record>, k: int) {
    0 <= k < |core| && EndsRun(core[k]) && forall i :: 0 <= i < k ==> !EndsRun(core[i])
  }

  lemma {:induction false} FirstEndExactly(core: seq<CoreModel.Record>)
    ensures FirstEnd(core) != ZERO_TIME <==> exists k :: 0 <= k < |core| && EndsRun(core[k])
    ensures forall k :: FirstOutcome(core, k) ==> FirstEnd(core) == core[k].payload.timestamp.time
  {
    if core != [] {
      var n := |core| - 1;
      FirstEndExactly(core[..n]);
      assert forall k :: 0 <= k < n ==> core[..n][k] == core[k];
      forall k | FirstOutcome(core, k) && k < n ensures FirstOutcome(core[..n], k) {}
    }
  }

  lemma {:induction false} SomeEndsFirst(core: seq<CoreModel.Record>, k: nat) returns (first: nat)
    requires k < |core| && EndsRun(core[k])
    ensures FirstOutcome(core, first)
  {
    first := k;
    if i :| 0 <= i < k && EndsRun(core[i]) {
      first := SomeEndsFirst(core, i);
    }
  }

  // Before the first outcome, and before this end.
  lemma BeforeOutcome(core: seq<CoreModel.Record>, until: int, t: int)
    ensures t < UntilOutcome(core, until) <==> t < until && forall k :: FirstOutcome(core, k) ==> t < core[k].payload.timestamp.time
  {
    FirstEndExactly(core);
    if k :| 0 <= k < |core| && EndsRun(core[k]) {
      var first := SomeEndsFirst(core, k);
    }
  }

  // At t the packet still authorizes a review: in its own times, before the
  // run's first outcome and the unit's wall-time end, before every event that
  // ends the review, on a policy that allows it.
  ghost predicate PacketCovers(inp: Input, m: HostRecord, p: Packet, t: int) {
    exists h, issuer :: PacketGeneration(inp, m, p, h, issuer) && PacketCoversUnder(inp, m, p, issuer, t)
  }

  ghost predicate PacketCoversUnder(inp: Input, m: HostRecord, p: Packet, issuer: int, t: int)
    requires 0 <= issuer < |inp.core| && inp.core[issuer].payload.approval.Some?
    requires inp.core[issuer].payload.approval.value.acceptedPlan in inp.plans
    requires UnitOf(inp.plans[inp.core[issuer].payload.approval.value.acceptedPlan].units, p.unit).Some?
    requires inp.core[issuer].payload.approval.value.timestamp.At?
  {
    var a := inp.core[issuer].payload.approval.value;
    var plan := inp.plans[a.acceptedPlan];
    && m.payload.timestamp.At? && p.validUntil.At? && m.payload.timestamp.time <= t < p.validUntil.time
    && (forall k :: FirstOutcome(inp.core, k) ==> t < inp.core[k].payload.timestamp.time)
    && t < a.timestamp.time + UnitOf(plan.units, p.unit).value.budgets.maxWallMinutes * Leases.MINUTE
    && NotRevoked(inp.core, plan, p.unit, inp.core[issuer].sequence, true, t)
    && PolicyAllows(inp, plan, inp.core[issuer].sequence, t)
  }

  ghost predicate Covers(inp: Input, m: HostRecord, t: int) {
    match m.payload.body
    case ReservationBody(v) => ReservationCovers(inp, v, t)
    case PacketBody(p) => PacketCovers(inp, m, p, t)
    case _ => false
  }

  // The scan finds the head and the unit's latest issuer up to it.
  lemma {:induction false} IssuerAtHeadExactly(core: seq<CoreModel.Record>, head: CoreModel.Anchor, unit: string)
    requires Leases.Placed(core)
    ensures IssuerAtHead(core, head, unit).1 < 0 <==> forall h :: 0 <= h < |core| ==> core[h].headAnchor != head
    ensures IssuerAtHead(core, head, unit).1 < 0 ==> IssuerAtHead(core, head, unit).0 == Leases.LatestIssuer(core, unit)
    ensures forall h :: 0 <= h < |core| && core[h].headAnchor == head ==>
              IssuerAtHead(core, head, unit).0 == Leases.LatestIssuer(core[..h + 1], unit)
  {
    if core != [] {
      var n := |core| - 1;
      IssuerAtHeadExactly(core[..n], head, unit);
      forall h | 0 <= h < |core| && core[h].headAnchor == head
        ensures IssuerAtHead(core, head, unit).0 == Leases.LatestIssuer(core[..h + 1], unit)
      {
        if h < n {
          assert core[..n][h].headAnchor == head && core[..n][..h + 1] == core[..h + 1];
        } else {
          assert core[..h + 1] == core;
        }
      }
    }
  }

  lemma ReservationWindowExactly(inp: Input, v: Reserved, t: int)
    requires Leases.Placed(inp.core)
    ensures Inside(ReservationWindow(inp, v), t) <==> ReservationCovers(inp, v, t)
  {
    var issuer := v.generation.issuerSequence;
    GenerationPlanExactly(inp, issuer);
    if v.validFrom.At? && v.validUntil.At? && GenerationPlan(inp, issuer).Some? {
      var plan := GenerationPlan(inp, issuer).value;
      var until := Revocation.EndOf(inp.core, plan, v.unit, issuer, v.validUntil.time);
      EndExactly(inp.core, plan, v.unit, issuer, v.validUntil.time, false, t);
      PolicyBoundExactly(inp, plan, issuer, v.validFrom.time, until, t);
    }
  }

  lemma IssuedWindowExactly(inp: Input, m: HostRecord, p: Packet, h: int, issuer: int, t: int)
    requires PacketGeneration(inp, m, p, h, issuer) && m.payload.timestamp.At? && p.validUntil.At?
    ensures Inside(IssuedWindow(inp, p.unit, inp.core[issuer], m.payload.timestamp.time, UntilOutcome(inp.core, p.validUntil.time)), t)
            <==> PacketCoversUnder(inp, m, p, issuer, t)
  {
    var until := UntilOutcome(inp.core, p.validUntil.time);
    var ir := inp.core[issuer];
    var a := ir.payload.approval.value;
    var plan := inp.plans[a.acceptedPlan];
    var wall := a.timestamp.time + UnitOf(plan.units, p.unit).value.budgets.maxWallMinutes * Leases.MINUTE;
    BeforeOutcome(inp.core, p.validUntil.time, t);
    EndExactly(inp.core, plan, p.unit, ir.sequence, Earlier(until, wall), true, t);
    PolicyBoundExactly(inp, plan, ir.sequence, m.payload.timestamp.time,
                       Revocation.ReviewEndOf(inp.core, plan, p.unit, ir.sequence, Earlier(until, wall)), t);
  }

  // The window of a packet issued at this head.
  lemma PacketWindowAt(inp: Input, m: HostRecord, p: Packet, h: nat) returns (issuer: int)
    requires Leases.Placed(inp.core) && h < |inp.core| && inp.core[h].headAnchor == m.payload.coreHead
    requires m.payload.timestamp.At? && p.validUntil.At?
    ensures issuer == Leases.LatestIssuer(inp.core[..h + 1], p.unit)
    ensures PacketWindow(inp, m, p)
            == if issuer < 0 then Shut(GenerationMissing)
               else IssuedWindow(inp, p.unit, inp.core[issuer], m.payload.timestamp.time, UntilOutcome(inp.core, p.validUntil.time))
  {
    issuer := IssuerAtHead(inp.core, m.payload.coreHead, p.unit).0;
    IssuerAtHeadExactly(inp.core, m.payload.coreHead, p.unit);
    IssuerAtHeadIssues(inp.core, m.payload.coreHead, p.unit);
  }

  lemma PacketInside(inp: Input, m: HostRecord, p: Packet, t: int)
    requires Leases.Placed(inp.core) && Inside(PacketWindow(inp, m, p), t)
    ensures PacketCovers(inp, m, p, t)
  {
    IssuerAtHeadExactly(inp.core, m.payload.coreHead, p.unit);
    var h :| 0 <= h < |inp.core| && inp.core[h].headAnchor == m.payload.coreHead;
    var issuer := PacketWindowAt(inp, m, p, h);
    assert PacketGeneration(inp, m, p, h, issuer);
    IssuedWindowExactly(inp, m, p, h, issuer, t);
  }

  lemma PacketWindowExactly(inp: Input, m: HostRecord, p: Packet, t: int)
    requires Leases.Placed(inp.core)
    ensures Inside(PacketWindow(inp, m, p), t) <==> PacketCovers(inp, m, p, t)
  {
    if Inside(PacketWindow(inp, m, p), t) {
      PacketInside(inp, m, p, t);
    } else if PacketCovers(inp, m, p, t) {
      var h, issuer :| PacketGeneration(inp, m, p, h, issuer) && PacketCoversUnder(inp, m, p, issuer, t);
      IssuedWindowExactly(inp, m, p, h, issuer, t);
      var i := PacketWindowAt(inp, m, p, h);
      assert false;
    }
  }

  // A time is inside a record's window if and only if it is before everything
  // that ends the record's authority and no earlier than its start.
  lemma ValidityExactly(inp: Input, m: HostRecord, t: int)
    requires Leases.Placed(inp.core)
    ensures Inside(Validity(inp, m), t) <==> Covers(inp, m, t)
  {
    match m.payload.body
    case ReservationBody(v) => ReservationWindowExactly(inp, v, t);
    case PacketBody(p) => PacketWindowExactly(inp, m, p, t);
    case _ =>
  }

  // The record at k is the only one that carries the id.
  predicate OnlyCarrier(history: seq<HostRecord>, id: string, k: int) {
    0 <= k < |history| && forall j :: 0 <= j < |history| ==> (Carries(history[j], id) <==> j == k)
  }

  lemma {:induction false} NoMatch(history: seq<HostRecord>, id: string)
    ensures Matches(history, id) == [] <==> forall j :: 0 <= j < |history| ==> !Carries(history[j], id)
  {
    if history != [] {
      var n := |history| - 1;
      NoMatch(history[..n], id);
      assert forall j :: 0 <= j < n ==> history[..n][j] == history[j];
    }
  }

  lemma {:induction false} OnlyMatch(history: seq<HostRecord>, id: string, k: nat)
    requires OnlyCarrier(history, id, k)
    ensures Matches(history, id) == [history[k]]
  {
    var n := |history| - 1;
    if k < n {
      OnlyMatch(history[..n], id, k);
    } else {
      NoMatch(history[..n], id);
    }
  }

  lemma {:induction false} OneMatch(history: seq<HostRecord>, id: string) returns (k: nat)
    requires |Matches(history, id)| == 1
    ensures OnlyCarrier(history, id, k) && Matches(history, id) == [history[k]]
  {
    var n := |history| - 1;
    NoMatch(history[..n], id);
    if Carries(history[n], id) {
      k := n;
      assert forall j :: 0 <= j < n ==> history[..n][j] == history[j];
    } else {
      k := OneMatch(history[..n], id);
      assert forall j :: 0 <= j < n ==> history[..n][j] == history[j];
    }
  }

  // A packet's launch is the run's whole launch: reviewer, packet digest, root,
  // head and worktree digest too. A reservation's is the worker, model and
  // effort of the reserved route, which an implementation preflight of the unit
  // names.
  predicate LaunchAgrees(history: seq<HostRecord>, m: HostRecord, l: Launch) {
    match m.payload.body
    case ReservationBody(v) =>
      && v.routeIdentity.RouteIdentity? && l.agent == v.routeIdentity.worker && l.model == v.routeIdentity.model
      && l.effort == v.routeIdentity.effort
      && exists j :: 0 <= j < |history| && ChecksRoute(history[j].payload.body, v.unit, v.routeIdentity)
    case PacketBody(p) => l == p.launch
    case _ => false
  }

  // An implementation preflight of the unit whose route is this one.
  predicate ChecksRoute(b: Body, unit: string, identity: RouteIdentity) {
    b.PreflightBody? && b.preflight.implementation && b.preflight.unit == unit && IdentityOf(b.preflight.route) == identity
  }

  lemma {:induction false} PreflightExactly(history: seq<HostRecord>, unit: string, identity: RouteIdentity)
    ensures PreflightOf(history, unit, identity).Some? <==> exists j :: 0 <= j < |history| && NamesRoute(history[j], unit, identity)
    ensures PreflightOf(history, unit, identity).Some? ==> IdentityOf(PreflightOf(history, unit, identity).value.route) == identity
  {
    if history != [] {
      PreflightExactly(history[1..], unit, identity);
      assert forall j :: 0 <= j < |history| - 1 ==> history[1..][j] == history[j + 1];
    }
  }

  lemma LaunchExactly(history: seq<HostRecord>, m: HostRecord, l: Launch)
    ensures LaunchMatches(history, m, l) <==> LaunchAgrees(history, m, l)
  {
    if m.payload.body.ReservationBody? {
      var v := m.payload.body.reservation;
      PreflightExactly(history, v.unit, v.routeIdentity);
      assert forall j :: 0 <= j < |history| ==>
          (NamesRoute(history[j], v.unit, v.routeIdentity) <==> ChecksRoute(history[j].payload.body, v.unit, v.routeIdentity));
    }
  }

  // The record's launches belong to this namespace: its own, for a packet, and
  // for a reservation that of the admission it names, if the controller is the
  // same.
  predicate InNamespace(history: seq<HostRecord>, m: HostRecord, namespace: string) {
    match m.payload.body
    case ReservationBody(v) => exists j :: 0 <= j < |history| && AdmitsReserved(history[j], v, namespace)
    case PacketBody(p) => p.namespace == namespace
    case _ => false
  }

  predicate AdmitsReserved(r: HostRecord, v: Reserved, namespace: string) {
    && r.payload.body.AdmissionBody? && r.headAnchor == v.admission
    && r.payload.body.admission.controller == v.controller && r.payload.body.admission.namespace == namespace
  }

  lemma {:induction false} AdmissionExactly(history: seq<HostRecord>, a: HostAnchor)
    requires HostPlaced(history)
    ensures forall j :: 0 <= j < |history| && history[j].payload.body.AdmissionBody? && history[j].headAnchor == a ==>
              AdmissionAt(history, a) == Some(history[j].payload.body.admission)
    ensures AdmissionAt(history, a).Some? ==>
              exists j :: 0 <= j < |history| && history[j].payload.body.AdmissionBody? && history[j].headAnchor == a
  {
    if history != [] {
      var n := |history| - 1;
      AdmissionExactly(history[..n], a);
      assert forall j :: 0 <= j < n ==> history[..n][j] == history[j];
    }
  }

  lemma NamespaceExactly(history: seq<HostRecord>, m: HostRecord, namespace: string)
    requires HostPlaced(history) && namespace != ""
    ensures NamespaceFor(history, m) == namespace <==> InNamespace(history, m, namespace)
  {
    if m.payload.body.ReservationBody? {
      var v := m.payload.body.reservation;
      AdmissionExactly(history, v.admission);
      if AdmissionAt(history, v.admission).Some? {
        var j :| 0 <= j < |history| && history[j].payload.body.AdmissionBody? && history[j].headAnchor == v.admission;
        assert AdmitsReserved(history[j], v, history[j].payload.body.admission.namespace)
               <==> history[j].payload.body.admission.controller == v.controller;
      }
    }
  }

  // The record at k authorizes the run, and no other could.
  ghost predicate AuthorizedUnder(inp: Input, run: LedgerRun, k: int) {
    && !run.unreadable && run.startedAt.At? && run.runId == run.dir
    && (if inp.core != [] && inp.core[0].payload.timestamp.At? then inp.core[0].payload.timestamp.time else ZERO_TIME) <= run.startedAt.time
    && OnlyCarrier(inp.history, run.dir, k)
    && run.namespace != "" && InNamespace(inp.history, inp.history[k], run.namespace)
    && (run.mode == "review" <==> inp.history[k].payload.body.PacketBody?)
    && LaunchAgrees(inp.history, inp.history[k], run.launch)
    && Covers(inp, inp.history[k], run.startedAt.time)
  }

  lemma MatchedExactly(inp: Input, run: LedgerRun, m: HostRecord)
    requires Leases.Placed(inp.core) && HostPlaced(inp.history) && run.startedAt.At?
    ensures MatchedClass(inp, run, m).Authorized? <==>
              && run.namespace != "" && InNamespace(inp.history, m, run.namespace)
              && (run.mode == "review" <==> m.payload.body.PacketBody?)
              && LaunchAgrees(inp.history, m, run.launch) && Covers(inp, m, run.startedAt.time)
    ensures MatchedClass(inp, run, m).Authorized? ==> MatchedClass(inp, run, m).record == m.headAnchor
  {
    LaunchExactly(inp.history, m, run.launch);
    if run.namespace != "" {
      NamespaceExactly(inp.history, m, run.namespace);
    }
    ValidityExactly(inp, m, run.startedAt.time);
  }

  // Whatever order the questions are asked in, a run is authorized by a record
  // if and only if all of this holds at once: it is readable, no older than the
  // HMA run and named after its directory; the record is the only one with its
  // id; namespace, mode and launch agree; and the record covers its start.
  lemma AuthorizedExactly(inp: Input, run: LedgerRun, record: HostAnchor)
    requires Leases.Placed(inp.core) && HostPlaced(inp.history)
    ensures ClassOf(inp, run) == Authorized(record) <==>
              exists k :: AuthorizedUnder(inp, run, k) && inp.history[k].headAnchor == record
  {
    if ClassOf(inp, run) == Authorized(record) {
      var k := OneMatch(inp.history, run.runId);
      MatchedExactly(inp, run, inp.history[k]);
      assert AuthorizedUnder(inp, run, k);
    }
    forall k | AuthorizedUnder(inp, run, k) && inp.history[k].headAnchor == record ensures ClassOf(inp, run) == Authorized(record) {
      OnlyMatch(inp.history, run.dir, k);
      MatchedExactly(inp, run, inp.history[k]);
    }
  }

  // ---- journals ----

  lemma {:induction false} AllReserved(history: seq<HostRecord>, j: Journal, attempts: seq<string>)
    ensures UnreservedAttempts(history, j, attempts) == [] <==>
              forall k :: 0 <= k < |attempts| ==> attempts[k] == "" || ReservedFor(history, j, attempts[k])
  {
    if attempts != [] {
      var n := |attempts| - 1;
      AllReserved(history, j, attempts[..n]);
      assert forall k :: 0 <= k < n ==> attempts[k] == attempts[..n][k];
    }
  }

  // The record at k is the only admission of the journal's controller.
  predicate OnlyAdmission(history: seq<HostRecord>, j: Journal, k: int) {
    && 0 <= k < |history|
    && forall i :: 0 <= i < |history| ==>
         (history[i].payload.body.AdmissionBody? && history[i].payload.body.admission.controller == j.controller <==> i == k)
  }

  lemma {:induction false} NoAdmission(history: seq<HostRecord>, j: Journal)
    ensures AdmissionsOf(history, j) == [] <==> forall i :: 0 <= i < |history| ==> !AdmitsJournal(history[i], j)
  {
    if history != [] {
      var n := |history| - 1;
      NoAdmission(history[..n], j);
      assert forall i :: 0 <= i < n ==> history[..n][i] == history[i];
    }
  }

  lemma {:induction false} OneAdmission(history: seq<HostRecord>, j: Journal)
    ensures |AdmissionsOf(history, j)| == 1 <==> exists k :: OnlyAdmission(history, j, k)
    ensures forall k :: OnlyAdmission(history, j, k) ==> AdmissionsOf(history, j) == [history[k].payload.body.admission]
  {
    if history != [] {
      var n := |history| - 1;
      NoAdmission(history[..n], j);
      OneAdmission(history[..n], j);
      assert forall i :: 0 <= i < n ==> history[..n][i] == history[i];
      if AdmitsJournal(history[n], j) {
        if |AdmissionsOf(history, j)| == 1 {
          assert OnlyAdmission(history, j, n);
        }
      } else {
        forall k ensures OnlyAdmission(history, j, k) <==> OnlyAdmission(history[..n], j, k) {
          OnlyAdmissionShrinks(history, j, k);
        }
      }
    }
  }

  lemma OnlyAdmissionShrinks(history: seq<HostRecord>, j: Journal, k: int)
    requires history != [] && !AdmitsJournal(history[|history| - 1], j)
    ensures OnlyAdmission(history, j, k) <==> OnlyAdmission(history[..|history| - 1], j, k)
  {
    var n := |history| - 1;
    assert forall i :: 0 <= i < n ==> history[..n][i] == history[i];
  }

  // A journal passes if and only if it has exactly one admission, which says of
  // envelope, namespace, unit, clone and root what the journal says, and every
  // attempt it names was reserved for its unit and controller.
  lemma JournalPasses(history: seq<HostRecord>, j: Journal)
    ensures JournalComplaints(history, j) == [] <==>
              && (exists k :: OnlyAdmission(history, j, k) && Agrees(history[k], j))
              && forall k :: 0 <= k < |j.attempts| && j.attempts[k] != "" ==>
                   Reserved(history, j, j.attempts[k])
  {
    AllReserved(history, j, j.attempts);
    OneAdmission(history, j);
    forall id ensures ReservedFor(history, j, id) <==> Reserved(history, j, id) {
      ReservedExactly(history, j, id);
    }
  }

  lemma ReservedExactly(history: seq<HostRecord>, j: Journal, id: string)
    ensures ReservedFor(history, j, id) <==> Reserved(history, j, id)
  {
    if i :| 0 <= i < |history| && Reserves(history[i], id, j) {
      assert history[i].payload.body.reservation.dispatchId == id;
    }
    if Reserved(history, j, id) {
      var i :| 0 <= i < |history| && history[i].payload.body.ReservationBody? && history[i].payload.body.reservation.dispatchId == id
               && history[i].payload.body.reservation.controller == j.controller && history[i].payload.body.reservation.unit == j.unit;
      assert Reserves(history[i], id, j);
    }
  }

  // Some reservation of the journal's unit and controller has this dispatch id.
  predicate Reserved(history: seq<HostRecord>, j: Journal, id: string) {
    exists i :: 0 <= i < |history| && history[i].payload.body.ReservationBody? && history[i].payload.body.reservation.dispatchId == id
      && history[i].payload.body.reservation.controller == j.controller && history[i].payload.body.reservation.unit == j.unit
  }

  lemma {:induction false} UnreservedExactly(history: seq<HostRecord>, j: Journal, attempts: seq<string>, c: Unauthorized)
    ensures c in UnreservedAttempts(history, j, attempts) <==>
              c.reason.JournalAttemptUnreserved? && c.runId in attempts && c.runId != "" && !Reserved(history, j, c.runId)
  {
    if attempts != [] {
      var n := |attempts| - 1;
      UnreservedExactly(history, j, attempts[..n], c);
      ReservedExactly(history, j, attempts[n]);
      assert attempts == attempts[..n] + [attempts[n]];
    }
  }

  // What is said of a journal: that it has no admission of its own or more than
  // one, that its one admission says otherwise, and each attempt that was never
  // reserved.
  lemma JournalComplaintsExactly(history: seq<HostRecord>, j: Journal, c: Unauthorized)
    ensures c in JournalComplaints(history, j) <==>
              || (c == Unauthorized(j.controller, JournalAdmissionMissing) && forall k :: !OnlyAdmission(history, j, k))
              || (c == Unauthorized(j.controller, JournalAdmissionMismatch)
                  && exists k :: OnlyAdmission(history, j, k) && !Agrees(history[k], j))
              || (c.reason.JournalAttemptUnreserved? && c.runId in j.attempts && c.runId != "" && !Reserved(history, j, c.runId))
  {
    OneAdmission(history, j);
    UnreservedExactly(history, j, j.attempts, c);
  }

  predicate Agrees(r: HostRecord, j: Journal) {
    r.payload.body.AdmissionBody? &&
    var a := r.payload.body.admission;
    a == Admitted(j.unit, a.controller, j.envelope, j.liveRoot, j.cloneBaseline, j.namespace, a.generation)
  }

  // A complaint is reported if and only if some journal on record gives it.
  lemma {:induction false} ComplaintsExactly(history: seq<HostRecord>, journals: seq<HostRecord>, c: Unauthorized)
    ensures c in AllComplaints(history, journals) <==>
              exists i :: 0 <= i < |journals| && journals[i].payload.body.JournalBody?
                          && c in JournalComplaints(history, journals[i].payload.body.journal)
  {
    if journals != [] {
      var n := |journals| - 1;
      ComplaintsExactly(history, journals[..n], c);
      assert forall i :: 0 <= i < n ==> journals[..n][i] == journals[i];
    }
  }

  // A dispatch id is reported as not launched if and only if a reservation with
  // it authorized no run.
  lemma {:induction false} UnlaunchedExactly(history: seq<HostRecord>, used: set<HostAnchor>, id: string)
    ensures id in UnlaunchedIds(history, used) <==>
              exists i :: 0 <= i < |history| && history[i].payload.body.ReservationBody? && history[i].headAnchor !in used
                          && history[i].payload.body.reservation.dispatchId == id
  {
    if history != [] {
      var n := |history| - 1;
      UnlaunchedExactly(history[..n], used, id);
      assert forall i :: 0 <= i < n ==> history[..n][i] == history[i];
    }
  }

  // A run is older than the HMA run if and only if it can be read and started
  // before the first record.
  lemma PredatesExactly(inp: Input, run: LedgerRun)
    ensures ClassOf(inp, run) == Predates <==>
              && !run.unreadable && run.startedAt.At?
              && run.startedAt.time < if inp.core != [] && inp.core[0].payload.timestamp.At? then inp.core[0].payload.timestamp.time else 0
  {
  }
}
