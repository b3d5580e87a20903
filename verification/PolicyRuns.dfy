// What every run keeps of the recorded policy changes: the time from which a
// policy is revoked for a generation never moves later.
module PolicyRuns {
  import opened HostModel
  import opened Attempts
  import opened HookRuns
  import CoreModel
  import Chain
  import Leases

  // The record observes some policy's replacement.
  predicate Observes(r: HostRecord) {
    r.payload.body.PolicyRevocationBody? || r.payload.body.ReconciliationBody?
  }

  // Every observation was made at a core head this core has.
  ghost predicate Sighted(core: seq<CoreModel.Record>, history: seq<HostRecord>) {
    forall r :: r in history && Observes(r) ==> SequenceOf(core, r.payload.coreHead).Some?
  }

  lemma SightedKnows(core: seq<CoreModel.Record>, history: seq<HostRecord>, policy: string)
    requires Sighted(core, history)
    ensures KnownObservations(core, history, policy)
  {
  }

  // What one step adds to the logs: at most one host record, and an observation
  // only at the head of the core chain.
  ghost predicate Grows(w: World, t: World) {
    && w.core <= t.core && w.history <= t.history
    && forall k :: |w.history| <= k < |t.history| && Observes(t.history[k]) ==>
         w.core != [] && t.core == w.core && t.history[k].payload.coreHead == Chain.Tail(w.core)
  }

  // The content a change of policy is filed with.
  lemma ChangeAtHead(core: seq<CoreModel.Record>, history: seq<HostRecord>, docs: Docs, now: int)
    ensures PolicyChange(core, history, docs, now).Some? ==>
              PolicyChange(core, history, docs, now).value.coreHead == Chain.Tail(core)
  {
  }

  lemma YieldsGrow(runId: string, core: seq<CoreModel.Record>, history: seq<HostRecord>, req: HookRequest,
            docs: Docs, s: Sight, after: Sight, d: Decision, out: Attempts.Outcome, log: seq<HostRecord>)
    requires Yields(runId, core, history, req, docs, s, after, d, out, log)
    ensures history <= log && |log| <= |history| + 1
    ensures log != history && Observes(log[|history|]) ==> !d.Refuse? && log[|history|].payload.coreHead == Chain.Tail(core)
  {
    ChangeAtHead(core, history, docs, s.now);
  }

  lemma HookGrows(runId: string, w: World, t: World, req: HookRequest, env: Envelope, docs: Docs, s: Sight,
            after: Sight, out: Attempts.Outcome)
    requires HookStep(runId, w, t, req, env, docs, s, after, out)
    ensures Grows(w, t)
  {
    var d := Decide(w.core, w.history, req, env, docs, s);
    YieldsGrow(runId, w.core, w.history, req, docs, s, after, d, out, t.history);
    assert w.core == [] ==> d.Refuse?;
  }

  lemma StepGrows(runId: string, w: World, t: World)
    requires Step(runId, w, t)
    ensures Grows(w, t)
  {
    if !OtherStep(runId, w, t) {
      var req, env, docs, s, after, out :| HookStep(runId, w, t, req, env, docs, s, after, out);
      HookGrows(runId, w, t, req, env, docs, s, after, out);
    }
  }

  lemma SightedKept(w: World, t: World)
    requires Sighted(w.core, w.history) && Grows(w, t) && Leases.Placed(t.core)
    ensures Sighted(t.core, t.history)
  {
    forall k | 0 <= k < |t.history| && Observes(t.history[k])
      ensures SequenceOf(t.core, t.history[k].payload.coreHead).Some?
    {
      if k < |w.history| {
        assert t.history[k] == w.history[k] && w.history[k] in w.history;
        SequenceKept(w.core, t.core, t.history[k].payload.coreHead);
      }
    }
  }

  lemma {:induction false} RunSighted(runId: string, trace: seq<World>, i: nat)
    requires Run(runId, trace) && i < |trace|
    ensures Sighted(trace[i].core, trace[i].history) && Leases.Placed(trace[i].core)
  {
    RunKeeps(runId, trace, i);
    Leases.ChainIsPlaced(runId, AnyCore, trace[i].core);
    if i > 0 {
      RunSighted(runId, trace, i - 1);
      StepGrows(runId, trace[i - 1], trace[i]);
      SightedKept(trace[i - 1], trace[i]);
    }
  }

  lemma {:induction false} LogsGrow(runId: string, trace: seq<World>, i: nat, j: nat)
    requires Run(runId, trace) && i <= j < |trace|
    ensures trace[i].core <= trace[j].core && trace[i].history <= trace[j].history
    decreases j
  {
    if i < j {
      LogsGrow(runId, trace, i, j - 1);
      StepGrows(runId, trace[j - 1], trace[j]);
    }
  }

  // At every point of every run: once a policy is revoked for a generation it
  // stays revoked, and the time it is revoked from never moves later.
  lemma RevokedPolicyOnlyFalls(runId: string, trace: seq<World>, i: nat, j: nat, policy: string, issuer: int)
    requires Run(runId, trace) && i <= j < |trace|
    requires PolicyEnd(trace[i].core, trace[i].history, policy, issuer).Some?
    ensures PolicyEnd(trace[j].core, trace[j].history, policy, issuer).Some?
    ensures PolicyEnd(trace[j].core, trace[j].history, policy, issuer).value
            <= PolicyEnd(trace[i].core, trace[i].history, policy, issuer).value
  {
    RunSighted(runId, trace, i);
    RunSighted(runId, trace, j);
    LogsGrow(runId, trace, i, j);
    SightedKnows(trace[i].core, trace[i].history, policy);
    PolicyEndOnlyFalls(trace[i].core, trace[j].core, trace[i].history, trace[j].history, policy, issuer);
  }
}
