// The host store (internal/host/store.go): one numbered file per record and a
// head anchor, committed in two phases like the core store. It is a second
// representation of the same append-only log.
//
// File operations fail as in CoreStore: with or without their effect.
module HostStore {
  import opened Chain
  import CoreStore

  // A numbered record file, or one that does not decode.
  datatype Document<P> = Document(record: Record<P>) | Undecodable

  // Record files by number ("%020d.json"), the head anchor and the intent.
  datatype Files<P> = Files(records: map<int, Document<P>>, head: Option<Anchor<P>>, pending: Option<Anchor<P>>)

  datatype LoadResult<P> = Loaded(log: seq<Record<P>>) | Refused | Interrupted

  datatype CommitResult = Committed | Rejected | ConcurrentWrite | Failed

  function Numbered<P>(log: seq<Record<P>>, i: int): Document<P>
    requires 1 <= i <= |log|
  {
    Document(log[i - 1])
  }

  function RecordsOf<P>(log: seq<Record<P>>): map<int, Document<P>> {
    map i | 1 <= i <= |log| :: Numbered(log, i)
  }

  // The head of an empty run is missing, or a blank file.
  predicate HeadMatches<P(==)>(head: Option<Anchor<P>>, log: seq<Record<P>>) {
    head == Some(Tail(log)) || (log == [] && head.None?)
  }

  ghost predicate LoadsAs<P>(runId: string, valid: Record<P> -> bool, f: Files<P>, log: seq<Record<P>>) {
    && f.records == RecordsOf(log)
    && IsChain(runId, valid, log)
    && (HeadMatches(f.head, log) || (log != [] && f.pending == Some(Tail(log))))
  }

  predicate Settled<P(==)>(f: Files<P>, log: seq<Record<P>>) {
    f.records == RecordsOf(log) && HeadMatches(f.head, log) && f.pending.None?
  }

  // The same run in the core store's representation.
  function AsCore<P(==)>(f: Files<P>, log: seq<Record<P>>): CoreStore.Files<P> {
    CoreStore.Files(CoreStore.StreamOf(log), if f.head == Some(Genesis) then None else f.head, f.pending)
  }

  // Both stores refine one log: the host files stand for a log exactly when
  // the core representation of the same head, intent and records does.
  lemma RefinesSameLog<P>(runId: string, valid: Record<P> -> bool, f: Files<P>, log: seq<Record<P>>)
    requires f.records == RecordsOf(log)
    ensures LoadsAs(runId, valid, f, log) <==> CoreStore.StandsFor(runId, valid, AsCore(f, log), log)
  {
    if IsChain(runId, valid, log) {
      TailIsDigest(runId, valid, log);
    }
  }

  lemma RecordsOfInjective<P>(a: seq<Record<P>>, b: seq<Record<P>>)
    requires RecordsOf(a) == RecordsOf(b)
    ensures a == b
  {
    assert b != [] ==> |b| in RecordsOf(b);
    assert a != [] ==> |a| in RecordsOf(a);
    forall i | 0 <= i < |a| ensures a[i] == b[i] {
      assert RecordsOf(a)[i + 1] == RecordsOf(b)[i + 1];
    }
  }

  lemma LoadsAsOne<P>(runId: string, valid: Record<P> -> bool, f: Files<P>, a: seq<Record<P>>, b: seq<Record<P>>)
    requires LoadsAs(runId, valid, f, a) && LoadsAs(runId, valid, f, b)
    ensures a == b
  {
    RecordsOfInjective(a, b);
  }

  // With no intent left, removing record files or swapping in another valid
  // chain is refused.
  lemma OnlyTheAnchoredChain<P(!new)>(runId: string, valid: Record<P> -> bool, log: seq<Record<P>>,
            other: seq<Record<P>>, f: Files<P>)
    requires IsChain(runId, valid, log) && IsChain(runId, valid, other)
    requires f == Files(RecordsOf(other), Some(Tail(log)), None)
    ensures (exists l :: LoadsAs(runId, valid, f, l)) <==> other == log
  {
    if other == log {
      assert LoadsAs(runId, valid, f, log);
    } else if l :| LoadsAs(runId, valid, f, l) {
      RecordsOfInjective(l, other);
      AnchorNamesChain(runId, valid, log, other);
    }
  }

  function Promoted<P(==)>(f: Files<P>, tail: Anchor<P>): Files<P> {
    if f.pending == Some(tail) && tail != Genesis then f.(head := Some(tail)) else f
  }

  predicate CutShort<P(==)>(f: Files<P>, old': Files<P>, log: seq<Record<P>>, r: Record<P>) {
    || f == old'
    || f == old'.(pending := Some(r.headAnchor))
    || f == Files(RecordsOf(log + [r]), old'.head, Some(r.headAnchor))
    || f == Files(RecordsOf(log + [r]), Some(r.headAnchor), Some(r.headAnchor))
    || f == Files(RecordsOf(log + [r]), Some(r.headAnchor), None)
  }

  lemma CutShortLoads<P>(runId: string, valid: Record<P> -> bool, f: Files<P>, old': Files<P>, log: seq<Record<P>>,
            r: Record<P>)
    requires IsChain(runId, valid, log) && IsChain(runId, valid, log + [r])
    requires Settled(old', log) && CutShort(f, old', log, r)
    ensures LoadsAs(runId, valid, f, log) || LoadsAs(runId, valid, f, log + [r])
  {
  }

  class Store<P(==,!new)> {
    const runId: string
    const valid: Record<P> -> bool
    var files: Files<P>

    constructor (runId: string, valid: Record<P> -> bool, files: Files<P>)
      ensures this.runId == runId && this.valid == valid && this.files == files
    {
      this.runId, this.valid, this.files := runId, valid, files;
    }

    // Creates the record file; it never overwrites one.
    method CreateRecord(r: Record<P>) returns (ok: bool, existed: bool)
      modifies this
      ensures existed <==> r.sequence in old(files).records
      ensures existed ==> !ok && files == old(files)
      ensures !existed ==> files == old(files).(records := old(files).records[r.sequence := Document(r)]) || (!ok && files == old(files))
    {
      if r.sequence in files.records {
        return false, true;
      }
      var effect: bool := *;
      ok, existed := *, false;
      if ok || effect {
        files := files.(records := files.records[r.sequence := Document(r)]);
      }
    }

    method WriteHead(a: Anchor<P>) returns (ok: bool)
      modifies this
      ensures files == old(files).(head := Some(a)) || (!ok && files == old(files))
    {
      var effect: bool := *;
      ok := *;
      if ok || effect {
        files := files.(head := Some(a));
      }
    }

    method WritePending(a: Anchor<P>) returns (ok: bool)
      modifies this
      ensures files == old(files).(pending := Some(a)) || (!ok && files == old(files))
    {
      var effect: bool := *;
      ok := *;
      if ok || effect {
        files := files.(pending := Some(a));
      }
    }

    method RemovePending() returns (ok: bool)
      modifies this
      ensures files == old(files).(pending := None) || (!ok && files == old(files))
    {
      var effect: bool := *;
      ok := *;
      if ok || effect {
        files := files.(pending := None);
      }
    }

    // readChain walks the record files in numeric order, the order their
    // zero-padded names sort in.
    method ReadChain() returns (out: Option<seq<Record<P>>>)
      ensures out.Some? ==> files.records == RecordsOf(out.value) && IsChain(runId, valid, out.value)
      ensures out.None? ==> forall log :: files.records == RecordsOf(log) ==> !IsChain(runId, valid, log)
    {
      var log: seq<Record<P>> := [];
      var left := files.records.Keys;
      while left != {}
        invariant IsChain(runId, valid, log)
        invariant left == set k | k in files.records.Keys && !(1 <= k <= |log|)
        invariant forall k :: 1 <= k <= |log| ==> k in files.records && files.records[k] == Document(log[k - 1])
        decreases left
      {
        var next := |log| + 1;
        forall l | files.records == RecordsOf(l) ensures next in files.records && files.records[next].Document? {
          MissingNumber(files.records, l, log, next);
        }
        if next !in left || files.records[next].Undecodable? {
          return None;
        }
        var r := files.records[next].record;
        ChainSnoc(runId, valid, log, r);
        if r.runId != runId || r.sequence != next || r.predecessor != Tail(log)
           || r.headAnchor != r.ComputeDigest() || !valid(r) {
          forall l | files.records == RecordsOf(l) ensures !IsChain(runId, valid, l) {
            SameStart(files.records, l, log);
            assert next in RecordsOf(l);
            assert l[|log|] == r && l[..|log|] == log;
          }
          return None;
        }
        log := log + [r];
        left := left - {next};
      }
      assert files.records == RecordsOf(log) by {
        assert forall k :: k in files.records ==> k !in left;
      }
      forall l | files.records == RecordsOf(l) ensures l == log {
        RecordsOfInjective(l, log);
      }
      return Some(log);
    }

    static lemma SameStart(records: map<int, Document<P>>, l: seq<Record<P>>, log: seq<Record<P>>)
      requires records == RecordsOf(l)
      requires forall k :: 1 <= k <= |log| ==> k in records && records[k] == Document(log[k - 1])
      ensures |log| <= |l| && l[..|log|] == log
    {
      if log != [] {
        assert |log| in records;
      }
      forall i | 0 <= i < |log| ensures l[i] == log[i] {
        assert i + 1 in records;
      }
    }

    static lemma MissingNumber(records: map<int, Document<P>>, l: seq<Record<P>>, log: seq<Record<P>>, next: int)
      requires records == RecordsOf(l) && next == |log| + 1
      requires forall k :: 1 <= k <= |log| ==> k in records && records[k] == Document(log[k - 1])
      requires exists k :: k in records && !(1 <= k <= |log|)
      ensures next in records && records[next].Document?
    {
      SameStart(records, l, log);
    }

    method RecoverPending(tail: Anchor<P>) returns (ok: bool)
      modifies this
      ensures ok ==> files == Promoted(old(files), tail).(pending := None)
      ensures files in {old(files), Promoted(old(files), tail), Promoted(old(files), tail).(pending := None)}
    {
      if files.pending.None? {
        return true;
      }
      if files.pending.value == tail && tail != Genesis {
        ok := WriteHead(tail);
        if !ok {
          return;
        }
      }
      ok := RemovePending();
    }

    // loadLocked: as for the core store.
    method LoadLocked() returns (res: LoadResult<P>)
      modifies this
      ensures res.Loaded? ==> LoadsAs(runId, valid, old(files), res.log) && Settled(files, res.log)
      ensures res.Refused? ==> forall log :: !LoadsAs(runId, valid, old(files), log)
      ensures forall log :: LoadsAs(runId, valid, old(files), log) ==> LoadsAs(runId, valid, files, log)
    {
      var out := ReadChain();
      if out.None? {
        return Refused;
      }
      var log := out.value;
      forall l | RecordsOf(l) == RecordsOf(log) ensures l == log {
        RecordsOfInjective(l, log);
      }
      TailIsDigest(runId, valid, log);
      var ok := RecoverPending(Tail(log));
      if !ok {
        return Interrupted;
      }
      if files.head.None? && log == [] {
        return Loaded(log);
      }
      if files.head != Some(Tail(log)) {
        return Refused;
      }
      return Loaded(log);
    }

    // commitLocked: it numbers the record itself, so only the record's own
    // content can be refused. An existing record file is never overwritten.
    method CommitLocked(existing: seq<Record<P>>, r0: Record<P>) returns (res: CommitResult, r: Record<P>)
      requires IsChain(runId, valid, existing)
      modifies this
      ensures r.payload == r0.payload && r.runId == r0.runId && r.sequence == |existing| + 1
      ensures r.predecessor == Tail(existing)
      ensures r.headAnchor == r.ComputeDigest()
      ensures res.Rejected? <==> !(r0.runId == runId && valid(r))
      ensures res.Rejected? ==> files == old(files)
      ensures !res.Rejected? ==> IsChain(runId, valid, existing + [r])
      ensures Settled(old(files), existing) ==> !res.ConcurrentWrite?
      ensures res.Committed? && Settled(old(files), existing) ==> Settled(files, existing + [r])
      ensures res.Failed? && Settled(old(files), existing) ==> CutShort(files, old(files), existing, r)
    {
      r := r0.(sequence := |existing| + 1, predecessor := Tail(existing));
      r := r.(headAnchor := r.ComputeDigest());
      if r.runId != runId || !valid(r) {
        return Rejected, r;
      }
      ChainSnoc(runId, valid, existing, r);
      if files.records == RecordsOf(existing) {
        assert RecordsOf(existing)[r.sequence := Document(r)] == RecordsOf(existing + [r]);
      }
      res := Failed;
      var ok := WritePending(r.headAnchor);
      if !ok { return; }
      var existed;
      ok, existed := CreateRecord(r);
      if existed {
        return ConcurrentWrite, r;
      }
      if !ok { return; }
      ok := WriteHead(r.headAnchor);
      if !ok { return; }
      ok := RemovePending();
      if !ok { return; }
      res := Committed;
    }
  }

  // A record as a commit files it: its place and anchor are the store's.
  function Sealed<P>(runId: string, existing: seq<Record<P>>, payload: P): Record<P> {
    Record(runId, |existing| + 1, Tail(existing), Digest(runId, |existing| + 1, Tail(existing), payload), payload)
  }

  // One transaction: the committed history it saw, and the one commit it may make.
  class Transaction<P(==,!new)> {
    const store: Store<P>
    const existing: seq<Record<P>>
    var committed: bool

    constructor (store: Store<P>, existing: seq<Record<P>>)
      ensures this.store == store && this.existing == existing && !committed
    {
      this.store, this.existing, committed := store, existing, false;
    }

    // The commit callback. A second call is refused and touches nothing, which
    // is what the core store's session does not do.
    method Commit(r0: Record<P>) returns (res: CommitResult, r: Record<P>)
      requires IsChain(store.runId, store.valid, existing)
      requires !committed ==> Settled(store.files, existing)
      modifies this, store
      ensures committed
      ensures old(committed) ==> res.ConcurrentWrite? && store.files == old(store.files)
      ensures !old(committed) ==> !res.ConcurrentWrite?
      ensures !old(committed) ==> r == Sealed(r0.runId, existing, r0.payload)
      ensures !old(committed) && res.Committed? ==> IsChain(store.runId, store.valid, existing + [r]) && Settled(store.files, existing + [r])
      ensures !old(committed) && res.Rejected? ==> Settled(store.files, existing)
      ensures !old(committed) && res.Failed? ==>
                LoadsAs(store.runId, store.valid, store.files, existing) || LoadsAs(store.runId, store.valid, store.files, existing + [r])
    {
      if committed {
        return ConcurrentWrite, r0;
      }
      committed := true;
      res, r := store.CommitLocked(existing, r0);
      if res.Failed? {
        CutShortLoads(store.runId, store.valid, store.files, old(store.files), existing, r);
      }
    }
  }

  // ---- whole runs ----

  // One lock holder: a load, or a transaction that commits one payload.
  datatype Operation<P> = Load | File(payload: P)

  ghost predicate AllFiled<P>(ops: seq<Operation<P>>, log0: seq<Record<P>>, log: seq<Record<P>>) {
    forall i :: |log0| <= i < |log| ==> exists op :: op in ops && op.File? && log[i].payload == op.payload
  }

  ghost predicate Account<P>(ops: seq<Operation<P>>, loads: seq<seq<Record<P>>>, acked: seq<Record<P>>,
            log0: seq<Record<P>>, log: seq<Record<P>>) {
    CoreStore.LoadsGrow(loads, log0, log) && CoreStore.AllKept(acked, log0, log) && AllFiled(ops, log0, log)
  }

  lemma FiledSnoc<P>(ops: seq<Operation<P>>, op: Operation<P>, log0: seq<Record<P>>, log: seq<Record<P>>, r: Record<P>)
    requires AllFiled(ops, log0, log) && op in ops && op.File? && r.payload == op.payload
    ensures AllFiled(ops, log0, log + [r])
  {
  }

  lemma AccountNext<P>(ops: seq<Operation<P>>, op: Operation<P>, loads: seq<seq<Record<P>>>, acked: seq<Record<P>>,
                       log0: seq<Record<P>>, log: seq<Record<P>>, load: Option<seq<Record<P>>>, ack: Option<Record<P>>, after: seq<Record<P>>)
    requires Account(ops, loads, acked, log0, log) && op in ops
    requires load.Some? ==> load.value == log && after == log
    requires ack.Some? ==> after == log + [ack.value] && ack.value.sequence == |log| + 1
    requires after == log || (op.File? && |after| == |log| + 1 && after[..|log|] == log && after[|log|].payload == op.payload)
    ensures Account(ops, if load.Some? then loads + [load.value] else loads, if ack.Some? then acked + [ack.value] else acked, log0, after)
  {
    if after != log {
      var r := after[|log|];
      assert after == log + [r];
      FiledSnoc(ops, op, log0, log, r);
      CoreStore.LogLengthens(loads, acked, log0, log, if ack.Some? then [r] else [], after);
    }
  }

  // What a lock holder read or acknowledged, and the log it leaves.
  method Perform<P(==,!new)>(store: Store<P>, op: Operation<P>, ghost log: seq<Record<P>>)
    returns (load: Option<seq<Record<P>>>, ack: Option<Record<P>>, ghost after: seq<Record<P>>)
    requires LoadsAs(store.runId, store.valid, store.files, log)
    modifies store
    ensures LoadsAs(store.runId, store.valid, store.files, after)
    ensures load.Some? ==> load.value == log && after == log
    ensures ack.Some? ==> after == log + [ack.value] && ack.value.sequence == |log| + 1
    ensures after == log || (op.File? && after == log + [Sealed(store.runId, log, op.payload)])
    ensures ack.Some? ==> op.File? && ack.value == Sealed(store.runId, log, op.payload)
  {
    ghost var before := store.files;
    load, ack, after := None, None, log;
    var loaded := store.LoadLocked();
    if !loaded.Loaded? {
      return;
    }
    var existing := loaded.log;
    LoadsAsOne(store.runId, store.valid, before, log, existing);
    if op.Load? {
      load := Some(existing);
      return;
    }
    var tx := new Transaction(store, existing);
    var res, r := tx.Commit(Record(store.runId, 0, Genesis, Genesis, op.payload));
    if res.Committed? {
      ack, after := Some(r), log + [r];
    } else if !LoadsAs(store.runId, store.valid, store.files, log) {
      after := log + [r];
    }
  }

  // Over any run of transactions, each cut at any step: the files never stop
  // standing for a log, that log only grows, every load returns a stage of it,
  // every acknowledged record is in it at its own sequence, and nothing is in
  // it that nobody filed.
  method Run<P(==,!new)>(store: Store<P>, ops: seq<Operation<P>>, ghost log0: seq<Record<P>>)
    returns (loads: seq<seq<Record<P>>>, acked: seq<Record<P>>, ghost log: seq<Record<P>>)
    requires LoadsAs(store.runId, store.valid, store.files, log0)
    modifies store
    ensures LoadsAs(store.runId, store.valid, store.files, log)
    ensures Account(ops, loads, acked, log0, log)
  {
    log := log0;
    loads, acked := [], [];
    for n := 0 to |ops|
      invariant LoadsAs(store.runId, store.valid, store.files, log)
      invariant Account(ops, loads, acked, log0, log)
    {
      var load, ack;
      ghost var after;
      load, ack, after := Perform(store, ops[n], log);
      AccountNext(ops, ops[n], loads, acked, log0, log, load, ack, after);
      if load.Some? {
        loads := loads + [load.value];
      }
      if ack.Some? {
        acked := acked + [ack.value];
      }
      log := after;
    }
  }
}
