// The core store (internal/store/jsonl.go): one stream of records and a head
// anchor, committed in two phases with a recorded intent.
//
// A file operation either happens, or fails having had no effect, or fails
// having had its effect; the method that issued it then returns at once. A
// crash at any point is one of the last two, so the contracts below hold for a
// crash after any step, including steps of recovery.
module CoreStore {
  import opened Chain

  // What the stream file decodes to; Unreadable covers an empty file, a torn
  // final line and a line that does not decode.
  datatype Stream<P> = Lines(records: seq<Record<P>>) | Unreadable

  datatype Files<P> = Files(stream: Option<Stream<P>>, head: Option<Anchor<P>>, pending: Option<Anchor<P>>)

  datatype LoadResult<P> = Loaded(log: seq<Record<P>>) | Refused | Interrupted

  // Failed: the chain did not load, or a file operation failed.
  datatype AppendResult = Appended | Rejected | Failed

  // The record as appendLocked files it: its own anchor is computed there.
  function Anchored<P>(r: Record<P>): Record<P> {
    r.(headAnchor := r.ComputeDigest())
  }

  function StreamOf<P>(log: seq<Record<P>>): Option<Stream<P>> {
    if log == [] then None else Some(Lines(log))
  }

  function HeadOf<P>(log: seq<Record<P>>): Option<Anchor<P>> {
    if log == [] then None else Some(Tail(log))
  }

  // Nothing is in flight and the log is exactly what the files say.
  predicate Settled<P(==)>(f: Files<P>, log: seq<Record<P>>) {
    f == Files(StreamOf(log), HeadOf(log), None)
  }

  // The anchor file, or an intent that already matches the stream, vouches for log.
  predicate Vouched<P(==)>(f: Files<P>, log: seq<Record<P>>) {
    f.head == HeadOf(log) || (log != [] && f.pending == Some(Tail(log)))
  }

  // readChain's scanner refuses a line of this many bytes or more, its newline
  // not counted. Nothing that writes a line looks at its length.
  const LINE_LIMIT := 0x40_0000

  predicate Fits<P>(length: Record<P> -> nat, log: seq<Record<P>>) {
    forall i :: 0 <= i < |log| ==> length(log[i]) < LINE_LIMIT
  }

  lemma FitsSnoc<P>(length: Record<P> -> nat, log: seq<Record<P>>, r: Record<P>)
    ensures Fits(length, log + [r]) <==> Fits(length, log) && length(r) < LINE_LIMIT
  {
    if Fits(length, log + [r]) {
      assert (log + [r])[|log|] == r;
      forall i | 0 <= i < |log| ensures length(log[i]) < LINE_LIMIT {
        assert (log + [r])[i] == log[i];
      }
    }
  }

  // The log these files stand for.
  ghost predicate StandsFor<P>(runId: string, valid: Record<P> -> bool, f: Files<P>, log: seq<Record<P>>) {
    && f.stream == StreamOf(log)
    && IsChain(runId, valid, log)
    && Vouched(f, log)
  }

  // The log a load of these files returns.
  ghost predicate LoadsAs<P>(runId: string, valid: Record<P> -> bool, length: Record<P> -> nat, f: Files<P>,
            log: seq<Record<P>>) {
    StandsFor(runId, valid, f, log) && Fits(length, log)
  }

  ghost predicate Loadable<P(!new)>(runId: string, valid: Record<P> -> bool, length: Record<P> -> nat, f: Files<P>) {
    exists log :: LoadsAs(runId, valid, length, f, log)
  }

  // The head moves to the stream's tail when the intent names that tail.
  function Promoted<P(==)>(f: Files<P>, tail: Anchor<P>): Files<P> {
    if f.pending == Some(tail) && tail != Genesis then f.(head := Some(tail)) else f
  }

  // What an append of r to a settled log may leave when it is cut short, in
  // order: nothing, the intent, the stream, the head, or everything.
  predicate CutShort<P(==)>(f: Files<P>, log: seq<Record<P>>, r: Record<P>) {
    || Settled(f, log)
    || f == Files(StreamOf(log), HeadOf(log), Some(r.headAnchor))
    || f == Files(StreamOf(log + [r]), HeadOf(log), Some(r.headAnchor))
    || f == Files(StreamOf(log + [r]), Some(r.headAnchor), Some(r.headAnchor))
    || Settled(f, log + [r])
  }

  lemma CutShortStands<P>(runId: string, valid: Record<P> -> bool, f: Files<P>, log: seq<Record<P>>, r: Record<P>)
    requires IsChain(runId, valid, log) && IsChain(runId, valid, log + [r])
    requires CutShort(f, log, r)
    ensures StandsFor(runId, valid, f, if f.stream == StreamOf(log) then log else log + [r])
  {
  }

  // Whatever a cut-short append leaves stands for the old chain or the new. It
  // loads unless the new record is in the stream and its line is too long.
  lemma CutShortLoads<P(!new)>(runId: string, valid: Record<P> -> bool, length: Record<P> -> nat, f: Files<P>,
            log: seq<Record<P>>, r: Record<P>)
    requires IsChain(runId, valid, log) && IsChain(runId, valid, log + [r])
    requires CutShort(f, log, r)
    ensures StandsFor(runId, valid, f, if f.stream == StreamOf(log) then log else log + [r])
    ensures Fits(length, log) ==>
              (Loadable(runId, valid, length, f) <==> f.stream == StreamOf(log) || length(r) < LINE_LIMIT)
  {
    CutShortStands(runId, valid, f, log, r);
    FitsSnoc(length, log, r);
    LoadableIffFits(runId, valid, length, f, if f.stream == StreamOf(log) then log else log + [r]);
  }

  // Files stand for at most one log.
  lemma StandsForOne<P>(runId: string, valid: Record<P> -> bool, f: Files<P>, a: seq<Record<P>>, b: seq<Record<P>>)
    requires StandsFor(runId, valid, f, a) && StandsFor(runId, valid, f, b)
    ensures a == b
  {
    assert StreamOf(a) == StreamOf(b);
  }

  // Files that stand for a log load exactly when every line of it can be read.
  lemma LoadableIffFits<P(!new)>(runId: string, valid: Record<P> -> bool, length: Record<P> -> nat, f: Files<P>,
            log: seq<Record<P>>)
    requires StandsFor(runId, valid, f, log)
    ensures Loadable(runId, valid, length, f) <==> Fits(length, log)
  {
    if Fits(length, log) {
      assert LoadsAs(runId, valid, length, f, log);
    }
    if Loadable(runId, valid, length, f) {
      var l :| LoadsAs(runId, valid, length, f, l);
      StandsForOne(runId, valid, f, l, log);
    }
  }

  // Settled files load exactly when the records under the last one are a chain
  // and no line is too long.
  lemma SettledLoads<P(!new)>(runId: string, valid: Record<P> -> bool, length: Record<P> -> nat,
            existing: seq<Record<P>>, r: Record<P>, f: Files<P>)
    requires Follows(runId, existing, r) && valid(r) && Settled(f, existing + [r])
    ensures Loadable(runId, valid, length, f) <==>
            IsChain(runId, valid, existing) && Fits(length, existing) && length(r) < LINE_LIMIT
  {
    var log := existing + [r];
    assert log[..|existing|] == existing;
    FitsSnoc(length, existing, r);
    if IsChain(runId, valid, existing) {
      ChainSnoc(runId, valid, existing, r);
      LoadableIffFits(runId, valid, length, f, log);
    } else if Loadable(runId, valid, length, f) {
      var l :| LoadsAs(runId, valid, length, f, l);
      assert StreamOf(l) == StreamOf(log);
      ChainPrefix(runId, valid, log, |existing|);
      assert false;
    }
  }

  // The state an acknowledged append of an over-long record leaves: the files
  // stand for the new log, and no load returns anything.
  lemma OverlongNeverLoads<P(!new)>(runId: string, valid: Record<P> -> bool, length: Record<P> -> nat,
            log: seq<Record<P>>, r: Record<P>, f: Files<P>)
    requires IsChain(runId, valid, log) && Follows(runId, log, r) && valid(r) && Settled(f, log + [r])
    requires length(r) >= LINE_LIMIT
    ensures StandsFor(runId, valid, f, log + [r]) && !Loadable(runId, valid, length, f)
  {
    ChainSnoc(runId, valid, log, r);
    SettledLoads(runId, valid, length, log, r, f);
  }

  // With no intent left, the head anchor accepts only the chain it was written
  // for: a truncation, a rollback or any other valid chain in the stream file
  // is refused.
  lemma OnlyTheAnchoredChain<P(!new)>(runId: string, valid: Record<P> -> bool, length: Record<P> -> nat,
            log: seq<Record<P>>, other: seq<Record<P>>, f: Files<P>)
    requires IsChain(runId, valid, log) && IsChain(runId, valid, other) && Fits(length, log)
    requires f == Files(StreamOf(other), HeadOf(log), None)
    ensures Loadable(runId, valid, length, f) <==> other == log
  {
    TailIsDigest(runId, valid, log);
    TailIsDigest(runId, valid, other);
    if other == log {
      assert LoadsAs(runId, valid, length, f, log);
    } else if l :| LoadsAs(runId, valid, length, f, l) {
      assert StreamOf(l) == StreamOf(other);
      AnchorNamesChain(runId, valid, log, other);
    }
  }

  // appendLocked does not guard against a second append after a failed one in
  // the same session. Once the second one has recorded its own intent, the
  // files load if and only if the first had not reached the stream, or had
  // moved the head too and its line can be read.
  lemma RetryAfterFailedAppend<P(!new)>(runId: string, valid: Record<P> -> bool, length: Record<P> -> nat,
            f: Files<P>, log: seq<Record<P>>, r1: Record<P>, r2: Record<P>)
    requires IsChain(runId, valid, log + [r1]) && IsChain(runId, valid, log + [r2]) && IsChain(runId, valid, log)
    requires r1 != r2 && CutShort(f, log, r1) && Fits(length, log)
    ensures Loadable(runId, valid, length, f.(pending := Some(r2.headAnchor))) <==>
            f.stream == StreamOf(log) || (f.head != HeadOf(log) && length(r1) < LINE_LIMIT)
  {
    TailIsDigest(runId, valid, log);
    TailIsDigest(runId, valid, log + [r1]);
    TailIsDigest(runId, valid, log + [r2]);
    ChainSnoc(runId, valid, log, r1);
    ChainSnoc(runId, valid, log, r2);
    FitsSnoc(length, log, r1);
    assert (log + [r1])[..|log|] == log;
    PrefixTailDiffers(runId, valid, log + [r1], |log|);
    var g := f.(pending := Some(r2.headAnchor));
    if f.stream == StreamOf(log) {
      assert LoadsAs(runId, valid, length, g, log);
    } else if f.head != HeadOf(log) {
      LoadableIffFits(runId, valid, length, g, log + [r1]);
    } else {
      forall l ensures !LoadsAs(runId, valid, length, g, l) {
        assert StreamOf(l) == StreamOf(log + [r1]) ==> l == log + [r1];
      }
    }
  }

  // Records acknowledged together, each at its own sequence after log.
  ghost predicate AckedAfter<P>(acks: seq<Record<P>>, log: seq<Record<P>>, after: seq<Record<P>>) {
    && log + acks <= after
    && forall i :: 0 <= i < |acks| ==> acks[i].sequence == |log| + i + 1
  }

  // What the log gained was offered, in that order.
  ghost predicate OfferedAfter<P>(offers: seq<Record<P>>, log: seq<Record<P>>, after: seq<Record<P>>) {
    && log <= after && |after| <= |log| + |offers|
    && forall i :: |log| <= i < |after| ==> after[i] == Anchored(offers[i - |log|])
  }

  lemma OfferedNext<P>(offers: seq<Record<P>>, log: seq<Record<P>>, acked: seq<Record<P>>, n: nat, r: Record<P>)
    requires |acked| == n < |offers| && r == Anchored(offers[n]) && r.sequence == |log| + n + 1
    requires AckedAfter(acked, log, log + acked) && OfferedAfter(offers, log, log + acked)
    ensures AckedAfter(acked + [r], log, log + acked + [r]) && OfferedAfter(offers, log, log + acked + [r])
    ensures AckedAfter(acked, log, log + acked + [r]) && log + (acked + [r]) == log + acked + [r]
  {
  }

  // What Append leaves of files that stood for log.
  ghost predicate AppendLeaves<P>(runId: string, valid: Record<P> -> bool, length: Record<P> -> nat, f: Files<P>,
            log: seq<Record<P>>, r: Record<P>, res: AppendResult) {
    match res
    case Appended => Fits(length, log) && Follows(runId, log, r) && Settled(f, log + [r]) && StandsFor(runId, valid, f, log + [r])
    case Rejected => Fits(length, log) && StandsFor(runId, valid, f, log) && !(Follows(runId, log, r) && valid(r))
    case Failed => StandsFor(runId, valid, f, log) || (Fits(length, log) && StandsFor(runId, valid, f, log + [r]))
  }

  // The log the files stand for after an append.
  ghost function AfterAppend<P>(runId: string, valid: Record<P> -> bool, f: Files<P>, log: seq<Record<P>>,
            r: Record<P>): (after: seq<Record<P>>)
    ensures after == log || after == log + [r]
  {
    if StandsFor(runId, valid, f, log) then log else log + [r]
  }

  lemma AppendCounts<P>(runId: string, valid: Record<P> -> bool, length: Record<P> -> nat, f: Files<P>,
            log: seq<Record<P>>, r: Record<P>, res: AppendResult)
    requires AppendLeaves(runId, valid, length, f, log, r, res)
    ensures var after := AfterAppend(runId, valid, f, log, r);
            && StandsFor(runId, valid, f, after)
            && AckedAfter(if res.Appended? then [r] else [], log, after)
            && (!Fits(length, log) ==> !res.Appended? && after == log)
  {
    if res.Appended? {
      assert !StandsFor(runId, valid, f, log) by {
        assert StreamOf(log) != StreamOf(log + [r]);
      }
    }
  }

  class Store<P(==,!new)> {
    const runId: string
    const valid: Record<P> -> bool
    const length: Record<P> -> nat // of the line a record is marshalled to, in bytes
    var files: Files<P>

    constructor (runId: string, valid: Record<P> -> bool, length: Record<P> -> nat, files: Files<P>)
      ensures this.runId == runId && this.valid == valid && this.length == length && this.files == files
    {
      this.runId, this.valid, this.length, this.files := runId, valid, length, files;
    }

    // ---- file operations ----

    method WriteStream(log: seq<Record<P>>) returns (ok: bool)
      modifies this
      ensures files == old(files).(stream := Some(Lines(log))) || (!ok && files == old(files))
    {
      var effect: bool := *;
      ok := *;
      if ok || effect {
        files := files.(stream := Some(Lines(log)));
      }
    }

    method WriteHead(a: Anchor<P>) returns (ok: bool)
      modifies this
      ensures files == old(files).(head := Some(a)) || (!ok && files == old(files))
    {
      var effect: bool := *;
      ok := *;
      if ok || effect {
        files := files.(head := Some(a));
      }
    }

    method WritePending(a: Anchor<P>) returns (ok: bool)
      modifies this
      ensures files == old(files).(pending := Some(a)) || (!ok && files == old(files))
    {
      var effect: bool := *;
      ok := *;
      if ok || effect {
        files := files.(pending := Some(a));
      }
    }

    method RemovePending() returns (ok: bool)
      modifies this
      ensures files == old(files).(pending := None) || (!ok && files == old(files))
    {
      var effect: bool := *;
      ok := *;
      if ok || effect {
        files := files.(pending := None);
      }
    }

    // ---- reading ----

    // readChain: the verified records, or None on any discontinuity and on a
    // line the scanner's buffer does not hold.
    method ReadChain() returns (out: Option<seq<Record<P>>>)
      ensures out.Some? ==> files.stream == StreamOf(out.value) && IsChain(runId, valid, out.value) && Fits(length, out.value)
      ensures out.None? ==> forall log :: files.stream == StreamOf(log) ==> !(IsChain(runId, valid, log) && Fits(length, log))
    {
      if files.stream.None? {
        return Some([]);
      }
      if files.stream.value.Unreadable? || files.stream.value.records == [] {
        return None;
      }
      var lines := files.stream.value.records;
      var prev: Anchor<P> := Genesis;
      for i := 0 to |lines|
        invariant IsChain(runId, valid, lines[..i])
        invariant prev == Tail(lines[..i])
        invariant Fits(length, lines[..i])
      {
        var r := lines[i];
        if length(r) >= LINE_LIMIT {
          return None;
        }
        assert lines[..i + 1] == lines[..i] + [r];
        ChainSnoc(runId, valid, lines[..i], r);
        if r.runId != runId || r.sequence != i + 1 || r.predecessor != prev
           || r.headAnchor != r.ComputeDigest() || !valid(r) {
          assert !(Follows(runId, lines[..i], lines[i]) && valid(lines[i]));
          return None;
        }
        prev := r.headAnchor;
      }
      assert lines[..|lines|] == lines;
      return Some(lines);
    }

    // recoverPending: finish or forget an interrupted append.
    method RecoverPending(tail: Anchor<P>) returns (ok: bool)
      modifies this
      ensures ok ==> files == Promoted(old(files), tail).(pending := None)
      ensures files in {old(files), Promoted(old(files), tail), Promoted(old(files), tail).(pending := None)}
    {
      if files.pending.None? {
        return true;
      }
      if files.pending.value == tail && tail != Genesis {
        ok := WriteHead(tail);
        if !ok {
          return;
        }
      }
      ok := RemovePending();
    }

    // loadLocked. It succeeds exactly when the files stand for some log whose
    // lines can be read, and returns that log. Interrupted at any step, the files stand for the same
    // log as before, so recovery may be cut short and repeated at will.
    method LoadLocked() returns (res: LoadResult<P>)
      modifies this
      ensures res.Loaded? ==> LoadsAs(runId, valid, length, old(files), res.log) && Settled(files, res.log)
      ensures res.Refused? ==> !Loadable(runId, valid, length, old(files))
      ensures forall log :: StandsFor(runId, valid, old(files), log) ==> StandsFor(runId, valid, files, log)
    {
      var out := ReadChain();
      if out.None? {
        return Refused;
      }
      var log := out.value;
      TailIsDigest(runId, valid, log);
      var ok := RecoverPending(Tail(log));
      if !ok {
        return Interrupted;
      }
      if log == [] {
        return if files.head.Some? then Refused else Loaded([]);
      }
      if files.head != Some(Tail(log)) {
        return Refused;
      }
      return Loaded(log);
    }

    // ---- writing ----

    // appendLocked. After files that stand settled for existing, success
    // settles existing + [r], and a crash at any step leaves files that stand
    // for existing or for existing + [r]. It checks the new record against
    // existing, but existing itself is written again unchecked.
    method AppendLocked(existing: seq<Record<P>>, r0: Record<P>) returns (res: AppendResult, r: Record<P>)
      modifies this
      ensures r == Anchored(r0)
      ensures res.Rejected? <==> !(r0.sequence == |existing| + 1 && r0.predecessor == Tail(existing) && r0.runId == runId && valid(r))
      ensures res.Rejected? ==> files == old(files)
      ensures res.Appended? ==> Settled(files, existing + [r])
      ensures res.Failed? && Settled(old(files), existing) ==> CutShort(files, existing, r)
      ensures !res.Rejected? ==> Follows(runId, existing, r) && valid(r)
    {
      r := Anchored(r0);
      if r.runId != runId || r.sequence != |existing| + 1 || r.predecessor != Tail(existing) || !valid(r) {
        return Rejected, r;
      }
      var log := existing + [r];
      res := Failed;
      var ok := WritePending(r.headAnchor);
      if !ok { return; }
      ok := WriteStream(log);
      if !ok { return; }
      ok := WriteHead(r.headAnchor);
      if !ok { return; }
      ok := RemovePending();
      if !ok { return; }
      res := Appended;
    }

    // Append: load under the lock, then append. Whatever log the files stood
    // for, they stand afterwards for that log, or for it and r; and nothing
    // changes unless that log could be loaded.
    method Append(r0: Record<P>) returns (res: AppendResult, r: Record<P>)
      modifies this
      ensures r == Anchored(r0)
      ensures forall log :: StandsFor(runId, valid, old(files), log) ==> AppendLeaves(runId, valid, length, files, log, r, res)
      ensures !res.Failed? ==> Loadable(runId, valid, length, old(files))
      ensures res.Appended? ==> (Loadable(runId, valid, length, files) <==> length(r) < LINE_LIMIT)
    {
      r := Anchored(r0);
      var loaded := LoadLocked();
      if !loaded.Loaded? {
        return Failed, r;
      }
      var log := loaded.log;
      res, r := AppendLocked(log, r0);
      ChainSnoc(runId, valid, log, r);
      if res.Failed? {
        CutShortStands(runId, valid, files, log, r);
      } else if res.Appended? {
        SettledLoads(runId, valid, length, log, r, files);
      }
      forall l | StandsFor(runId, valid, old(files), l) ensures l == log {
        StandsForOne(runId, valid, old(files), l, log);
      }
    }

    // The appends of one session, each after the records appended before it and
    // none after one that is refused or fails. after is what the files stand
    // for: what was acknowledged, and perhaps the record that failed.
    method AppendAll(log: seq<Record<P>>, offers: seq<Record<P>>) returns (acked: seq<Record<P>>,
              ghost after: seq<Record<P>>)
      requires IsChain(runId, valid, log) && Settled(files, log)
      modifies this
      ensures AckedAfter(acked, log, after) && OfferedAfter(offers, log, after)
      ensures |after| <= |log| + |acked| + 1
      ensures StandsFor(runId, valid, files, after)
    {
      acked, after := [], log;
      for n := 0 to |offers|
        invariant |acked| == n && after == log + acked
        invariant IsChain(runId, valid, after) && Settled(files, after)
        invariant AckedAfter(acked, log, after) && OfferedAfter(offers, log, after)
      {
        var res, r := AppendLocked(log + acked, offers[n]);
        ChainSnoc(runId, valid, after, r);
        if res.Rejected? {
          return;
        }
        OfferedNext(offers, log, acked, n, r);
        if res.Failed? {
          CutShortStands(runId, valid, files, after, r);
          after := if files.stream == StreamOf(after) then after else after + [r];
          return;
        }
        acked, after := acked + [r], after + [r];
      }
    }

    // Transact: one load, then a session of appends under the same lock. A run
    // with no files reads as empty and takes no record.
    method Transact(offers: seq<Record<P>>, ghost log: seq<Record<P>>)
      returns (loaded: LoadResult<P>, acked: seq<Record<P>>, ghost after: seq<Record<P>>)
      modifies this
      ensures loaded.Loaded? ==> LoadsAs(runId, valid, length, old(files), loaded.log)
      ensures loaded.Refused? ==> !Loadable(runId, valid, length, old(files))
      ensures StandsFor(runId, valid, old(files), log) ==>
                && StandsFor(runId, valid, files, after)
                && AckedAfter(acked, log, after) && OfferedAfter(offers, log, after) && |after| <= |log| + |acked| + 1
      ensures !loaded.Loaded? ==> acked == [] && after == log
      ensures old(files) == Files(None, None, None) ==> loaded == Loaded([]) && acked == [] && files == old(files)
    {
      acked, after := [], log;
      if files == Files(None, None, None) {
        return Loaded([]), acked, after;
      }
      loaded := LoadLocked();
      if loaded.Loaded? {
        forall l | StandsFor(runId, valid, old(files), l) ensures l == loaded.log {
          StandsForOne(runId, valid, old(files), l, loaded.log);
        }
        acked, after := AppendAll(loaded.log, offers);
      }
    }
  }

  // ------------------------------------------------------------------
  // Whole runs. The run lock is exclusive, so an execution is the sequence of
  // lock holders; each may be cut short at any step.
  // ------------------------------------------------------------------

  datatype Operation<P> = Load | Append(record: Record<P>) | Session(records: seq<Record<P>>)

  // The operation hands the record to the store.
  predicate Offers<P(==)>(op: Operation<P>, r: Record<P>) {
    match op
    case Load => false
    case Append(r0) => r == Anchored(r0)
    case Session(rs) => exists i :: 0 <= i < |rs| && r == Anchored(rs[i])
  }

  // Each load returned a stage of the log, in order.
  ghost predicate LoadsGrow<P>(loads: seq<seq<Record<P>>>, log0: seq<Record<P>>, log: seq<Record<P>>) {
    && log0 <= log
    && (forall i, j :: 0 <= i < j < |loads| ==> loads[i] <= loads[j])
    && (forall i :: 0 <= i < |loads| ==> log0 <= loads[i] <= log)
  }

  // Every acknowledged record is in the log, at its own sequence.
  ghost predicate AllKept<P>(acked: seq<Record<P>>, log0: seq<Record<P>>, log: seq<Record<P>>) {
    forall i :: 0 <= i < |acked| ==> |log0| < acked[i].sequence <= |log| && log[acked[i].sequence - 1] == acked[i]
  }

  // Every record the log gained was handed to the store by some operation.
  ghost predicate AllOffered<P>(ops: seq<Operation<P>>, log0: seq<Record<P>>, log: seq<Record<P>>) {
    forall i :: |log0| <= i < |log| ==> exists op :: op in ops && Offers(op, log[i])
  }

  lemma LogLengthens<P>(loads: seq<seq<Record<P>>>, acked: seq<Record<P>>, log0: seq<Record<P>>,
            log: seq<Record<P>>, acks: seq<Record<P>>, after: seq<Record<P>>)
    requires LoadsGrow(loads, log0, log) && AllKept(acked, log0, log) && AckedAfter(acks, log, after)
    ensures LoadsGrow(loads, log0, after) && AllKept(acked + acks, log0, after)
  {
    var both := acked + acks;
    forall i | 0 <= i < |both|
      ensures |log0| < both[i].sequence <= |after| && after[both[i].sequence - 1] == both[i]
    {
      if i >= |acked| {
        assert both[i] == acks[i - |acked|] == (log + acks)[|log| + i - |acked|];
      }
    }
  }

  lemma LogGains<P>(ops: seq<Operation<P>>, op: Operation<P>, log0: seq<Record<P>>, log: seq<Record<P>>,
            after: seq<Record<P>>)
    requires AllOffered(ops, log0, log) && op in ops && log <= after
    requires forall i :: |log| <= i < |after| ==> Offers(op, after[i])
    ensures AllOffered(ops, log0, after)
  {
  }

  method PerformAppend<P(==,!new)>(store: Store<P>, r0: Record<P>, ghost log: seq<Record<P>>)
    returns (acks: seq<Record<P>>, ghost after: seq<Record<P>>)
    requires StandsFor(store.runId, store.valid, store.files, log)
    modifies store
    ensures StandsFor(store.runId, store.valid, store.files, after)
    ensures AckedAfter(acks, log, after) && (after == log || after == log + [Anchored(r0)])
    ensures !Fits(store.length, log) ==> acks == [] && after == log
  {
    var res, r := store.Append(r0);
    AppendCounts(store.runId, store.valid, store.length, store.files, log, r, res);
    acks := if res.Appended? then [r] else [];
    after := AfterAppend(store.runId, store.valid, store.files, log, r);
  }

  // One lock holder: what it read and what was acknowledged to it, and the log
  // it leaves. A log that cannot be loaded stays as it is.
  method Perform<P(==,!new)>(store: Store<P>, op: Operation<P>, ghost log: seq<Record<P>>)
    returns (load: Option<seq<Record<P>>>, acks: seq<Record<P>>, ghost after: seq<Record<P>>)
    requires StandsFor(store.runId, store.valid, store.files, log)
    modifies store
    ensures StandsFor(store.runId, store.valid, store.files, after)
    ensures load.Some? ==> load.value == log
    ensures AckedAfter(acks, log, after)
    ensures forall i :: |log| <= i < |after| ==> Offers(op, after[i])
    ensures !Fits(store.length, log) ==> load.None? && acks == [] && after == log
  {
    ghost var before := store.files;
    LoadableIffFits(store.runId, store.valid, store.length, before, log);
    load, acks, after := None, [], log;
    match op
    case Load =>
      var res := store.LoadLocked();
      if res.Loaded? {
        StandsForOne(store.runId, store.valid, before, log, res.log);
        load := Some(res.log);
      }
    case Append(r0) =>
      acks, after := PerformAppend(store, r0, log);
    case Session(records) =>
      var res;
      res, acks, after := store.Transact(records, log);
      if res.Loaded? {
        load := Some(res.log);
      }
      forall i | |log| <= i < |after| ensures Offers(op, after[i]) {
        assert after[i] == Anchored(records[i - |log|]);
      }
  }

  // Every load could read what it returned.
  ghost predicate AllFit<P>(length: Record<P> -> nat, loads: seq<seq<Record<P>>>) {
    forall i :: 0 <= i < |loads| ==> Fits(length, loads[i])
  }

  lemma AllFitNext<P>(length: Record<P> -> nat, loads: seq<seq<Record<P>>>, load: Option<seq<Record<P>>>)
    requires AllFit(length, loads) && (load.Some? ==> Fits(length, load.value))
    ensures AllFit(length, WithLoad(loads, load))
  {
  }

  function WithLoad<P>(loads: seq<seq<Record<P>>>, load: Option<seq<Record<P>>>): seq<seq<Record<P>>> {
    if load.Some? then loads + [load.value] else loads
  }

  // What a run has to show for the operations it performed.
  ghost predicate Account<P>(ops: seq<Operation<P>>, loads: seq<seq<Record<P>>>, acked: seq<Record<P>>,
            log0: seq<Record<P>>, log: seq<Record<P>>) {
    LoadsGrow(loads, log0, log) && AllKept(acked, log0, log) && AllOffered(ops, log0, log)
  }

  lemma AccountNext<P>(ops: seq<Operation<P>>, op: Operation<P>, loads: seq<seq<Record<P>>>, acked: seq<Record<P>>,
                       log0: seq<Record<P>>, log: seq<Record<P>>, load: Option<seq<Record<P>>>, acks: seq<Record<P>>, after: seq<Record<P>>)
    requires Account(ops, loads, acked, log0, log) && op in ops
    requires load.Some? ==> load.value == log
    requires AckedAfter(acks, log, after)
    requires forall i :: |log| <= i < |after| ==> Offers(op, after[i])
    ensures Account(ops, WithLoad(loads, load), acked + acks, log0, after)
  {
    var seen := WithLoad(loads, load);
    assert LoadsGrow(seen, log0, log);
    LogLengthens(seen, acked, log0, log, acks, after);
    LogGains(ops, op, log0, log, after);
  }

  // Over any run: the files never stop standing for a log, that log only
  // grows, every load returns a stage of it, every acknowledged record is in
  // it at its own sequence, and nothing is in it that nobody offered. Nothing
  // is read or acknowledged any more once the log holds an over-long record.
  method Run<P(==,!new)>(store: Store<P>, ops: seq<Operation<P>>, ghost log0: seq<Record<P>>)
    returns (loads: seq<seq<Record<P>>>, acked: seq<Record<P>>, ghost log: seq<Record<P>>)
    requires StandsFor(store.runId, store.valid, store.files, log0)
    modifies store
    ensures StandsFor(store.runId, store.valid, store.files, log)
    ensures Account(ops, loads, acked, log0, log)
    ensures AllFit(store.length, loads)
    ensures !Fits(store.length, log0) ==> loads == [] && acked == [] && log == log0
    ensures Loadable(store.runId, store.valid, store.length, store.files) <==> Fits(store.length, log)
  {
    log := log0;
    loads, acked := [], [];
    for n := 0 to |ops|
      invariant StandsFor(store.runId, store.valid, store.files, log)
      invariant Account(ops, loads, acked, log0, log)
      invariant AllFit(store.length, loads)
      invariant !Fits(store.length, log0) ==> loads == [] && acked == [] && log == log0
    {
      var load, acks;
      ghost var after;
      load, acks, after := Perform(store, ops[n], log);
      AccountNext(ops, ops[n], loads, acked, log0, log, load, acks, after);
      AllFitNext(store.length, loads, load);
      loads, acked, log := WithLoad(loads, load), acked + acks, after;
    }
    LoadableIffFits(store.runId, store.valid, store.length, store.files, log);
  }
}
