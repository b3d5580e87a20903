// The hash chain both stores keep. SHA-256 over a record's canonical JSON is
// modelled as an injective constructor: an anchor is the digested content.
module Chain {
  datatype Option<+T> = None | Some(value: T)

  // Genesis stands for the empty string, the predecessor of the first record.
  datatype Anchor<P> = Genesis | Digest(runId: string, sequence: int, predecessor: Anchor<P>, payload: P)

  datatype Record<P> = Record(runId: string, sequence: int, predecessor: Anchor<P>, headAnchor: Anchor<P>, payload: P) {
    // digestRecord: the digest of the record with its own anchor cleared.
    function ComputeDigest(): Anchor<P> {
      Digest(runId, sequence, predecessor, payload)
    }
  }

  function Tail<P>(log: seq<Record<P>>): Anchor<P> {
    if log == [] then Genesis else log[|log| - 1].headAnchor
  }

  // r may follow log: the test readChain makes on each line, without the
  // field validation that both stores apply alongside it.
  predicate Follows<P(==)>(runId: string, log: seq<Record<P>>, r: Record<P>) {
    && r.runId == runId
    && r.sequence == |log| + 1
    && r.predecessor == Tail(log)
    && r.headAnchor == r.ComputeDigest()
  }

  ghost predicate IsChain<P>(runId: string, valid: Record<P> -> bool, log: seq<Record<P>>) {
    forall i :: 0 <= i < |log| ==> Follows(runId, log[..i], log[i]) && valid(log[i])
  }

  lemma ChainPrefix<P>(runId: string, valid: Record<P> -> bool, log: seq<Record<P>>, n: nat)
    requires IsChain(runId, valid, log) && n <= |log|
    ensures IsChain(runId, valid, log[..n])
  {
    forall i | 0 <= i < n ensures Follows(runId, log[..n][..i], log[..n][i]) && valid(log[..n][i]) {
      assert log[..n][..i] == log[..i];
    }
  }

  lemma ChainSnoc<P>(runId: string, valid: Record<P> -> bool, log: seq<Record<P>>, r: Record<P>)
    requires IsChain(runId, valid, log)
    ensures IsChain(runId, valid, log + [r]) <==> Follows(runId, log, r) && valid(r)
  {
    assert (log + [r])[..|log|] == log;
    forall i | 0 <= i < |log| ensures Follows(runId, (log + [r])[..i], (log + [r])[i]) && valid((log + [r])[i]) {
      assert (log + [r])[..i] == log[..i];
    }
  }

  lemma TailIsDigest<P>(runId: string, valid: Record<P> -> bool, log: seq<Record<P>>)
    requires IsChain(runId, valid, log)
    ensures log != [] ==> Tail(log) == log[|log| - 1].ComputeDigest()
  {
    if log != [] {
      assert Follows(runId, log[..|log| - 1], log[|log| - 1]);
    }
  }

  lemma LastLink<P>(runId: string, valid: Record<P> -> bool, log: seq<Record<P>>)
    requires IsChain(runId, valid, log) && log != []
    ensures var init, last := log[..|log| - 1], log[|log| - 1];
            IsChain(runId, valid, init) && log == init + [last]
            && last.headAnchor == Digest(runId, |log|, Tail(init), last.payload)
            && last == Record(runId, |log|, Tail(init), last.headAnchor, last.payload)
  {
    assert Follows(runId, log[..|log| - 1], log[|log| - 1]);
    ChainPrefix(runId, valid, log, |log| - 1);
  }

  // One anchor names one whole chain: the digest covers the predecessor, so
  // equal tails mean equal histories.
  lemma {:induction false} AnchorNamesChain<P>(runId: string, valid: Record<P> -> bool, a: seq<Record<P>>,
            b: seq<Record<P>>)
    requires IsChain(runId, valid, a) && IsChain(runId, valid, b)
    requires Tail(a) == Tail(b)
    ensures a == b
  {
    if a != [] {
      LastLink(runId, valid, a);
    }
    if b != [] {
      LastLink(runId, valid, b);
    }
    if a != [] && b != [] {
      AnchorNamesChain(runId, valid, a[..|a| - 1], b[..|b| - 1]);
    }
  }

  // Tails are distinct along a chain.
  lemma {:induction false} PrefixTailDiffers<P>(runId: string, valid: Record<P> -> bool, log: seq<Record<P>>, n: nat)
    requires IsChain(runId, valid, log) && n < |log|
    ensures Tail(log[..n]) != Tail(log)
  {
    if Tail(log[..n]) == Tail(log) {
      ChainPrefix(runId, valid, log, n);
      AnchorNamesChain(runId, valid, log[..n], log);
      assert false;
    }
  }
}
