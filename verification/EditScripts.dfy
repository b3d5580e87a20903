// What a line diff counts: edit scripts that turn one sequence of lines into
// another by deleting and inserting lines. This file knows nothing of the
// search in LineDiff.dfy; it is the meaning that search is proved against.
module EditScripts {
  datatype Option<+T> = None | Some(value: T)

  // One step of a script, read from left to right along both sequences.
  datatype Edit<T> = Keep | Delete | Insert(line: T)

  type Script<T> = seq<Edit<T>>

  // The sequence a script produces from a, or None when the script does not
  // consume a exactly.
  function Run<T>(script: Script<T>, a: seq<T>): Option<seq<T>> {
    if script == [] then
      if a == [] then Some([]) else None
    else
      var init := script[..|script| - 1];
      match script[|script| - 1]
      case Insert(line) =>
        var r := Run(init, a);
        if r.None? then None else Some(r.value + [line])
      case Keep =>
        if a == [] then None else
        var r := Run(init, a[..|a| - 1]);
        if r.None? then None else Some(r.value + [a[|a| - 1]])
      case Delete =>
        if a == [] then None else Run(init, a[..|a| - 1])
  }

  ghost predicate Transforms<T(!new)>(script: Script<T>, a: seq<T>, b: seq<T>) {
    Run(script, a) == Some(b)
  }

  function Deletes<T>(script: Script<T>): nat {
    if script == [] then 0
    else Deletes(script[..|script| - 1]) + if script[|script| - 1].Delete? then 1 else 0
  }

  function Inserts<T>(script: Script<T>): nat {
    if script == [] then 0
    else Inserts(script[..|script| - 1]) + if script[|script| - 1].Insert? then 1 else 0
  }

  function Cost<T>(script: Script<T>): nat {
    Deletes(script) + Inserts(script)
  }

  // (deleted, added) are the counts of a shortest script from a to b: some
  // script has exactly these counts, and no script does better in either.
  ghost predicate MinimalCounts<T(!new)>(a: seq<T>, b: seq<T>, deleted: int, added: int) {
    && (exists s: Script<T> :: Transforms(s, a, b) && Deletes(s) == deleted && Inserts(s) == added)
    && (forall s: Script<T> :: Transforms(s, a, b) ==> deleted <= Deletes(s) && added <= Inserts(s))
  }

  // The length of a longest common subsequence.
  function Lcs<T(==)>(a: seq<T>, b: seq<T>): nat
    decreases |a| + |b|
  {
    if a == [] || b == [] then 0
    else
      var a', b' := a[..|a| - 1], b[..|b| - 1];
      if a[|a| - 1] == b[|b| - 1] then 1 + Lcs(a', b')
      else if Lcs(a', b) >= Lcs(a, b') then Lcs(a', b) else Lcs(a, b')
  }

  // ------------------------------------------------------------------
  // The edit grid. Reach(a, b, d, x, y): the point (x, y) is reached from
  // (0, 0) with exactly d horizontal or vertical steps. Those steps are free
  // to leave the |a| by |b| rectangle, as the search does; diagonal steps,
  // along equal lines, are not.
  // ------------------------------------------------------------------

  ghost predicate Reach<T>(a: seq<T>, b: seq<T>, d: nat, x: nat, y: nat)
    decreases x + y
  {
    || (d == 0 && x == 0 && y == 0)
    || (d > 0 && x > 0 && Reach(a, b, d - 1, x - 1, y))
    || (d > 0 && y > 0 && Reach(a, b, d - 1, x, y - 1))
    || (0 < x <= |a| && 0 < y <= |b| && a[x - 1] == b[y - 1] && Reach(a, b, d, x - 1, y - 1))
  }

  // Walking straight along both axes reaches any point.
  lemma {:induction false} AxesReach<T>(a: seq<T>, b: seq<T>, x: nat, y: nat)
    ensures Reach(a, b, x + y, x, y)
    decreases x + y
  {
    if x > 0 {
      AxesReach(a, b, x - 1, y);
    } else if y > 0 {
      AxesReach(a, b, x, y - 1);
    }
  }

  // Pulling a point back into the rectangle saves exactly the steps it was out.
  lemma {:induction false} ClampReach<T>(a: seq<T>, b: seq<T>, d: nat, x: nat, y: nat)
    requires Reach(a, b, d, x, y)
    ensures var x' := if x < |a| then x else |a|;
            var y' := if y < |b| then y else |b|;
            (x - x') + (y - y') <= d && Reach(a, b, d - ((x - x') + (y - y')), x', y')
    decreases x + y
  {
    if d > 0 && x > 0 && Reach(a, b, d - 1, x - 1, y) {
      ClampReach(a, b, d - 1, x - 1, y);
    } else if d > 0 && y > 0 && Reach(a, b, d - 1, x, y - 1) {
      ClampReach(a, b, d - 1, x, y - 1);
    } else if 0 < x <= |a| && 0 < y <= |b| && a[x - 1] == b[y - 1] && Reach(a, b, d, x - 1, y - 1) {
      ClampReach(a, b, d, x - 1, y - 1);
    }
  }

  lemma RunSnoc<T>(script: Script<T>, e: Edit<T>, a: seq<T>)
    ensures (script + [e])[..|script|] == script
    ensures (script + [e])[|script|] == e
  {
  }

  // Every grid point inside the rectangle is the end of a script, and its
  // cost and balance are the script's.
  lemma {:induction false} ReachScript<T>(a: seq<T>, b: seq<T>, d: nat, x: nat, y: nat) returns (s: Script<T>)
    requires x <= |a| && y <= |b| && Reach(a, b, d, x, y)
    ensures Run(s, a[..x]) == Some(b[..y])
    ensures Cost(s) == d
    decreases x + y
  {
    if d > 0 && x > 0 && Reach(a, b, d - 1, x - 1, y) {
      var p := ReachScript(a, b, d - 1, x - 1, y);
      s := p + [Delete];
      RunSnoc(p, Delete, a);
      assert a[..x][..x - 1] == a[..x - 1];
    } else if d > 0 && y > 0 && Reach(a, b, d - 1, x, y - 1) {
      var p := ReachScript(a, b, d - 1, x, y - 1);
      s := p + [Insert(b[y - 1])];
      RunSnoc(p, Insert(b[y - 1]), a);
      assert b[..y] == b[..y - 1] + [b[y - 1]];
    } else if 0 < x && 0 < y && a[x - 1] == b[y - 1] && Reach(a, b, d, x - 1, y - 1) {
      var p := ReachScript(a, b, d, x - 1, y - 1);
      s := p + [Keep];
      RunSnoc(p, Keep, a);
      assert a[..x][..x - 1] == a[..x - 1];
      assert b[..y] == b[..y - 1] + [b[y - 1]];
    } else {
      s := [];
    }
  }

  // Every script is a grid path.
  lemma {:induction false} ScriptReach<T(!new)>(a: seq<T>, b: seq<T>, s: Script<T>, x: nat, y: nat)
    requires x <= |a| && y <= |b| && Transforms(s, a[..x], b[..y])
    ensures Reach(a, b, Cost(s), x, y)
    ensures Deletes(s) <= x && Inserts(s) <= y
    ensures Deletes(s) - Inserts(s) == x - y
    decreases |s|
  {
    if s != [] {
      var init := s[..|s| - 1];
      match s[|s| - 1]
      case Insert(line) =>
        var r := Run(init, a[..x]);
        assert b[..y] == r.value + [line];
        assert b[..y][..y - 1] == r.value == b[..y - 1];
        ScriptReach(a, b, init, x, y - 1);
      case Delete =>
        assert a[..x][..x - 1] == a[..x - 1];
        ScriptReach(a, b, init, x - 1, y);
      case Keep =>
        assert a[..x][..x - 1] == a[..x - 1];
        var r := Run(init, a[..x - 1]);
        assert b[..y] == r.value + [a[x - 1]];
        assert b[..y][..y - 1] == r.value == b[..y - 1];
        assert b[..y][y - 1] == b[y - 1];
        ScriptReach(a, b, init, x - 1, y - 1);
    }
  }

  // The end of the grid decides the counts: if (|a|, |b|) is reached with d
  // steps and with no fewer, the two halves of d are the minimal counts.
  lemma ShortestIsMinimal<T(!new)>(a: seq<T>, b: seq<T>, d: nat)
    requires Reach(a, b, d, |a|, |b|)
    requires forall d': nat :: d' < d ==> !Reach(a, b, d', |a|, |b|)
    ensures (d + |b| - |a|) % 2 == 0
    ensures |a| - |b| <= d && |b| - |a| <= d
    ensures MinimalCounts(a, b, (d - (|b| - |a|)) / 2, (d + (|b| - |a|)) / 2)
  {
    assert a[..|a|] == a && b[..|b|] == b;
    var s := ReachScript(a, b, d, |a|, |b|);
    ScriptReach(a, b, s, |a|, |b|);
    forall t: Script<T> | Transforms(t, a, b)
      ensures Deletes(s) <= Deletes(t) && Inserts(s) <= Inserts(t)
    {
      ScriptReach(a, b, t, |a|, |b|);
    }
    assert Transforms(s, a, b) && Deletes(s) == (d - (|b| - |a|)) / 2 && Inserts(s) == (d + (|b| - |a|)) / 2;
  }

  // No script deletes or inserts more lines than there are, so counting every
  // line of both sides bounds any script's counts.
  lemma AllLinesBound<T(!new)>(a: seq<T>, b: seq<T>, deleted: int, added: int)
    requires MinimalCounts(a, b, deleted, added)
    ensures 0 <= deleted <= |a| && 0 <= added <= |b|
    ensures added - deleted == |b| - |a|
  {
    assert a[..|a|] == a && b[..|b|] == b;
    var s: Script<T> :| Transforms(s, a, b) && Deletes(s) == deleted && Inserts(s) == added;
    ScriptReach(a, b, s, |a|, |b|);
  }

  // ------------------------------------------------------------------
  // The longest common subsequence, as the classical measure of the same thing.
  // ------------------------------------------------------------------

  lemma {:induction false} LcsStep<T>(a: seq<T>, b: seq<T>, x: nat, y: nat)
    requires x <= |a| && y <= |b|
    ensures x > 0 ==> Lcs(a[..x - 1], b[..y]) <= Lcs(a[..x], b[..y]) <= Lcs(a[..x - 1], b[..y]) + 1
    ensures y > 0 ==> Lcs(a[..x], b[..y - 1]) <= Lcs(a[..x], b[..y]) <= Lcs(a[..x], b[..y - 1]) + 1
    decreases x + y
  {
    if x > 0 && y > 0 {
      LcsStep(a, b, x - 1, y);
      LcsStep(a, b, x, y - 1);
      LcsStep(a, b, x - 1, y - 1);
      assert a[..x][..x - 1] == a[..x - 1];
      assert b[..y][..y - 1] == b[..y - 1];
    }
  }

  lemma {:induction false} ReachAtLeastLcs<T>(a: seq<T>, b: seq<T>, d: nat, x: nat, y: nat)
    requires x <= |a| && y <= |b| && Reach(a, b, d, x, y)
    ensures x + y - 2 * Lcs(a[..x], b[..y]) <= d
    decreases x + y
  {
    LcsStep(a, b, x, y);
    if d > 0 && x > 0 && Reach(a, b, d - 1, x - 1, y) {
      ReachAtLeastLcs(a, b, d - 1, x - 1, y);
    } else if d > 0 && y > 0 && Reach(a, b, d - 1, x, y - 1) {
      ReachAtLeastLcs(a, b, d - 1, x, y - 1);
    } else if 0 < x && 0 < y && a[x - 1] == b[y - 1] && Reach(a, b, d, x - 1, y - 1) {
      ReachAtLeastLcs(a, b, d, x - 1, y - 1);
      assert a[..x][..x - 1] == a[..x - 1];
      assert b[..y][..y - 1] == b[..y - 1];
    }
  }

  lemma {:induction false} LcsReaches<T>(a: seq<T>, b: seq<T>, x: nat, y: nat)
    requires x <= |a| && y <= |b|
    ensures 2 * Lcs(a[..x], b[..y]) <= x + y
    ensures Reach(a, b, x + y - 2 * Lcs(a[..x], b[..y]), x, y)
    decreases x + y
  {
    if x == 0 || y == 0 {
      AxesReach(a, b, x, y);
    } else {
      assert a[..x][..x - 1] == a[..x - 1];
      assert b[..y][..y - 1] == b[..y - 1];
      LcsReaches(a, b, x - 1, y);
      LcsReaches(a, b, x, y - 1);
      LcsReaches(a, b, x - 1, y - 1);
    }
  }

  // Minimal counts add up to both lengths minus twice the longest common
  // subsequence, and are pinned down by that.
  lemma MinimalCountsAreLcs<T(!new)>(a: seq<T>, b: seq<T>, deleted: int, added: int)
    ensures MinimalCounts(a, b, deleted, added) <==>
            deleted == |a| - Lcs(a, b) && added == |b| - Lcs(a, b)
  {
    assert a[..|a|] == a && b[..|b|] == b;
    var d := |a| + |b| - 2 * Lcs(a, b);
    LcsReaches(a, b, |a|, |b|);
    forall d': nat | d' < d ensures !Reach(a, b, d', |a|, |b|) {
      if Reach(a, b, d', |a|, |b|) {
        ReachAtLeastLcs(a, b, d', |a|, |b|);
        assert false;
      }
    }
    ShortestIsMinimal(a, b, d);
    assert MinimalCounts(a, b, |a| - Lcs(a, b), |b| - Lcs(a, b));
    if MinimalCounts(a, b, deleted, added) {
      var s: Script<T> :| Transforms(s, a, b) && Deletes(s) == deleted && Inserts(s) == added;
      var t: Script<T> :| Transforms(t, a, b) && Deletes(t) == |a| - Lcs(a, b) && Inserts(t) == |b| - Lcs(a, b);
    }
  }
}
