// The greedy line diff of cmd/hma/observe.go (lineDiffCounts): a search over
// one in-place array of furthest-reaching points, proved to return the counts
// of a shortest edit script, or to say that it does not.
module FurthestReaching {
  import opened EditScripts

  // Sliding along equal lines from (x, y) on diagonal k = x - y.
  function Slide<T(==)>(a: seq<T>, b: seq<T>, x: int, y: int): (r: int)
    requires 0 <= x && 0 <= y
    ensures x <= r
    decreases |a| - x
  {
    if x < |a| && y < |b| && a[x] == b[y] then Slide(a, b, x + 1, y + 1) else x
  }

  // Diagonal k is visited in round d.
  predicate Visited(d: int, k: int) {
    -d <= k <= d && (k - d) % 2 == 0
  }

  // The x coordinate the search stores for diagonal k in round d, as a
  // function of the previous round only.
  function Furthest<T(==)>(a: seq<T>, b: seq<T>, d: nat, k: int): (r: int)
    requires Visited(d, k)
    ensures 0 <= r && k <= r
    decreases d
  {
    Slide(a, b, Entry(a, b, d, k), Entry(a, b, d, k) - k)
  }

  // Where round d enters diagonal k, before sliding.
  function Entry<T(==)>(a: seq<T>, b: seq<T>, d: nat, k: int): (r: int)
    requires Visited(d, k)
    ensures 0 <= r && k <= r
    decreases d, 0
  {
    if d == 0 then 0
    else if k + d == 0 then Furthest(a, b, d - 1, k + 1)
    else if k == d then Furthest(a, b, d - 1, k - 1) + 1
    else if Furthest(a, b, d - 1, k - 1) < Furthest(a, b, d - 1, k + 1) then Furthest(a, b, d - 1, k + 1)
    else Furthest(a, b, d - 1, k - 1) + 1
  }

  lemma {:induction false} SlideReach<T>(a: seq<T>, b: seq<T>, d: nat, x: nat, y: nat)
    requires Reach(a, b, d, x, y)
    ensures Reach(a, b, d, Slide(a, b, x, y), Slide(a, b, x, y) - x + y)
    decreases |a| - x
  {
    if x < |a| && y < |b| && a[x] == b[y] {
      SlideReach(a, b, d, x + 1, y + 1);
    }
  }

  lemma {:induction false} SlideStops<T>(a: seq<T>, b: seq<T>, x: nat, y: nat)
    ensures var r := Slide(a, b, x, y);
            !(r < |a| && r - x + y < |b| && a[r] == b[r - x + y])
    decreases |a| - x
  {
    if x < |a| && y < |b| && a[x] == b[y] {
      SlideStops(a, b, x + 1, y + 1);
    }
  }

  // What the search stores is reached in exactly d steps.
  lemma {:induction false} FurthestIsReached<T>(a: seq<T>, b: seq<T>, d: nat, k: int)
    requires Visited(d, k)
    ensures Reach(a, b, d, Furthest(a, b, d, k), Furthest(a, b, d, k) - k)
    decreases d
  {
    if d > 0 {
      if k + d != 0 { FurthestIsReached(a, b, d - 1, k - 1); }
      if k != d { FurthestIsReached(a, b, d - 1, k + 1); }
    }
    SlideReach(a, b, d, Entry(a, b, d, k), Entry(a, b, d, k) - k);
  }

  // (x, y) lies no further along its diagonal than what round d stores.
  predicate Within<T(==)>(a: seq<T>, b: seq<T>, d: int, x: int, y: int) {
    d >= 0 && Visited(d, x - y) && x <= Furthest(a, b, d, x - y)
  }

  // A step right, down or along equal lines gets no further than the search.
  lemma FurtherRight<T>(a: seq<T>, b: seq<T>, d: nat, x: nat, y: nat)
    requires d > 0 && x > 0 && Within(a, b, d - 1, x - 1, y)
    ensures Within(a, b, d, x, y)
  {
    var k := x - y;
    assert Furthest(a, b, d - 1, k - 1) + 1 <= Entry(a, b, d, k);
  }

  lemma FurtherDown<T>(a: seq<T>, b: seq<T>, d: nat, x: nat, y: nat)
    requires d > 0 && y > 0 && Within(a, b, d - 1, x, y - 1)
    ensures Within(a, b, d, x, y)
  {
    var k := x - y;
    assert Furthest(a, b, d - 1, k + 1) <= Entry(a, b, d, k);
  }

  lemma FurtherAlong<T>(a: seq<T>, b: seq<T>, d: nat, x: nat, y: nat)
    requires 0 < x <= |a| && 0 < y <= |b| && a[x - 1] == b[y - 1] && Within(a, b, d, x - 1, y - 1)
    ensures Within(a, b, d, x, y)
  {
    SlideStops(a, b, Entry(a, b, d, x - y), Entry(a, b, d, x - y) - (x - y));
  }

  // How the last step of a path was taken.
  datatype Step = Start | Right | Down | Along

  lemma LastStep<T>(a: seq<T>, b: seq<T>, d: nat, x: nat, y: nat) returns (s: Step)
    requires Reach(a, b, d, x, y)
    ensures s.Start? ==> d == 0 && x == 0 && y == 0
    ensures s.Right? ==> d > 0 && x > 0 && Reach(a, b, d - 1, x - 1, y)
    ensures s.Down? ==> d > 0 && y > 0 && Reach(a, b, d - 1, x, y - 1)
    ensures s.Along? ==> 0 < x <= |a| && 0 < y <= |b| && a[x - 1] == b[y - 1] && Reach(a, b, d, x - 1, y - 1)
  {
    if d > 0 && x > 0 && Reach(a, b, d - 1, x - 1, y) {
      s := Right;
    } else if d > 0 && y > 0 && Reach(a, b, d - 1, x, y - 1) {
      s := Down;
    } else {
      s := if d == 0 && x == 0 && y == 0 then Start else Along;
    }
  }

  // Nothing on that diagonal is reached further in d steps.
  lemma {:induction false} NothingIsFurther<T>(a: seq<T>, b: seq<T>, d: nat, x: nat, y: nat)
    requires Reach(a, b, d, x, y)
    ensures Within(a, b, d, x, y)
    decreases x + y
  {
    var s := LastStep(a, b, d, x, y);
    match s
    case Start =>
    case Right =>
      NothingIsFurther(a, b, d - 1, x - 1, y);
      FurtherRight(a, b, d, x, y);
    case Down =>
      NothingIsFurther(a, b, d - 1, x, y - 1);
      FurtherDown(a, b, d, x, y);
    case Along =>
      NothingIsFurther(a, b, d, x - 1, y - 1);
      FurtherAlong(a, b, d, x, y);
  }

  // The search's exit test on diagonal k in round d.
  predicate Done<T(==)>(a: seq<T>, b: seq<T>, d: nat, k: int)
    requires Visited(d, k)
  {
    Furthest(a, b, d, k) >= |a| && Furthest(a, b, d, k) - k >= |b|
  }

  ghost predicate NoneDoneBefore<T>(a: seq<T>, b: seq<T>, d: nat) {
    forall d': nat, k :: d' < d && Visited(d', k) ==> !Done(a, b, d', k)
  }

  lemma CornerIsDone<T>(a: seq<T>, b: seq<T>, d: nat)
    requires Reach(a, b, d, |a|, |b|)
    ensures Visited(d, |a| - |b|) && Done(a, b, d, |a| - |b|)
  {
    NothingIsFurther(a, b, d, |a|, |b|);
  }

  // The first point that passes the exit test, although the search may have
  // run outside the rectangle, is its far corner, reached by no shorter way.
  lemma FirstDoneIsCorner<T>(a: seq<T>, b: seq<T>, d: nat, k: int)
    requires Visited(d, k) && Done(a, b, d, k) && NoneDoneBefore(a, b, d)
    ensures Furthest(a, b, d, k) == |a| && k == |a| - |b|
    ensures Reach(a, b, d, |a|, |b|)
    ensures forall d': nat :: d' < d ==> !Reach(a, b, d', |a|, |b|)
  {
    forall d': nat | d' < d ensures !Reach(a, b, d', |a|, |b|) {
      if Reach(a, b, d', |a|, |b|) {
        CornerIsDone(a, b, d');
        assert false;
      }
    }
    var x := Furthest(a, b, d, k);
    FurthestIsReached(a, b, d, k);
    ClampReach(a, b, d, x, x - k);
  }

  // The shortest script's length, as the least round that reaches the corner.
  ghost predicate IsDistance<T>(a: seq<T>, b: seq<T>, d: nat) {
    Reach(a, b, d, |a|, |b|) && forall d': nat :: d' < d ==> !Reach(a, b, d', |a|, |b|)
  }
}

module LineDiff {
  import opened EditScripts
  import opened FurthestReaching
  import opened LineIndexing

  const OBSERVATION_WINDOW := 0x100_0000  // 16 MiB
  const MAX_OBSERVED_LINES := 1_000_000
  const MAX_EDIT_DEPTH := 20000
  const MAX_EDIT_WORK := 50_000_000

  datatype LineCounts = LineCounts(added: int, deleted: int, truncated: bool, upperBound: bool)

  // A context that is never done, or one that somebody may end at any time.
  datatype Context = Background | Cancellable {
    method Err() returns (done: bool)
      ensures Background? ==> !done
    {
      done := *;
      if Background? {
        done := false;
      }
    }
  }

  function Window(data: seq<byte>): seq<byte> {
    if |data| > OBSERVATION_WINDOW then data[..OBSERVATION_WINDOW] else data
  }

  // A shortest script of this length is within the work caps.
  predicate WithinCaps(lines: nat, distance: int) {
    distance <= MAX_EDIT_DEPTH && lines * distance <= MAX_EDIT_WORK
  }

  // The length of a shortest script, by its longest common subsequence.
  function Distance(a: seq<Line>, b: seq<Line>): int {
    |a| + |b| - 2 * Lcs(a, b)
  }

  // When an uncancelled diff of two sides gives up: exactly on a binary side,
  // too many lines, or a shortest script that is too long for the work caps.
  ghost predicate TooMuch(a: seq<byte>, b: seq<byte>) {
    var la, lb := SplitLines(a), SplitLines(b);
    && a != b && la != [] && lb != []
    && (LooksBinary(a) || LooksBinary(b)
        || |la| + |lb| > MAX_OBSERVED_LINES
        || !WithinCaps(|la| + |lb|, Distance(la, lb)))
  }

  lemma DistanceIsLcs(a: seq<Line>, b: seq<Line>, d: nat)
    requires IsDistance(a, b, d)
    ensures d == Distance(a, b)
  {
    assert a[..|a|] == a && b[..|b|] == b;
    LcsReaches(a, b, |a|, |b|);
    ReachAtLeastLcs(a, b, d, |a|, |b|);
  }

  // While no exit test has passed before round d, the distance is at least d.
  lemma NoneDoneIsFar(a: seq<Line>, b: seq<Line>, d: nat)
    requires NoneDoneBefore(a, b, d)
    ensures d <= Distance(a, b) <= |a| + |b|
  {
    assert a[..|a|] == a && b[..|b|] == b;
    var e := |a| + |b| - 2 * Lcs(a, b);
    LcsReaches(a, b, |a|, |b|);
    CornerIsDone(a, b, e);
  }

  lemma EqualSides(a: seq<Line>)
    ensures MinimalCounts(a, a, 0, 0)
  {
    AllKept(a, |a|);
    MinimalCountsAreLcs(a, a, 0, 0);
    assert a[..|a|] == a;
  }

  lemma {:induction false} AllKept<T>(a: seq<T>, n: nat)
    requires n <= |a|
    ensures Lcs(a[..n], a[..n]) == n
  {
    if n > 0 {
      AllKept(a, n - 1);
      assert a[..n][..n - 1] == a[..n - 1];
    }
  }

  lemma EmptySide(a: seq<Line>, b: seq<Line>)
    requires a == [] || b == []
    ensures MinimalCounts(a, b, |a|, |b|)
  {
    MinimalCountsAreLcs(a, b, |a|, |b|);
  }

  // The array after round d has finished diagonals -d, -d+2, ... below k:
  // those hold round d, their neighbours still hold round d - 1.
  ghost predicate InRound<T>(a: seq<T>, b: seq<T>, d: nat, k: int, offset: int, v: seq<int>)
  {
    && d + 1 <= offset && offset + d + 1 < |v|
    && (d == 0 ==> v[offset + 1] == 0)
    && Holds(a, b, d, k, offset, v)
    && (d > 0 ==> Holds(a, b, d - 1, d, offset, v))
  }

  // The diagonals of round d below k are stored.
  ghost predicate Holds<T>(a: seq<T>, b: seq<T>, d: nat, k: int, offset: int, v: seq<int>)
    requires d <= offset && offset + d < |v|
  {
    forall j {:trigger Visited(d, j)} :: Visited(d, j) && j < k ==> v[offset + j] == Furthest(a, b, d, j)
  }

  // What the search reads from the array to enter diagonal k is Entry.
  lemma EntryFromArray<T>(a: seq<T>, b: seq<T>, d: nat, k: int, offset: int, v: seq<int>)
    requires InRound(a, b, d, k, offset, v) && Visited(d, k)
    ensures 0 < offset + k < |v| - 1
    ensures Entry(a, b, d, k) ==
              if k + d == 0 || (k != d && v[offset + k - 1] < v[offset + k + 1])
              then v[offset + k + 1] else v[offset + k - 1] + 1
  {
    if d > 0 {
      assert k + d != 0 ==> Visited(d - 1, k - 1);
      assert k != d ==> Visited(d - 1, k + 1);
    }
  }

  lemma FirstRound<T>(a: seq<T>, b: seq<T>, offset: int, v: seq<int>)
    requires 1 <= offset && offset + 1 < |v| && v[offset + 1] == 0
    ensures InRound(a, b, 0, 0, offset, v) && NoneDoneBefore(a, b, 0)
  {
  }

  lemma StoreNext<T>(a: seq<T>, b: seq<T>, d: nat, k: int, offset: int, v: seq<int>, x: int)
    requires d <= offset && offset + d < |v| && Visited(d, k) && x == Furthest(a, b, d, k)
    requires Holds(a, b, d, k, offset, v)
    ensures Holds(a, b, d, k + 2, offset, v[offset + k := x])
  {
    forall j {:trigger Visited(d, j)} | Visited(d, j) && j < k + 2 ensures v[offset + k := x][offset + j] == Furthest(a, b, d, j) {
      assert j < k || j == k;
    }
  }

  lemma StoreKeepsLast<T>(a: seq<T>, b: seq<T>, d: nat, k: int, offset: int, v: seq<int>, x: int)
    requires d + 1 <= offset && offset + d + 1 < |v| && Visited(d + 1, k)
    requires Holds(a, b, d, d + 1, offset, v)
    ensures Holds(a, b, d, d + 1, offset, v[offset + k := x])
  {
  }

  lemma RoundStep<T>(a: seq<T>, b: seq<T>, d: nat, k: int, offset: int, v: seq<int>)
    requires InRound(a, b, d, k, offset, v) && Visited(d, k)
    ensures 0 <= offset + k < |v|
    ensures InRound(a, b, d, k + 2, offset, v[offset + k := Furthest(a, b, d, k)])
  {
    StoreNext(a, b, d, k, offset, v, Furthest(a, b, d, k));
    if d > 0 {
      StoreKeepsLast(a, b, d - 1, k, offset, v, Furthest(a, b, d, k));
    }
  }

  lemma NextRound<T>(a: seq<T>, b: seq<T>, d: nat, k: int, offset: int, v: seq<int>)
    requires InRound(a, b, d, k, offset, v) && k > d
    requires d + 2 <= offset && offset + d + 2 < |v|
    ensures InRound(a, b, d + 1, -(d + 1) as int, offset, v)
  {
  }

  ghost predicate NoneDoneInRound<T>(a: seq<T>, b: seq<T>, d: nat, k: int) {
    forall j :: Visited(d, j) && j < k ==> !Done(a, b, d, j)
  }

  lemma RoundOver<T>(a: seq<T>, b: seq<T>, d: nat, k: int)
    requires NoneDoneBefore(a, b, d) && NoneDoneInRound(a, b, d, k) && k > d
    ensures NoneDoneBefore(a, b, d + 1)
  {
  }

  // The exit test on diagonal k, passed or failed.
  lemma ExitTest<T>(a: seq<T>, b: seq<T>, d: nat, k: int, xx: int)
    requires Visited(d, k) && xx == Furthest(a, b, d, k) && NoneDoneInRound(a, b, d, k)
    ensures xx >= |a| && xx - k >= |b| ==> Done(a, b, d, k)
    ensures !(xx >= |a| && xx - k >= |b|) ==> NoneDoneInRound(a, b, d, k + 2)
  {
    forall j | Visited(d, j) && j < k + 2 && !(xx >= |a| && xx - k >= |b|) ensures !Done(a, b, d, j) {
      assert j < k || j == k;
    }
  }

  lemma WorkGrows(lines: nat, d: nat, e: int)
    requires d <= e && lines * d > MAX_EDIT_WORK
    ensures !WithinCaps(lines, e)
  {
    assert lines * d <= lines * e;
  }

  // The loop along equal lines on one diagonal.
  method SlideLoop(ctx: Context, x: LineIndex, y: LineIndex, ghost la: seq<Line>, ghost lb: seq<Line>, n: nat,
            m: nat, x0: nat, y0: nat)
    returns (xx: nat, done: bool)
    requires x.Valid(la) && y.Valid(lb) && n == |la| && m == |lb|
    ensures !done ==> xx == Slide(la, lb, x0, y0)
    ensures ctx.Background? ==> !done
  {
    xx := x0;
    var yy := y0;
    var steps := 0;
    while xx < n && yy < m && x.hash[xx] == y.hash[yy] && x.Line(xx) == y.Line(yy)
      invariant yy - y0 == xx - x0 >= 0
      invariant Slide(la, lb, xx, yy) == Slide(la, lb, x0, y0)
      decreases n - xx
    {
      HashAndBytes(x, y, la, lb, xx, yy);
      xx := xx + 1;
      yy := yy + 1;
      steps := steps + 1;
      if steps % 4096 == 0 {
        done := ctx.Err();
        if done {
          return;
        }
      }
    }
    if xx < n && yy < m {
      HashAndBytes(x, y, la, lb, xx, yy);
    }
    done := false;
  }

  // Where to enter a diagonal, read from its two neighbours in the array.
  method ReadEntry(ghost la: seq<Line>, ghost lb: seq<Line>, d: nat, k: int, offset: int,
            v: array<int>) returns (xx: int)
    requires Visited(d, k) && InRound(la, lb, d, k, offset, v[..])
    ensures xx == Entry(la, lb, d, k)
  {
    var idx := offset + k;
    EntryFromArray(la, lb, d, k, offset, v[..]);
    if k + d == 0 || (k != d && v[idx - 1] < v[idx + 1]) {
      xx := v[idx + 1];
    } else {
      xx := v[idx - 1] + 1;
    }
  }

  // One diagonal of a round: find where to enter it, slide, store.
  method Diagonal(ctx: Context, x: LineIndex, y: LineIndex, ghost la: seq<Line>, ghost lb: seq<Line>, n: nat, m: nat,
                  d: nat, k: int, offset: int, v: array<int>)
    returns (xx: int, done: bool)
    requires x.Valid(la) && y.Valid(lb) && n == |la| && m == |lb|
    requires Visited(d, k) && InRound(la, lb, d, k, offset, v[..])
    modifies v
    ensures !done ==> xx == Furthest(la, lb, d, k) && InRound(la, lb, d, k + 2, offset, v[..])
    ensures ctx.Background? ==> !done
  {
    xx := ReadEntry(la, lb, d, k, offset, v);
    xx, done := SlideLoop(ctx, x, y, la, lb, n, m, xx, xx - k);
    if !done {
      ghost var before := v[..];
      RoundStep(la, lb, d, k, offset, before);
      v[offset + k] := xx;
      assert v[..] == before[offset + k := xx];
    }
  }

  // One round of the search, over diagonals -d, -d+2, ..., d.
  method Round(ctx: Context, x: LineIndex, y: LineIndex, ghost la: seq<Line>, ghost lb: seq<Line>, n: nat, m: nat,
               d: nat, offset: int, v: array<int>)
    returns (found: bool, done: bool)
    requires x.Valid(la) && y.Valid(lb) && n == |la| && m == |lb|
    requires NoneDoneBefore(la, lb, d) && InRound(la, lb, d, -(d as int), offset, v[..])
    modifies v
    ensures found && !done ==> IsDistance(la, lb, d)
    ensures !found && !done ==> NoneDoneBefore(la, lb, d + 1)
    ensures !found && !done && offset + d + 2 < v.Length && d + 2 <= offset ==>
              InRound(la, lb, d + 1, -(d as int) - 1, offset, v[..])
    ensures ctx.Background? ==> !done
  {
    var k: int := -(d as int);
    while k <= d
      invariant -(d as int) <= k <= d + 2 && (k - d) % 2 == 0
      invariant InRound(la, lb, d, k, offset, v[..])
      invariant NoneDoneInRound(la, lb, d, k)
    {
      var xx;
      xx, done := Diagonal(ctx, x, y, la, lb, n, m, d, k, offset, v);
      if done {
        return false, true;
      }
      var yy := xx - k;
      ExitTest(la, lb, d, k, xx);
      if xx >= n && yy >= m {
        FirstDoneIsCorner(la, lb, d, k);
        return true, false;
      }
      k := k + 2;
    }
    RoundOver(la, lb, d, k);
    if offset + d + 2 < v.Length && d + 2 <= offset {
      NextRound(la, lb, d, k, offset, v[..]);
    }
    return false, false;
  }

  // The work cap of one round: past it, no distance from d on is within the caps.
  method OverWork(lines: nat, d: nat, ghost distance: int) returns (over: bool)
    ensures over && d <= distance ==> !WithinCaps(lines, distance)
    ensures !over && d <= MAX_EDIT_DEPTH ==> WithinCaps(lines, d)
  {
    over := lines * d > MAX_EDIT_WORK;
    if over && d <= distance {
      WorkGrows(lines, d, distance);
    }
  }

  // The search itself: the length of a shortest script, unless it gives up.
  method Search(ctx: Context, x: LineIndex, y: LineIndex, ghost la: seq<Line>, ghost lb: seq<Line>, n: nat, m: nat)
    returns (found: bool, d: nat)
    requires x.Valid(la) && y.Valid(lb) && n == |la| && m == |lb|
    ensures found ==> IsDistance(la, lb, d) && WithinCaps(n + m, d)
    ensures ctx.Background? && !found ==> !WithinCaps(n + m, Distance(la, lb))
  {
    var maxD := n + m;
    if maxD > MAX_EDIT_DEPTH {
      maxD := MAX_EDIT_DEPTH;
    }
    var offset := maxD + 1;
    var v := new int[2 * maxD + 3](_ => 0);
    FirstRound(la, lb, offset, v[..]);
    d := 0;
    while d <= maxD
      invariant 0 <= d <= maxD + 1
      invariant NoneDoneBefore(la, lb, d)
      invariant d <= maxD ==> InRound(la, lb, d, -(d as int), offset, v[..])
    {
      NoneDoneIsFar(la, lb, d);
      var over := OverWork(n + m, d, Distance(la, lb));
      if over {
        return false, d;
      }
      if d % 32 == 0 {
        var done := ctx.Err();
        if done {
          return false, d;
        }
      }
      var done;
      found, done := Round(ctx, x, y, la, lb, n, m, d, offset, v);
      if done {
        return false, d;
      }
      if found {
        return;
      }
      d := d + 1;
    }
    NoneDoneIsFar(la, lb, d);
    return false, d;
  }

  method LineDiffCounts(ctx: Context, a0: seq<byte>, b0: seq<byte>) returns (c: LineCounts)
    ensures c.truncated <==> |a0| > OBSERVATION_WINDOW || |b0| > OBSERVATION_WINDOW
    ensures var la, lb := SplitLines(Window(a0)), SplitLines(Window(b0));
            if c.upperBound then c.deleted == |la| && c.added == |lb|
            else MinimalCounts(la, lb, c.deleted, c.added)
    ensures TooMuch(Window(a0), Window(b0)) ==> c.upperBound
    ensures ctx.Background? && c.upperBound ==> TooMuch(Window(a0), Window(b0))
  {
    c := LineCounts(0, 0, |a0| > OBSERVATION_WINDOW || |b0| > OBSERVATION_WINDOW, false);
    var a, b := Window(a0), Window(b0);
    ghost var la, lb := SplitLines(a), SplitLines(b);
    if a == b {
      EqualSides(la);
      return;
    }
    var n := ObservedCountLines(a);
    var m := ObservedCountLines(b);
    if n == 0 {
      EmptySide(la, lb);
      return c.(added := m);
    }
    if m == 0 {
      EmptySide(la, lb);
      return c.(deleted := n);
    }
    var upper := c.(added := m, deleted := n, upperBound := true);
    var binaryA := HasNul(a);
    var binaryB := HasNul(b);
    if binaryA || binaryB || n + m > MAX_OBSERVED_LINES {
      return upper;
    }
    var x := NewLineIndex(a);
    var y := NewLineIndex(b);
    var found, d := Search(ctx, x, y, la, lb, n, m);
    if !found {
      return upper;
    }
    ShortestIsMinimal(la, lb, d);
    DistanceIsLcs(la, lb, d);
    var delta := m - n;
    return c.(added := (d + delta) / 2, deleted := (d - delta) / 2);
  }
}
