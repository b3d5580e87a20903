// What the git index holds for a path, and whether it holds exactly a tree
// (internal/repostate/snapshot.go, stagedEntries and indexDiffersFromTree),
// over parsed listings.
module IndexCheck {
  // One "ls-files --stage" entry, or a line that is not one.
  datatype IndexLine = Entry(path: string, blob: Blob, stage: string) | Malformed

  // One "ls-tree -r" entry.
  datatype TreeLine = Leaf(path: string, blob: Blob)

  datatype Blob = Blob(mode: string, hash: string)

  function Wanted(tree: seq<TreeLine>): map<string, Blob> {
    if tree == [] then map[]
    else
      var e := tree[|tree| - 1];
      Wanted(tree[..|tree| - 1])[e.path := e.blob]
  }

  // The tree's entry of a path is its last line.
  lemma {:induction false} WantedIsLast(tree: seq<TreeLine>, path: string, b: Blob)
    ensures path in Wanted(tree) && Wanted(tree)[path] == b <==>
              exists k :: 0 <= k < |tree| && tree[k] == Leaf(path, b) && forall i :: k < i < |tree| ==> tree[i].path != path
  {
    if tree != [] {
      var n := |tree| - 1;
      WantedIsLast(tree[..n], path, b);
      assert forall i :: 0 <= i < n ==> tree[..n][i] == tree[i];
    }
  }

  predicate Matches(e: IndexLine, want: map<string, Blob>) {
    e.Entry? && e.stage == "0" && e.path in want && want[e.path] == e.blob
  }

  method IndexDiffersFromTree(index: seq<IndexLine>, tree: seq<TreeLine>) returns (differs: bool)
    ensures differs <==> !NoDifference(index, Wanted(tree))
  {
    var want: map<string, Blob> := map[];
    for i := 0 to |tree|
      invariant want == Wanted(tree[..i])
    {
      assert tree[..i + 1][..i] == tree[..i];
      want := want[tree[i].path := tree[i].blob];
    }
    assert tree[..|tree|] == tree;
    var seen := 0;
    for i := 0 to |index|
      invariant seen == i && forall j :: 0 <= j < i ==> Matches(index[j], want)
    {
      if !Matches(index[i], want) {
        return true;
      }
      seen := seen + 1;
    }
    return seen != |want|;
  }

  predicate DistinctPaths(index: seq<IndexLine>) {
    forall i, j :: 0 <= i < j < |index| && index[i].Entry? && index[j].Entry? ==> index[i].path != index[j].path
  }

  // The index and the tree hold the same entries.
  ghost predicate SameEntries(index: seq<IndexLine>, want: map<string, Blob>) {
    && (forall i :: 0 <= i < |index| ==>
          index[i].Entry? && index[i].stage == "0" && index[i].path in want && want[index[i].path] == index[i].blob)
    && (forall p :: p in want ==> exists i :: 0 <= i < |index| && index[i].Entry? && index[i].path == p)
  }

  predicate NoDifference(index: seq<IndexLine>, want: map<string, Blob>) {
    (forall i :: 0 <= i < |index| ==> Matches(index[i], want)) && |index| == |want|
  }

  function PathsOf(index: seq<IndexLine>): (paths: set<string>)
    ensures forall p :: p in paths <==> exists i :: 0 <= i < |index| && index[i].Entry? && index[i].path == p
  {
    set i | 0 <= i < |index| && index[i].Entry? :: index[i].path
  }

  lemma PathsSnoc(index: seq<IndexLine>, e: IndexLine)
    requires e.Entry? && forall i :: 0 <= i < |index| ==> index[i].Entry?
    ensures PathsOf(index + [e]) == PathsOf(index) + {e.path}
    ensures DistinctPaths(index + [e]) <==> DistinctPaths(index) && e.path !in PathsOf(index)
  {
    var more := index + [e];
    assert more[|index|] == e;
    forall i | 0 <= i < |index| ensures more[i] == index[i] {}
    if DistinctPaths(more) {
      assert DistinctPaths(index);
    }
  }

  // A list names as many paths as it is long exactly when none repeats.
  lemma {:induction false} PathCount(index: seq<IndexLine>)
    requires forall i :: 0 <= i < |index| ==> index[i].Entry?
    ensures |PathsOf(index)| <= |index|
    ensures |PathsOf(index)| == |index| <==> DistinctPaths(index)
  {
    if index != [] {
      var n := |index| - 1;
      PathCount(index[..n]);
      PathsSnoc(index[..n], index[n]);
      assert index == index[..n] + [index[n]];
    }
  }

  lemma SubsetOfSameSize(a: set<string>, b: set<string>)
    requires a <= b
    ensures a == b <==> |a| == |b|
  {
    if a != b {
      var x :| x in b && x !in a;
      assert |b| == |a| + |b - a|;
      assert x in b - a;
    }
  }

  // With one entry a path, as git keeps its index, no difference is reported
  // exactly when the entries are the same: counting is what rules out a path
  // the index dropped. That one entry is needed both ways. No difference
  // reported, the entries are the same only if no path is listed twice; and
  // with the same entries, no difference is reported only then.
  lemma NoDifferenceIsSameEntries(index: seq<IndexLine>, want: map<string, Blob>)
    ensures DistinctPaths(index) ==> (NoDifference(index, want) <==> SameEntries(index, want))
    ensures NoDifference(index, want) ==> (SameEntries(index, want) <==> DistinctPaths(index))
    ensures SameEntries(index, want) ==> (NoDifference(index, want) <==> DistinctPaths(index))
  {
    if forall i :: 0 <= i < |index| ==> Matches(index[i], want) {
      PathCount(index);
      SubsetOfSameSize(PathsOf(index), want.Keys);
      assert |want.Keys| == |want|;
      assert SameEntries(index, want) <==> PathsOf(index) == want.Keys;
    }
  }

  // ---- the entries of each path ----

  // "<mode> <object> <stage>" before the tab and the path after it, or a line
  // with no tab.
  datatype StagedLine = Staged(meta: string, path: string) | NoTab

  // The entries of one path, in the index's order.
  function MetasOf(index: seq<StagedLine>, path: string): seq<string> {
    if index == [] then []
    else
      var e := index[|index| - 1];
      MetasOf(index[..|index| - 1], path) + if e.Staged? && e.path == path then [e.meta] else []
  }

  lemma {:induction false} MetasConcat(a: seq<StagedLine>, b: seq<StagedLine>, path: string)
    ensures MetasOf(a + b, path) == MetasOf(a, path) + MetasOf(b, path)
  {
    if b == [] {
      assert a + b == a;
    } else {
      var init := b[..|b| - 1];
      assert (a + b)[..|a + b| - 1] == a + init;
      MetasConcat(a, init, path);
    }
  }

  function Joined(metas: seq<string>): string {
    if metas == [] then ""
    else
      var before := Joined(metas[..|metas| - 1]);
      (if before != "" then before + ";" else before) + metas[|metas| - 1]
  }

  function EntryOf(out: map<string, string>, path: string): string {
    if path in out then out[path] else ""
  }

  method StagedEntries(index: seq<StagedLine>, paths: set<string>) returns (out: map<string, string>)
    ensures forall p :: p in paths ==> EntryOf(out, p) == Joined(MetasOf(index, p))
    ensures out.Keys <= paths
  {
    out := map[];
    for i := 0 to |index|
      invariant forall p :: p in paths ==> EntryOf(out, p) == Joined(MetasOf(index[..i], p))
      invariant out.Keys <= paths
    {
      assert index[..i + 1][..i] == index[..i];
      var e := index[i];
      forall p ensures Joined(MetasOf(index[..i + 1], p)) == After(Joined(MetasOf(index[..i], p)), e, p) {
        OneLineMore(index[..i + 1], p);
      }
      if !e.Staged? || e.path !in paths {
        continue;
      }
      var entry := EntryOf(out, e.path);
      if entry != "" {
        entry := entry + ";";
      }
      out := out[e.path := entry + e.meta];
    }
    assert index[..|index|] == index;
  }

  function After(entry: string, e: StagedLine, path: string): string {
    if e.Staged? && e.path == path then (if entry != "" then entry + ";" else entry) + e.meta else entry
  }

  lemma JoinedSnoc(metas: seq<string>, meta: string)
    ensures Joined(metas + [meta]) == (if Joined(metas) != "" then Joined(metas) + ";" else Joined(metas)) + meta
  {
    assert (metas + [meta])[..|metas|] == metas;
  }

  lemma OneLineMore(index: seq<StagedLine>, path: string)
    requires index != []
    ensures Joined(MetasOf(index, path)) == After(Joined(MetasOf(index[..|index| - 1], path)), index[|index| - 1], path)
  {
    var metas, e := MetasOf(index[..|index| - 1], path), index[|index| - 1];
    if e.Staged? && e.path == path {
      JoinedSnoc(metas, e.meta);
    } else {
      assert metas + [] == metas;
    }
  }

  predicate Plain(meta: string) {
    meta != "" && ';' !in meta
  }

  // What follows the last semicolon.
  function LastOf(s: string): string {
    if s == "" || s[|s| - 1] == ';' then "" else LastOf(s[..|s| - 1]) + [s[|s| - 1]]
  }

  lemma {:induction false} LastOfJoin(a: string, x: string)
    requires ';' !in x
    ensures LastOf(a + ";" + x) == x
  {
    var s := a + ";" + x;
    if x == "" {
      assert s[|s| - 1] == ';';
    } else {
      var init := x[..|x| - 1];
      assert s[..|s| - 1] == a + ";" + init && s[|s| - 1] == x[|x| - 1] && x[|x| - 1] in x;
      LastOfJoin(a, init);
      assert x == init + [x[|x| - 1]];
    }
  }

  lemma LastPiece(a: string, x: string, b: string, y: string)
    requires ';' !in x && ';' !in y && a + ";" + x == b + ";" + y
    ensures a == b && x == y
  {
    LastOfJoin(a, x);
    LastOfJoin(b, y);
    assert (a + ";" + x)[..|a|] == a && (b + ";" + y)[..|b|] == b;
  }

  lemma {:induction false} JoinedNotEmpty(metas: seq<string>)
    requires metas != [] && forall i :: 0 <= i < |metas| ==> Plain(metas[i])
    ensures Joined(metas) != ""
  {
    if |metas| > 1 {
      JoinedNotEmpty(metas[..|metas| - 1]);
    }
  }

  lemma JoinedLast(metas: seq<string>)
    requires metas != [] && forall i :: 0 <= i < |metas| ==> Plain(metas[i])
    ensures var n := |metas| - 1;
            Joined(metas) == if n == 0 then metas[0] else Joined(metas[..n]) + ";" + metas[n]
  {
    if |metas| > 1 {
      JoinedNotEmpty(metas[..|metas| - 1]);
    }
  }

  lemma MoreThanOne(metas: seq<string>, x: string)
    requires |metas| > 1 && forall i :: 0 <= i < |metas| ==> Plain(metas[i])
    requires Plain(x)
    ensures Joined(metas) != x
  {
    JoinedLast(metas);
    var before := Joined(metas[..|metas| - 1]);
    assert Joined(metas)[|before|] == ';';
  }

  // The joined text names the entries: git's fields hold no semicolon.
  lemma {:induction false} JoinedTellsEntries(a: seq<string>, b: seq<string>)
    requires forall i :: 0 <= i < |a| ==> Plain(a[i])
    requires forall i :: 0 <= i < |b| ==> Plain(b[i])
    ensures Joined(a) == Joined(b) <==> a == b
    decreases |a| + |b|
  {
    if a == [] || b == [] {
      if a != [] { JoinedNotEmpty(a); }
      if b != [] { JoinedNotEmpty(b); }
    } else if |a| == 1 {
      JoinedLast(a);
      JoinedLast(b);
      if |b| > 1 { MoreThanOne(b, a[0]); }
    } else if |b| == 1 {
      JoinedLast(b);
      MoreThanOne(a, b[0]);
    } else if Joined(a) == Joined(b) {
      JoinedLast(a);
      JoinedLast(b);
      var m, n := |a| - 1, |b| - 1;
      LastPiece(Joined(a[..m]), a[m], Joined(b[..n]), b[n]);
      JoinedTellsEntries(a[..m], b[..n]);
      assert a == a[..m] + [a[m]] && b == b[..n] + [b[n]];
    }
  }
}
