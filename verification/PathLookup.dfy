// Resolving a store path component by component (internal/host/store.go,
// lookupDirs), over an abstract file system: what each path names.
module PathLookup {
  // A path is its component names from the root.
  type Path = seq<string>

  datatype Node = Absent | Plain | Link(absolute: bool, target: seq<string>)

  datatype Outcome = Failed | TooManyLinks | Resolved(dirs: set<Path>, path: Path)

  const MAX_HOPS: nat := 40

  function NodeAt(fs: map<Path, Node>, p: Path): Node {
    if p in fs then fs[p] else Absent
  }

  predicate Skipped(c: string) {
    c == "" || c == "."
  }

  function Parent(p: Path): Path {
    if p == [] then [] else p[..|p| - 1]
  }

  // The directory the rest of the walk starts from after a link in cur.
  function After(link: Node, cur: Path): Path
    requires link.Link?
  {
    if link.absolute then [] else cur
  }

  // The walk from cur through rest, having already followed hops links.
  function Walk(fs: map<Path, Node>, cur: Path, rest: seq<string>, hops: nat): Outcome
    requires hops <= MAX_HOPS
    decreases MAX_HOPS - hops, |rest|
  {
    if rest == [] then Resolved({}, cur)
    else if Skipped(rest[0]) then Walk(fs, cur, rest[1..], hops)
    else if rest[0] == ".." then Walk(fs, Parent(cur), rest[1..], hops)
    else
      var node := NodeAt(fs, cur + [rest[0]]);
      match node
      case Absent => Failed
      case Plain => Visiting(cur, Walk(fs, cur + [rest[0]], rest[1..], hops))
      case Link(absolute, target) =>
        if hops + 1 > MAX_HOPS then TooManyLinks
        else Visiting(cur, Walk(fs, After(node, cur), target + rest[1..], hops + 1))
  }

  function Visiting(dir: Path, o: Outcome): Outcome {
    if o.Resolved? then o.(dirs := o.dirs + {dir}) else o
  }

  function AddDirs(dirs: set<Path>, o: Outcome): Outcome {
    if o.Resolved? then o.(dirs := o.dirs + dirs) else o
  }

  // It terminates: each link followed uses one of the hops, and between two
  // links every component is consumed.
  method LookupDirs(fs: map<Path, Node>, abs: seq<string>) returns (out: Outcome)
    ensures out == Walk(fs, [], abs, 0)
  {
    var dirs: set<Path>, rest, cur: Path, hops := {}, abs, [], 0;
    while |rest| > 0
      invariant 0 <= hops <= MAX_HOPS
      invariant Walk(fs, [], abs, 0) == AddDirs(dirs, Walk(fs, cur, rest, hops))
      decreases MAX_HOPS - hops, |rest|
    {
      var c := rest[0];
      if c == "" || c == "." {
        rest := rest[1..];
        continue;
      }
      if c == ".." {
        cur, rest := Parent(cur), rest[1..];
        continue;
      }
      dirs := dirs + {cur};
      var next := cur + [c];
      var node := NodeAt(fs, next);
      if node.Absent? {
        return Failed;
      }
      if node.Plain? {
        cur, rest := next, rest[1..];
        continue;
      }
      hops := hops + 1;
      if hops > MAX_HOPS {
        return TooManyLinks;
      }
      cur, rest := After(node, cur), node.target + rest[1..];
    }
    return Resolved(dirs, cur);
  }

  // No component of the path is a link, and every one of them is there.
  predicate Real(fs: map<Path, Node>, p: Path) {
    forall i :: 0 < i <= |p| ==> NodeAt(fs, p[..i]).Plain?
  }

  lemma RealExtends(fs: map<Path, Node>, p: Path, c: string)
    requires Real(fs, p) && NodeAt(fs, p + [c]).Plain?
    ensures Real(fs, p + [c])
  {
    var q := p + [c];
    forall i | 0 < i <= |q| ensures NodeAt(fs, q[..i]).Plain? {
      assert i <= |p| ==> q[..i] == p[..i];
      assert q[..|q|] == q;
    }
  }

  lemma RealParent(fs: map<Path, Node>, p: Path)
    requires Real(fs, p)
    ensures Real(fs, Parent(p))
  {
    forall i | 0 < i <= |Parent(p)| ensures NodeAt(fs, Parent(p)[..i]).Plain? {
      assert Parent(p)[..i] == p[..i];
    }
  }

  // What it resolves to holds no links.
  lemma {:induction false} ResolvedIsReal(fs: map<Path, Node>, cur: Path, rest: seq<string>, hops: nat)
    requires hops <= MAX_HOPS && Real(fs, cur) && Walk(fs, cur, rest, hops).Resolved?
    ensures Real(fs, Walk(fs, cur, rest, hops).path)
    decreases MAX_HOPS - hops, |rest|
  {
    if rest == [] {
    } else if Skipped(rest[0]) {
      ResolvedIsReal(fs, cur, rest[1..], hops);
    } else if rest[0] == ".." {
      RealParent(fs, cur);
      ResolvedIsReal(fs, Parent(cur), rest[1..], hops);
    } else {
      var node := NodeAt(fs, cur + [rest[0]]);
      if node.Plain? {
        RealExtends(fs, cur, rest[0]);
        ResolvedIsReal(fs, cur + [rest[0]], rest[1..], hops);
      } else {
        ResolvedIsReal(fs, After(node, cur), node.target + rest[1..], hops + 1);
      }
    }
  }

  // The two file systems hold the same entries in every one of these directories.
  ghost predicate AgreeIn(fs: map<Path, Node>, other: map<Path, Node>, dirs: set<Path>) {
    forall d, c: string :: d in dirs ==> NodeAt(fs, d + [c]) == NodeAt(other, d + [c])
  }

  // The directories it returns are all that matters: as long as nothing in
  // them changes, the path resolves to the same place through the same
  // directories, whatever changes elsewhere.
  lemma {:induction false} OnlyDirsMatter(fs: map<Path, Node>, other: map<Path, Node>, cur: Path, rest: seq<string>,
            hops: nat)
    requires hops <= MAX_HOPS && Walk(fs, cur, rest, hops).Resolved?
    requires AgreeIn(fs, other, Walk(fs, cur, rest, hops).dirs)
    ensures Walk(other, cur, rest, hops) == Walk(fs, cur, rest, hops)
    decreases MAX_HOPS - hops, |rest|
  {
    if rest == [] {
    } else if Skipped(rest[0]) {
      OnlyDirsMatter(fs, other, cur, rest[1..], hops);
    } else if rest[0] == ".." {
      OnlyDirsMatter(fs, other, Parent(cur), rest[1..], hops);
    } else {
      var node := NodeAt(fs, cur + [rest[0]]);
      assert cur in Walk(fs, cur, rest, hops).dirs;
      assert NodeAt(other, cur + [rest[0]]) == node;
      if node.Plain? {
        OnlyDirsMatter(fs, other, cur + [rest[0]], rest[1..], hops);
      } else {
        OnlyDirsMatter(fs, other, After(node, cur), node.target + rest[1..], hops + 1);
      }
    }
  }

  // No component is one the walk treats specially.
  predicate Named(p: seq<string>) {
    forall i :: 0 <= i < |p| ==> !Skipped(p[i]) && p[i] != ".."
  }

  // The proper ancestors of p from its first n names on.
  function Ancestors(p: Path, n: nat): (dirs: set<Path>)
    requires n <= |p|
    ensures forall q :: q in dirs <==> n <= |q| < |p| && q == p[..|q|]
    decreases |p| - n
  {
    if n == |p| then {} else {p[..n]} + Ancestors(p, n + 1)
  }

  // Resolving what was resolved changes nothing and follows no link.
  lemma {:induction false} RealResolvesToItself(fs: map<Path, Node>, p: Path, n: nat, hops: nat)
    requires hops <= MAX_HOPS && n <= |p| && Real(fs, p) && Named(p)
    ensures Walk(fs, p[..n], p[n..], hops) == Resolved(Ancestors(p, n), p)
    decreases |p| - n
  {
    if n == |p| {
      assert p[..n] == p && p[n..] == [];
    } else {
      assert p[n..][0] == p[n] && p[n..][1..] == p[n + 1..] && p[..n] + [p[n]] == p[..n + 1];
      RealResolvesToItself(fs, p, n + 1, hops);
    }
  }

  // ---- what each component means ----

  function PathOf(o: Outcome): Outcome {
    if o.Resolved? then Resolved({}, o.path) else o
  }

  // Walking a real path first changes nothing but the directories visited.
  lemma {:induction false} WalkFromReal(fs: map<Path, Node>, p: Path, n: nat, rest: seq<string>, hops: nat)
    requires hops <= MAX_HOPS && Real(fs, p) && Named(p) && n <= |p|
    ensures PathOf(Walk(fs, p[..n], p[n..] + rest, hops)) == PathOf(Walk(fs, p, rest, hops))
    decreases |p| - n
  {
    if n == |p| {
      assert p[..n] == p && p[n..] + rest == rest;
    } else {
      assert p[..n + 1] == p[..n] + [p[n]];
      assert (p[n..] + rest)[0] == p[n] && (p[n..] + rest)[1..] == p[n + 1..] + rest;
      WalkFromReal(fs, p, n + 1, rest, hops);
    }
  }

  // After a real path: an empty component or "." names it again, ".." its
  // parent, and the root is its own parent.
  lemma DotsMean(fs: map<Path, Node>, p: Path, c: string, more: seq<string>, hops: nat)
    requires hops <= MAX_HOPS && Real(fs, p) && Named(p) && c in {"", ".", ".."}
    ensures PathOf(Walk(fs, [], p + ([c] + more), hops))
            == PathOf(Walk(fs, [], (if c == ".." && p != [] then p[..|p| - 1] else p) + more, hops))
  {
    var to := if c == ".." && p != [] then p[..|p| - 1] else p;
    RealPrefix(fs, p, to);
    WalkFromReal(fs, p, 0, [c] + more, hops);
    WalkFromReal(fs, to, 0, more, hops);
    assert p[..0] == [] && p[0..] == p && to[..0] == [] && to[0..] == to;
    assert ([c] + more)[1..] == more;
  }

  lemma RealPrefix(fs: map<Path, Node>, p: Path, to: Path)
    requires Real(fs, p) && Named(p) && to <= p
    ensures Real(fs, to) && Named(to)
  {
    forall i | 0 < i <= |to| ensures NodeAt(fs, to[..i]).Plain? {
      assert to[..i] == p[..i];
    }
  }

  // A component that names nothing fails, and one that names a link stands for
  // the link's target: from the root if that is absolute, and in the link's
  // directory otherwise, at the cost of one of the hops there are.
  lemma LinkMeansTarget(fs: map<Path, Node>, p: Path, c: string, more: seq<string>, hops: nat)
    requires hops <= MAX_HOPS && Real(fs, p) && Named(p + [c])
    ensures
      var out := PathOf(Walk(fs, [], p + ([c] + more), hops));
      match NodeAt(fs, p + [c])
      case Absent => out == Failed
      case Plain => out == PathOf(Walk(fs, p + [c], more, hops))
      case Link(absolute, target) =>
        if hops == 40 then out == TooManyLinks
        else out == PathOf(Walk(fs, [], (if absolute then target else p + target) + more, hops + 1))
  {
    assert (p + [c])[|p|] == c;
    assert Named(p) by {
      assert forall i :: 0 <= i < |p| ==> (p + [c])[i] == p[i];
    }
    WalkFromReal(fs, p, 0, [c] + more, hops);
    assert p[..0] == [] && p[0..] == p && ([c] + more)[1..] == more;
    var node := NodeAt(fs, p + [c]);
    if node.Link? && hops < MAX_HOPS && !node.absolute {
      WalkFromReal(fs, p, 0, node.target + more, hops + 1);
      assert p + node.target + more == p + (node.target + more);
    }
  }
}
