// The byte stream hashed into a worktree digest (internal/repostate/snapshot.go,
// digestWorktree): it can be decoded in only one way, so equal digests mean
// equal worktrees.
module WorktreeDigest {
  type byte = x: int | 0 <= x < 256

  datatype Option<+T> = None | Some(value: T)

  // One worktree path as it is read. Exec is the owner execute bit.
  datatype Entry = Absent | Symlink(target: seq<byte>) | Regular(exec: bool, data: seq<byte>) | Directory | Special

  datatype Item = Item(path: seq<byte>, staged: seq<byte>, entry: Entry)

  const NUL: byte := 0
  const DOMAIN: seq<byte> := [104, 109, 97, 45, 119, 111, 114, 107, 116, 114, 101, 101, 45, 118, 56, 0]  // hma-worktree-v8
  const PATH_TAG: seq<byte> := [112, 97, 116, 104, 0]
  const INDEX_TAG: seq<byte> := [105, 110, 100, 101, 120, 0]
  const ABSENT_TAG: seq<byte> := [97, 98, 115, 101, 110, 116, 0]
  const SYMLINK_TAG: seq<byte> := [115, 121, 109, 108, 105, 110, 107, 0]
  const EXECUTABLE_TAG: seq<byte> := [101, 120, 101, 99, 117, 116, 97, 98, 108, 101, 0]
  const REGULAR_TAG: seq<byte> := [114, 101, 103, 117, 108, 97, 114, 0]
  const LENGTH_LIMIT := 0x1_0000_0000_0000_0000

  // n in k big-endian bytes, keeping the low ones when it does not fit.
  function BigEndian(n: nat, k: nat): (r: seq<byte>)
    ensures |r| == k
  {
    if k == 0 then [] else BigEndian(n / 256, k - 1) + [n % 256]
  }

  function Value(b: seq<byte>): nat {
    if b == [] then 0 else Value(b[..|b| - 1]) * 256 + b[|b| - 1]
  }

  function Power(k: nat): nat {
    if k == 0 then 1 else 256 * Power(k - 1)
  }

  lemma {:induction false} BigEndianValue(n: nat, k: nat)
    requires n < Power(k)
    ensures Value(BigEndian(n, k)) == n
  {
    if k > 0 {
      BigEndianValue(n / 256, k - 1);
      var b := BigEndian(n, k);
      assert b[..|b| - 1] == BigEndian(n / 256, k - 1);
    }
  }

  lemma LengthFits(n: nat)
    requires n < LENGTH_LIMIT
    ensures Value(BigEndian(n, 8)) == n
  {
    assert Power(2) == 65536;
    assert Power(4) == 65536 * 65536;
    assert Power(6) == 65536 * 65536 * 65536;
    assert Power(8) == LENGTH_LIMIT;
    BigEndianValue(n, 8);
  }

  // writeFramed: eight length bytes, then the data.
  function Frame(data: seq<byte>): seq<byte> {
    BigEndian(|data|, 8) + data
  }

  predicate Readable(e: Entry) {
    !e.Directory? && !e.Special?
  }

  // Nothing is written for a directory or a special file: the digest fails.
  function EntryBytes(e: Entry): seq<byte> {
    match e
    case Directory => []
    case Special => []
    case Absent => ABSENT_TAG
    case Symlink(target) => SYMLINK_TAG + Frame(target)
    case Regular(exec, data) => (if exec then EXECUTABLE_TAG else REGULAR_TAG) + Frame(data)
  }

  function ItemBytes(i: Item): seq<byte> {
    PATH_TAG + (Frame(i.path) + (INDEX_TAG + (Frame(i.staged) + EntryBytes(i.entry))))
  }

  function ItemsBytes(items: seq<Item>): seq<byte> {
    if items == [] then [] else ItemBytes(items[0]) + ItemsBytes(items[1..])
  }

  function Stream(head: seq<byte>, items: seq<Item>): seq<byte> {
    DOMAIN + (head + ([NUL] + ItemsBytes(items)))
  }

  // ------------------------------------------------------------------
  // Writing the stream.
  // ------------------------------------------------------------------

  class Hash {
    var written: seq<byte>

    constructor ()
      ensures written == []
    {
      written := [];
    }

    method Write(data: seq<byte>)
      modifies this
      ensures written == old(written) + data
    {
      written := written + data;
    }
  }

  method WriteFramed(h: Hash, data: seq<byte>)
    modifies h
    ensures h.written == old(h.written) + Frame(data)
  {
    h.Write(BigEndian(|data|, 8));
    h.Write(data);
  }

  // A worktree, as either way of reading it sees it.
  type Worktree = seq<byte> -> Entry

  function StagedAt(staged: map<seq<byte>, seq<byte>>, path: seq<byte>): seq<byte> {
    if path in staged then staged[path] else []
  }

  function ItemAt(tree: Worktree, staged: map<seq<byte>, seq<byte>>, path: seq<byte>): Item {
    Item(path, StagedAt(staged, path), tree(path))
  }

  function ItemsAt(tree: Worktree, staged: map<seq<byte>, seq<byte>>, paths: seq<seq<byte>>): seq<Item> {
    if paths == [] then []
    else ItemsAt(tree, staged, paths[..|paths| - 1]) + [ItemAt(tree, staged, paths[|paths| - 1])]
  }

  // What an earlier read of the same paths recorded still holds.
  ghost predicate Unchanged(tree: Worktree, paths: seq<seq<byte>>, entries: map<seq<byte>, Entry>) {
    forall i :: 0 <= i < |paths| && paths[i] in entries ==> entries[paths[i]] == tree(paths[i])
  }

  ghost predicate AllReadable(tree: Worktree, paths: seq<seq<byte>>) {
    forall i :: 0 <= i < |paths| ==> Readable(tree(paths[i]))
  }

  lemma {:induction false} ItemsSnoc(items: seq<Item>, i: Item)
    ensures ItemsBytes(items + [i]) == ItemsBytes(items) + ItemBytes(i)
  {
    if items == [] {
      assert items + [i] == [i];
      assert ItemsBytes([i]) == ItemBytes(i) + [];
    } else {
      assert (items + [i])[1..] == items[1..] + [i];
      ItemsSnoc(items[1..], i);
      Assoc(ItemBytes(items[0]), ItemsBytes(items[1..]), ItemBytes(i));
    }
  }

  lemma Assoc(a: seq<byte>, b: seq<byte>, c: seq<byte>)
    ensures (a + b) + c == a + (b + c)
  {
  }

  // The reader branch: one read, recorded and compared with an earlier record.
  method WriteReadEntry(h: Hash, e: Entry, path: seq<byte>, entries: map<seq<byte>, Entry>)
    returns (ok: bool, out: map<seq<byte>, Entry>)
    modifies h
    ensures ok <==> Readable(e) && (path in entries ==> entries[path] == e)
    ensures ok ==> h.written == old(h.written) + EntryBytes(e) && out == entries[path := e]
  {
    out := entries;
    if path in entries && entries[path] != e {
      return false, out;
    }
    out := entries[path := e];
    match e {
      case Absent =>
        h.Write(ABSENT_TAG);
      case Symlink(target) =>
        h.Write(SYMLINK_TAG);
        WriteFramed(h, target);
        Assoc(old(h.written), SYMLINK_TAG, Frame(target));
      case Regular(exec, data) =>
        h.Write(if exec then EXECUTABLE_TAG else REGULAR_TAG);
        WriteFramed(h, data);
        Assoc(old(h.written), if exec then EXECUTABLE_TAG else REGULAR_TAG, Frame(data));
      case _ =>
        return false, out;
    }
    return true, out;
  }

  // The direct branch: the path is read by name and nothing is recorded.
  method WriteDirectEntry(h: Hash, e: Entry) returns (ok: bool)
    modifies h
    ensures ok <==> Readable(e)
    ensures ok ==> h.written == old(h.written) + EntryBytes(e)
  {
    if e.Absent? {
      h.Write(ABSENT_TAG);
    } else if e.Symlink? {
      h.Write(SYMLINK_TAG);
      WriteFramed(h, e.target);
      Assoc(old(h.written), SYMLINK_TAG, Frame(e.target));
    } else if e.Regular? {
      if e.exec {
        h.Write(EXECUTABLE_TAG);
      } else {
        h.Write(REGULAR_TAG);
      }
      WriteFramed(h, e.data);
      Assoc(old(h.written), if e.exec then EXECUTABLE_TAG else REGULAR_TAG, Frame(e.data));
    } else {
      return false;
    }
    return true;
  }

  // out is entries with what was read at these paths recorded over it.
  ghost predicate Recorded(out: map<seq<byte>, Entry>, entries: map<seq<byte>, Entry>, tree: Worktree,
            paths: seq<seq<byte>>) {
    && (forall p :: p in out <==> p in entries || p in paths)
    && (forall p :: p in out ==> out[p] == if p in paths then tree(p) else entries[p])
  }

  // One path: its name, its staged entry, and what is there.
  method WriteItem(h: Hash, path: seq<byte>, staged: map<seq<byte>, seq<byte>>, tree: Worktree, reader: bool,
            entries: map<seq<byte>, Entry>)
    returns (ok: bool, out: map<seq<byte>, Entry>)
    modifies h
    ensures ok <==> Readable(tree(path)) && (reader && path in entries ==> entries[path] == tree(path))
    ensures ok ==> h.written == old(h.written) + ItemBytes(ItemAt(tree, staged, path))
    ensures ok ==> out == if reader then entries[path := tree(path)] else entries
  {
    out := entries;
    h.Write(PATH_TAG);
    WriteFramed(h, path);
    h.Write(INDEX_TAG);
    WriteFramed(h, StagedAt(staged, path));
    if reader {
      ok, out := WriteReadEntry(h, tree(path), path, entries);
    } else {
      ok := WriteDirectEntry(h, tree(path));
    }
    Flatten(old(h.written), PATH_TAG, Frame(path), INDEX_TAG, Frame(StagedAt(staged, path)), EntryBytes(tree(path)));
  }

  lemma RecordNext(out: map<seq<byte>, Entry>, entries: map<seq<byte>, Entry>, tree: Worktree,
            paths: seq<seq<byte>>, path: seq<byte>)
    requires Recorded(out, entries, tree, paths)
    ensures Recorded(out[path := tree(path)], entries, tree, paths + [path])
    ensures Unchanged(tree, paths, entries) ==>
              (Unchanged(tree, paths + [path], entries) <==> (path in out ==> out[path] == tree(path)))
  {
    if Unchanged(tree, paths, entries) && path in entries && path in paths {
      var i :| 0 <= i < |paths| && paths[i] == path;
    }
    if Unchanged(tree, paths + [path], entries) && path in out {
      assert (paths + [path])[|paths|] == path;
    }
  }

  // What has been written and recorded after these paths.
  ghost predicate Written(bytes: seq<byte>, start: seq<byte>, out: map<seq<byte>, Entry>, paths: seq<seq<byte>>,
                          staged: map<seq<byte>, seq<byte>>, tree: Worktree, reader: bool, entries: map<seq<byte>, Entry>) {
    && bytes == start + ItemsBytes(ItemsAt(tree, staged, paths))
    && AllReadable(tree, paths)
    && (reader ==> Unchanged(tree, paths, entries) && Recorded(out, entries, tree, paths))
    && (!reader ==> out == entries)
  }

  lemma WrittenNext(bytes: seq<byte>, start: seq<byte>, out: map<seq<byte>, Entry>, paths: seq<seq<byte>>,
            path: seq<byte>,
                    staged: map<seq<byte>, seq<byte>>, tree: Worktree, reader: bool, entries: map<seq<byte>, Entry>)
    requires Written(bytes, start, out, paths, staged, tree, reader, entries)
    ensures Readable(tree(path)) && (reader && path in out ==> out[path] == tree(path)) ==>
              Written(bytes + ItemBytes(ItemAt(tree, staged, path)), start, if reader then out[path := tree(path)] else out,
                      paths + [path], staged, tree, reader, entries)
    ensures !(Readable(tree(path)) && (reader && path in out ==> out[path] == tree(path))) ==>
              !AllReadable(tree, paths + [path]) || (reader && !Unchanged(tree, paths + [path], entries))
  {
    assert (paths + [path])[..|paths|] == paths && (paths + [path])[|paths|] == path;
    ItemsSnoc(ItemsAt(tree, staged, paths), ItemAt(tree, staged, path));
    Assoc(start, ItemsBytes(ItemsAt(tree, staged, paths)), ItemBytes(ItemAt(tree, staged, path)));
    if reader {
      RecordNext(out, entries, tree, paths, path);
    }
  }

  // digestWorktree, up to the hash. With or without a reader the same stream is
  // written for the same worktree; with one, it also fails when a path no
  // longer reads as it was recorded.
  method WriteWorktree(h: Hash, head: seq<byte>, paths: seq<seq<byte>>, staged: map<seq<byte>, seq<byte>>,
            tree: Worktree,
                       reader: bool, entries: map<seq<byte>, Entry>)
    returns (ok: bool, out: map<seq<byte>, Entry>)
    requires h.written == []
    modifies h
    ensures ok <==> AllReadable(tree, paths) && (reader ==> Unchanged(tree, paths, entries))
    ensures ok ==> h.written == Stream(head, ItemsAt(tree, staged, paths))
    ensures ok ==> if reader then Recorded(out, entries, tree, paths) else out == entries
  {
    out := entries;
    h.Write(Header(head));
    ghost var start := Header(head);
    assert h.written == start;
    NothingWritten(start, staged, tree, reader, entries);
    assert paths[..0] == [];
    for n := 0 to |paths|
      invariant Written(h.written, start, out, paths[..n], staged, tree, reader, entries)
    {
      assert paths[..n + 1] == paths[..n] + [paths[n]];
      WrittenNext(h.written, start, out, paths[..n], paths[n], staged, tree, reader, entries);
      ok, out := WriteItem(h, paths[n], staged, tree, reader, out);
      if !ok {
        Prefixes(tree, paths, entries, n + 1);
        return;
      }
    }
    assert paths[..|paths|] == paths;
    StreamIs(head, ItemsAt(tree, staged, paths));
    ok := true;
  }

  function Header(head: seq<byte>): seq<byte> {
    DOMAIN + (head + [NUL])
  }

  lemma StreamIs(head: seq<byte>, items: seq<Item>)
    ensures Stream(head, items) == Header(head) + ItemsBytes(items)
  {
    Assoc(head, [NUL], ItemsBytes(items));
    Assoc(DOMAIN, head + [NUL], ItemsBytes(items));
  }

  lemma NothingWritten(start: seq<byte>, staged: map<seq<byte>, seq<byte>>, tree: Worktree, reader: bool,
            entries: map<seq<byte>, Entry>)
    ensures Written(start, start, entries, [], staged, tree, reader, entries)
  {
  }

  lemma Prefixes(tree: Worktree, paths: seq<seq<byte>>, entries: map<seq<byte>, Entry>, n: nat)
    requires n <= |paths|
    ensures AllReadable(tree, paths) ==> AllReadable(tree, paths[..n])
    ensures Unchanged(tree, paths, entries) ==> Unchanged(tree, paths[..n], entries)
  {
  }

  lemma Flatten(s: seq<byte>, a: seq<byte>, b: seq<byte>, c: seq<byte>, d: seq<byte>, e: seq<byte>)
    ensures s + a + b + c + d + e == s + (a + (b + (c + (d + e))))
  {
  }

  // ------------------------------------------------------------------
  // Reading the stream back.
  // ------------------------------------------------------------------

  // The bytes of one frame, and what follows it.
  function Unframe(s: seq<byte>): Option<(seq<byte>, seq<byte>)> {
    if |s| < 8 then None
    else
      var n := Value(s[..8]);
      if |s| < 8 + n then None else Some((s[8..8 + n], s[8 + n..]))
  }

  function Drop(tag: seq<byte>, s: seq<byte>): Option<seq<byte>> {
    if tag <= s then Some(s[|tag|..]) else None
  }

  function DecodeEntry(s: seq<byte>): Option<(Entry, seq<byte>)> {
    if ABSENT_TAG <= s then Some((Absent, s[|ABSENT_TAG|..]))
    else if SYMLINK_TAG <= s then
      var f := Unframe(s[|SYMLINK_TAG|..]);
      if f.None? then None else Some((Symlink(f.value.0), f.value.1))
    else if EXECUTABLE_TAG <= s then
      var f := Unframe(s[|EXECUTABLE_TAG|..]);
      if f.None? then None else Some((Regular(true, f.value.0), f.value.1))
    else if REGULAR_TAG <= s then
      var f := Unframe(s[|REGULAR_TAG|..]);
      if f.None? then None else Some((Regular(false, f.value.0), f.value.1))
    else None
  }

  function DecodeItem(s: seq<byte>): Option<(Item, seq<byte>)> {
    var a := Drop(PATH_TAG, s);
    if a.None? then None else
    var path := Unframe(a.value);
    if path.None? then None else
    var b := Drop(INDEX_TAG, path.value.1);
    if b.None? then None else
    var staged := Unframe(b.value);
    if staged.None? then None else
    var e := DecodeEntry(staged.value.1);
    if e.None? then None else Some((Item(path.value.0, staged.value.0, e.value.0), e.value.1))
  }

  function DecodeItems(s: seq<byte>): Option<seq<Item>>
    decreases |s|
  {
    if s == [] then Some([])
    else
      var i := DecodeItem(s);
      if i.None? || |i.value.1| >= |s| then None
      else
        var rest := DecodeItems(i.value.1);
        if rest.None? then None else Some([i.value.0] + rest.value)
  }

  // The position of the first NUL.
  function HeadLength(s: seq<byte>): nat {
    if s == [] || s[0] == NUL then 0 else 1 + HeadLength(s[1..])
  }

  function Decode(s: seq<byte>): Option<(seq<byte>, seq<Item>)> {
    var a := Drop(DOMAIN, s);
    if a.None? then None else
    var n := HeadLength(a.value);
    if n >= |a.value| then None else
    var items := DecodeItems(a.value[n + 1..]);
    if items.None? then None else Some((a.value[..n], items.value))
  }

  // Lengths fit their eight bytes, as any Go slice's does.
  predicate Framable(e: Entry) {
    match e
    case Symlink(target) => |target| < LENGTH_LIMIT
    case Regular(_, data) => |data| < LENGTH_LIMIT
    case _ => true
  }

  predicate ItemOk(i: Item) {
    Readable(i.entry) && Framable(i.entry) && |i.path| < LENGTH_LIMIT && |i.staged| < LENGTH_LIMIT
  }

  lemma FrameRoundTrip(data: seq<byte>, rest: seq<byte>)
    requires |data| < LENGTH_LIMIT
    ensures Unframe(Frame(data) + rest) == Some((data, rest))
  {
    LengthFits(|data|);
    var s := Frame(data) + rest;
    assert s[..8] == BigEndian(|data|, 8);
    assert s[8..8 + |data|] == data && s[8 + |data|..] == rest;
  }

  lemma DropRoundTrip(tag: seq<byte>, rest: seq<byte>)
    ensures Drop(tag, tag + rest) == Some(rest)
  {
  }

  lemma EntryRoundTrip(e: Entry, rest: seq<byte>)
    requires Readable(e) && Framable(e)
    ensures DecodeEntry(EntryBytes(e) + rest) == Some((e, rest))
  {
    var s := EntryBytes(e) + rest;
    match e
    case Absent =>
      assert s[..7] == ABSENT_TAG;
    case Symlink(target) =>
      FrameRoundTrip(target, rest);
      Assoc(SYMLINK_TAG, Frame(target), rest);
      assert s[0] == 115 && s[..8] == SYMLINK_TAG && s[8..] == Frame(target) + rest;
    case Regular(exec, data) =>
      FrameRoundTrip(data, rest);
      if exec {
        Assoc(EXECUTABLE_TAG, Frame(data), rest);
        assert s[0] == 101 && s[..11] == EXECUTABLE_TAG && s[11..] == Frame(data) + rest;
      } else {
        Assoc(REGULAR_TAG, Frame(data), rest);
        assert s[0] == 114 && s[..8] == REGULAR_TAG && s[8..] == Frame(data) + rest;
      }
  }

  lemma ItemRoundTrip(i: Item, rest: seq<byte>)
    requires ItemOk(i)
    ensures DecodeItem(ItemBytes(i) + rest) == Some((i, rest))
  {
    var e := EntryBytes(i.entry) + rest;
    var d := Frame(i.staged) + e;
    var c := INDEX_TAG + d;
    var b := Frame(i.path) + c;
    Flatten([], PATH_TAG, Frame(i.path), INDEX_TAG, Frame(i.staged), EntryBytes(i.entry));
    Regroup(PATH_TAG, Frame(i.path), INDEX_TAG, Frame(i.staged), EntryBytes(i.entry), rest);
    DropRoundTrip(PATH_TAG, b);
    FrameRoundTrip(i.path, c);
    DropRoundTrip(INDEX_TAG, d);
    FrameRoundTrip(i.staged, e);
    EntryRoundTrip(i.entry, rest);
  }

  lemma Regroup(a: seq<byte>, b: seq<byte>, c: seq<byte>, d: seq<byte>, e: seq<byte>, rest: seq<byte>)
    ensures (a + (b + (c + (d + e)))) + rest == a + (b + (c + (d + (e + rest))))
  {
  }

  lemma DecodeItemsStep(s: seq<byte>, i: Item, rest: seq<byte>, more: seq<Item>)
    requires DecodeItem(s) == Some((i, rest)) && |rest| < |s| && DecodeItems(rest) == Some(more)
    ensures DecodeItems(s) == Some([i] + more)
  {
  }

  lemma {:induction false} ItemsRoundTrip(items: seq<Item>)
    requires forall i :: i in items ==> ItemOk(i)
    ensures DecodeItems(ItemsBytes(items)) == Some(items)
  {
    if items != [] {
      var first, rest := ItemBytes(items[0]), ItemsBytes(items[1..]);
      ItemRoundTrip(items[0], rest);
      ItemsRoundTrip(items[1..]);
      assert |first| > 0;
      DecodeItemsStep(first + rest, items[0], rest, items[1..]);
      assert items == [items[0]] + items[1..];
    }
  }

  lemma {:induction false} HeadRoundTrip(head: seq<byte>, rest: seq<byte>)
    requires NUL !in head
    ensures HeadLength(head + ([NUL] + rest)) == |head|
  {
    var s := head + ([NUL] + rest);
    if head != [] {
      assert s[1..] == head[1..] + ([NUL] + rest);
      HeadRoundTrip(head[1..], rest);
    }
  }

  lemma DecodeStep(s: seq<byte>, head: seq<byte>, rest: seq<byte>, items: seq<Item>)
    requires Drop(DOMAIN, s) == Some(head + ([NUL] + rest)) && HeadLength(head + ([NUL] + rest)) == |head|
    requires DecodeItems(rest) == Some(items)
    ensures Decode(s) == Some((head, items))
  {
    var body := head + ([NUL] + rest);
    assert body[..|head|] == head && body[|head| + 1..] == rest;
  }

  // The stream decodes to exactly what was written. A head revision is a
  // commit id and holds no NUL.
  lemma StreamRoundTrip(head: seq<byte>, items: seq<Item>)
    requires NUL !in head && forall i :: i in items ==> ItemOk(i)
    ensures Decode(Stream(head, items)) == Some((head, items))
  {
    var rest := ItemsBytes(items);
    DropRoundTrip(DOMAIN, head + ([NUL] + rest));
    HeadRoundTrip(head, rest);
    ItemsRoundTrip(items);
    DecodeStep(Stream(head, items), head, rest, items);
  }

  // Equal streams mean the same head, paths, staged entries, kinds, execute
  // bits and contents, in the same order.
  lemma StreamInjective(h1: seq<byte>, a: seq<Item>, h2: seq<byte>, b: seq<Item>)
    requires NUL !in h1 && NUL !in h2
    requires (forall i :: i in a ==> ItemOk(i)) && (forall i :: i in b ==> ItemOk(i))
    ensures Stream(h1, a) == Stream(h2, b) <==> h1 == h2 && a == b
  {
    StreamRoundTrip(h1, a);
    StreamRoundTrip(h2, b);
  }
}
