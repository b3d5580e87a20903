// Splitting a file's bytes into lines (cmd/hma/observe.go, newLineIndex and
// observedCountLines): the index of offsets and hashes is a faithful split.
module LineIndexing {
  type byte = x: int | 0 <= x < 256
  type Line = seq<byte>

  const NEWLINE: byte := 10

  // The lines of data that are ended by a newline, each with its newline.
  function Closed(data: seq<byte>): seq<Line> {
    if data == [] then []
    else
      var p, c := data[..|data| - 1], data[|data| - 1];
      if c == NEWLINE then Closed(p) + [Open(p) + [c]] else Closed(p)
  }

  // The bytes after the last newline.
  function Open(data: seq<byte>): Line {
    if data == [] then []
    else
      var p, c := data[..|data| - 1], data[|data| - 1];
      if c == NEWLINE then [] else Open(p) + [c]
  }

  function SplitLines(data: seq<byte>): seq<Line> {
    if Open(data) == [] then Closed(data) else Closed(data) + [Open(data)]
  }

  function Concat(lines: seq<Line>): seq<byte> {
    if lines == [] then [] else Concat(lines[..|lines| - 1]) + lines[|lines| - 1]
  }

  // A line is not empty and holds a newline, if any, only at its end.
  ghost predicate IsLine(l: Line) {
    l != [] && forall i :: 0 <= i < |l| - 1 ==> l[i] != NEWLINE
  }

  ghost predicate Ended(l: Line) {
    l != [] && l[|l| - 1] == NEWLINE
  }

  // lines is a split of data: it concatenates back to data, and every line but
  // perhaps the last ends in a newline.
  ghost predicate IsSplit(lines: seq<Line>, data: seq<byte>) {
    && Concat(lines) == data
    && (forall i :: 0 <= i < |lines| ==> IsLine(lines[i]))
    && (forall i :: 0 <= i < |lines| - 1 ==> Ended(lines[i]))
  }

  lemma ConcatSnoc(lines: seq<Line>, l: Line)
    ensures Concat(lines + [l]) == Concat(lines) + l
  {
    assert (lines + [l])[..|lines|] == lines;
  }

  lemma SplitStep(data: seq<byte>, c: byte)
    ensures Closed(data + [c]) == if c == NEWLINE then Closed(data) + [Open(data) + [c]] else Closed(data)
    ensures Open(data + [c]) == if c == NEWLINE then [] else Open(data) + [c]
  {
    assert (data + [c])[..|data|] == data;
  }

  lemma ConcatStep(p: seq<byte>, c: byte)
    requires Concat(Closed(p)) + Open(p) == p
    ensures Concat(Closed(p + [c])) + Open(p + [c]) == p + [c]
  {
    var lines, open := Closed(p), Open(p);
    Regroup(Concat(lines), open, c);
    SplitStep(p, c);
    if c == NEWLINE {
      ConcatSnoc(lines, open + [c]);
    }
  }

  lemma Regroup(a: seq<byte>, b: seq<byte>, c: byte)
    ensures a + (b + [c]) == (a + b) + [c]
    ensures (a + (b + [c])) + [] == (a + b) + [c]
  {
  }

  lemma {:induction false} ClosedOpenConcat(data: seq<byte>)
    ensures Concat(Closed(data)) + Open(data) == data
  {
    if data != [] {
      var p, c := data[..|data| - 1], data[|data| - 1];
      ClosedOpenConcat(p);
      assert p + [c] == data;
      ConcatStep(p, c);
    }
  }

  lemma {:induction false} OpenHasNoNewline(data: seq<byte>)
    ensures forall i :: 0 <= i < |Open(data)| ==> Open(data)[i] != NEWLINE
  {
    if data != [] {
      OpenHasNoNewline(data[..|data| - 1]);
    }
  }

  lemma {:induction false} ClosedLinesEnd(data: seq<byte>)
    ensures forall i :: 0 <= i < |Closed(data)| ==> IsLine(Closed(data)[i]) && Ended(Closed(data)[i])
  {
    if data != [] {
      var p := data[..|data| - 1];
      ClosedLinesEnd(p);
      OpenHasNoNewline(p);
    }
  }

  lemma SplitIsSplit(data: seq<byte>)
    ensures IsSplit(SplitLines(data), data)
  {
    ClosedOpenConcat(data);
    ClosedLinesEnd(data);
    OpenHasNoNewline(data);
    if Open(data) != [] {
      ConcatSnoc(Closed(data), Open(data));
    }
  }

  // Bytes without a newline only lengthen the open line.
  lemma {:induction false} OpenAppend(data: seq<byte>, tail: seq<byte>)
    requires forall i :: 0 <= i < |tail| ==> tail[i] != NEWLINE
    ensures Closed(data + tail) == Closed(data)
    ensures Open(data + tail) == Open(data) + tail
    decreases |tail|
  {
    if tail == [] {
      assert data + tail == data;
    } else {
      var c := tail[0];
      SplitStep(data, c);
      OpenAppend(data + [c], tail[1..]);
      assert data + [c] + tail[1..] == data + tail;
      assert Open(data) + [c] + tail[1..] == Open(data) + tail;
    }
  }

  // Feeding one ended line through the split yields that line.
  lemma ClosedAppend(data: seq<byte>, body: Line)
    requires Open(data) == [] && forall i :: 0 <= i < |body| ==> body[i] != NEWLINE
    ensures Closed(data + body + [NEWLINE]) == Closed(data) + [body + [NEWLINE]]
    ensures Open(data + body + [NEWLINE]) == []
  {
    OpenAppend(data, body);
    assert Open(data) + body == body;
    SplitStep(data + body, NEWLINE);
  }

  lemma {:induction false} EndedLinesAreClosed(lines: seq<Line>)
    requires forall i :: 0 <= i < |lines| ==> IsLine(lines[i]) && Ended(lines[i])
    ensures Closed(Concat(lines)) == lines && Open(Concat(lines)) == []
  {
    if lines != [] {
      var init, l := lines[..|lines| - 1], lines[|lines| - 1];
      var before, body := Concat(init), l[..|l| - 1];
      EndedLinesAreClosed(init);
      assert l == body + [NEWLINE];
      ClosedAppend(before, body);
      assert Concat(lines) == before + l == before + body + [NEWLINE];
      assert lines == init + [l];
    }
  }

  // There is only one way to split data into lines.
  lemma SplitIsUnique(lines: seq<Line>, data: seq<byte>)
    ensures IsSplit(lines, data) <==> lines == SplitLines(data)
  {
    SplitIsSplit(data);
    if IsSplit(lines, data) && lines != [] {
      var init, l := lines[..|lines| - 1], lines[|lines| - 1];
      EndedLinesAreClosed(init);
      if Ended(l) {
        EndedLinesAreClosed(lines);
      } else {
        OpenAppend(Concat(init), l);
        assert Open(data) == l;
      }
    }
  }

  lemma SplitInjective(a: seq<byte>, b: seq<byte>)
    requires SplitLines(a) == SplitLines(b)
    ensures a == b
  {
    SplitIsSplit(a);
    SplitIsSplit(b);
  }

  // ------------------------------------------------------------------
  // The index.
  // ------------------------------------------------------------------

  const WORD := 0x1_0000_0000_0000_0000

  type Word = x: int | 0 <= x < WORD

  const FNV_OFFSET: Word := 14695981039346656037
  const FNV_PRIME: Word := 1099511628211

  // Exclusive or, bit by bit.
  function Xor(a: nat, b: nat): nat {
    if a == 0 then b
    else if b == 0 then a
    else (if a % 2 == b % 2 then 0 else 1) + 2 * Xor(a / 2, b / 2)
  }

  // One byte of 64-bit FNV-1a, with its wrap-around.
  function FnvStep(h: Word, c: byte): Word {
    Xor(h, c) * FNV_PRIME % WORD
  }

  function FnvHash(l: Line): Word {
    if l == [] then FNV_OFFSET else FnvStep(FnvHash(l[..|l| - 1]), l[|l| - 1])
  }

  // Line i is the bytes between marks i and i + 1.
  ghost predicate Marked(data: seq<byte>, marks: seq<nat>, lines: seq<Line>) {
    && |marks| == |lines| + 1
    && (forall i :: 0 <= i < |marks| ==> marks[i] <= |data|)
    && (forall i, j :: 0 <= i < |lines| && j == i + 1 ==> marks[i] <= marks[j] && data[marks[i]..marks[j]] == lines[i])
  }

  ghost predicate Hashed(hash: seq<Word>, lines: seq<Line>) {
    && |hash| == |lines|
    && forall i :: 0 <= i < |lines| ==> hash[i] == FnvHash(lines[i])
  }

  datatype LineIndex = LineIndex(data: seq<byte>, start: seq<nat>, hash: seq<Word>) {
    ghost predicate Valid(lines: seq<Line>) {
      Marked(data, start, lines) && Hashed(hash, lines)
    }

    function Line(i: nat): Line
      requires i + 1 < |start|
      requires start[i] <= start[i + 1] <= |data|
    {
      data[start[i]..start[i + 1]]
    }
  }

  lemma MarkNext(data: seq<byte>, marks: seq<nat>, begin: nat, end: nat, lines: seq<Line>)
    requires Marked(data, marks + [begin], lines)
    requires begin <= end <= |data|
    ensures Marked(data, marks + [begin] + [end], lines + [data[begin..end]])
  {
  }

  // What the scan knows after reading the first i bytes.
  ghost predicate Scanned(data: seq<byte>, i: nat, start: seq<nat>, hash: seq<Word>, begin: nat, h: Word) {
    && begin <= i <= |data|
    && Marked(data, start + [begin], Closed(data[..i]))
    && Hashed(hash, Closed(data[..i]))
    && data[begin..i] == Open(data[..i])
    && h == FnvHash(Open(data[..i]))
  }

  lemma HashSnoc(l: Line, c: byte)
    ensures FnvHash(l + [c]) == FnvStep(FnvHash(l), c)
  {
    assert (l + [c])[..|l|] == l;
  }

  lemma ScanByte(data: seq<byte>, i: nat, start: seq<nat>, hash: seq<Word>, begin: nat, h: Word)
    requires i < |data| && Scanned(data, i, start, hash, begin, h) && data[i] != NEWLINE
    ensures Scanned(data, i + 1, start, hash, begin, FnvStep(h, data[i]))
  {
    assert data[..i + 1] == data[..i] + [data[i]];
    assert data[begin..i + 1] == data[begin..i] + [data[i]];
    SplitStep(data[..i], data[i]);
    HashSnoc(Open(data[..i]), data[i]);
  }

  lemma ScanNewline(data: seq<byte>, i: nat, start: seq<nat>, hash: seq<Word>, begin: nat, h: Word)
    requires i < |data| && Scanned(data, i, start, hash, begin, h) && data[i] == NEWLINE
    ensures Scanned(data, i + 1, start + [begin], hash + [FnvStep(h, data[i])], i + 1, FNV_OFFSET)
  {
    var before := data[..i];
    var lines, line := Closed(before), Open(before) + [data[i]];
    assert data[..i + 1] == before + [data[i]];
    SplitStep(before, data[i]);
    HashSnoc(Open(before), data[i]);
    SliceNext(data, begin, i, Open(before));
    MarkNext(data, start, begin, i + 1, lines);
    HashedNext(hash, lines, line);
    assert Closed(data[..i + 1]) == lines + [line] && Open(data[..i + 1]) == [];
  }

  lemma SliceNext(data: seq<byte>, begin: nat, i: nat, open: Line)
    requires begin <= i < |data| && data[begin..i] == open
    ensures data[begin..i + 1] == open + [data[i]] && data[i + 1..i + 1] == []
  {
  }

  lemma HashedNext(hash: seq<Word>, lines: seq<Line>, line: Line)
    requires Hashed(hash, lines)
    ensures Hashed(hash + [FnvHash(line)], lines + [line])
  {
  }

  lemma ScanEnd(data: seq<byte>, start: seq<nat>, hash: seq<Word>, begin: nat, h: Word)
    requires Scanned(data, |data|, start, hash, begin, h)
    ensures begin == |data| ==> LineIndex(data, start + [|data|], hash).Valid(SplitLines(data))
    ensures begin < |data| ==> LineIndex(data, start + [begin] + [|data|], hash + [h]).Valid(SplitLines(data))
  {
    assert data[..|data|] == data;
    MarkNext(data, start, begin, |data|, Closed(data));
  }

  method NewLineIndex(data: seq<byte>) returns (ix: LineIndex)
    ensures ix.data == data
    ensures ix.Valid(SplitLines(data))
  {
    var start: seq<nat> := [];
    var hash: seq<Word> := [];
    var begin := 0;
    var h := FNV_OFFSET;
    for i := 0 to |data|
      invariant Scanned(data, i, start, hash, begin, h)
    {
      if data[i] == NEWLINE {
        ScanNewline(data, i, start, hash, begin, h);
      } else {
        ScanByte(data, i, start, hash, begin, h);
      }
      h := FnvStep(h, data[i]);
      if data[i] == NEWLINE {
        start := start + [begin];
        hash := hash + [h];
        begin := i + 1;
        h := FNV_OFFSET;
      }
    }
    ScanEnd(data, start, hash, begin, h);
    if begin < |data| {
      start := start + [begin];
      hash := hash + [h];
    }
    start := start + [|data|];
    ix := LineIndex(data, start, hash);
  }

  // The hash is only a filter: equal hashes and equal bytes are equal lines.
  lemma HashAndBytes(x: LineIndex, y: LineIndex, a: seq<Line>, b: seq<Line>, i: nat, j: nat)
    requires x.Valid(a) && y.Valid(b) && i < |a| && j < |b|
    ensures (x.hash[i] == y.hash[j] && x.Line(i) == y.Line(j)) <==> a[i] == b[j]
  {
  }

  // The number of newlines, plus one for an unfinished last line.
  method ObservedCountLines(b: seq<byte>) returns (n: nat)
    ensures n == |SplitLines(b)|
  {
    if |b| == 0 {
      return 0;
    }
    n := 0;
    for i := 0 to |b|
      invariant n == |Closed(b[..i])|
    {
      assert b[..i + 1] == b[..i] + [b[i]];
      SplitStep(b[..i], b[i]);
      if b[i] == NEWLINE {
        n := n + 1;
      }
    }
    assert b[..|b|] == b;
    if b[|b| - 1] != NEWLINE {
      n := n + 1;
    }
    // The source returns 1 for a count of 0 here; that never happens.
    assert n != 0 by { SplitIsSplit(b); }
  }

  const NUL_WINDOW := 8000

  ghost predicate LooksBinary(b: seq<byte>) {
    exists i :: 0 <= i < |b| && i < NUL_WINDOW && b[i] == 0
  }

  method HasNul(b: seq<byte>) returns (found: bool)
    ensures found <==> LooksBinary(b)
  {
    var i := 0;
    while i < |b| && i < NUL_WINDOW
      invariant 0 <= i <= |b| && i <= NUL_WINDOW
      invariant forall j :: 0 <= j < i ==> b[j] != 0
    {
      if b[i] == 0 {
        return true;
      }
      i := i + 1;
    }
    return false;
  }
}
