// Python-compatible canonical JSON (internal/host/canonical.go): the printer,
// a parser for what it prints, and the round trip between them.
module Runes {
  type byte = x: int | 0 <= x < 256

  // A Unicode scalar value, as Go's range over a decoded JSON string yields.
  type Rune = x: int | 0 <= x < 0x110000 && !(0xD800 <= x < 0xE000)

  type Text = seq<Rune>

  // Lexicographic order of code points: how Python sorts str keys.
  predicate Less(a: seq<int>, b: seq<int>) {
    if b == [] then false
    else if a == [] then true
    else a[0] < b[0] || (a[0] == b[0] && Less(a[1..], b[1..]))
  }

  function Utf8Rune(r: Rune): seq<byte> {
    if r < 0x80 then [r]
    else if r < 0x800 then [0xC0 + r / 64, 0x80 + r % 64]
    else if r < 0x10000 then [0xE0 + r / 4096, 0x80 + r / 64 % 64, 0x80 + r % 64]
    else [0xF0 + r / 262144, 0x80 + r / 4096 % 64, 0x80 + r / 64 % 64, 0x80 + r % 64]
  }

  function Utf8(s: Text): seq<byte> {
    if s == [] then [] else Utf8Rune(s[0]) + Utf8(s[1..])
  }

  // Two numbers that agree above the last 64 compare like their remainders.
  lemma SplitOrder(x: nat, y: nat)
    requires x < y
    ensures x / 64 < y / 64 || (x / 64 == y / 64 && x % 64 < y % 64)
  {
  }

  // The first base-64 digit, from the top, in which two numbers differ.
  lemma DigitOrder(r: nat, q: nat, digits: nat) returns (i: nat)
    requires r < q && 2 <= digits <= 4
    ensures i < digits
    ensures digits == 2 ==> (i == 0 && r / 64 < q / 64) || (i == 1 && r / 64 == q / 64 && r % 64 < q % 64)
    ensures digits == 3 ==>
              || (i == 0 && r / 4096 < q / 4096)
              || (i == 1 && r / 4096 == q / 4096 && r / 64 % 64 < q / 64 % 64)
              || (i == 2 && r / 4096 == q / 4096 && r / 64 % 64 == q / 64 % 64 && r % 64 < q % 64)
    ensures digits == 4 ==>
              || (i == 0 && r / 262144 < q / 262144)
              || (i == 1 && r / 262144 == q / 262144 && r / 4096 % 64 < q / 4096 % 64)
              || (i == 2 && r / 262144 == q / 262144 && r / 4096 % 64 == q / 4096 % 64 && r / 64 % 64 < q / 64 % 64)
              || (i == 3 && r / 262144 == q / 262144 && r / 4096 % 64 == q / 4096 % 64 && r / 64 % 64 == q / 64 % 64 && r % 64 < q % 64)
  {
    var r1, q1 := r / 64, q / 64;
    var r2, q2 := r1 / 64, q1 / 64;
    assert r2 == r / 4096 && q2 == q / 4096;
    assert r2 / 64 == r / 262144 && q2 / 64 == q / 262144;
    SplitOrder(r, q);
    i := digits - 1;
    if r1 < q1 {
      SplitOrder(r1, q1);
      i := digits - 2;
      if digits >= 3 && r2 < q2 {
        SplitOrder(r2, q2);
        i := digits - 3;
        if digits == 4 && r2 / 64 < q2 / 64 {
          i := 0;
        }
      }
    }
  }

  // Somewhere inside both, the first difference goes the way of the runes.
  lemma RuneOrder(r: Rune, q: Rune) returns (i: nat)
    requires r < q
    ensures i < |Utf8Rune(r)| && i < |Utf8Rune(q)|
    ensures Utf8Rune(r)[..i] == Utf8Rune(q)[..i] && Utf8Rune(r)[i] < Utf8Rune(q)[i]
  {
    if |Utf8Rune(r)| < |Utf8Rune(q)| || q < 0x80 {
      i := 0;
    } else {
      i := DigitOrder(r, q, |Utf8Rune(r)|);
    }
  }

  lemma {:induction false} LessAt(a: seq<int>, b: seq<int>, i: nat)
    requires i < |a| && i < |b| && a[..i] == b[..i] && a[i] < b[i]
    ensures Less(a, b)
  {
    if i > 0 {
      assert a[0] == a[..i][0] == b[..i][0] == b[0];
      assert a[1..][..i - 1] == a[..i][1..] == b[..i][1..] == b[1..][..i - 1];
      LessAt(a[1..], b[1..], i - 1);
    }
  }

  lemma {:induction false} LessPrefix(p: seq<int>, a: seq<int>, b: seq<int>)
    ensures Less(p + a, p + b) <==> Less(a, b)
  {
    if p == [] {
      assert p + a == a && p + b == b;
    } else {
      assert (p + a)[1..] == p[1..] + a && (p + b)[1..] == p[1..] + b;
      LessPrefix(p[1..], a, b);
    }
  }

  lemma {:induction false} LessAsymmetric(a: seq<int>, b: seq<int>)
    requires Less(a, b)
    ensures !Less(b, a) && a != b
  {
    if a != [] && a[0] == b[0] {
      LessAsymmetric(a[1..], b[1..]);
    }
  }

  lemma {:induction false} LessTotal(a: seq<int>, b: seq<int>)
    ensures Less(a, b) || Less(b, a) || a == b
  {
    if a != [] && b != [] && a[0] == b[0] {
      LessTotal(a[1..], b[1..]);
      assert a == [a[0]] + a[1..] && b == [b[0]] + b[1..];
    }
  }

  lemma {:induction false} LessTransitive(a: seq<int>, b: seq<int>, c: seq<int>)
    requires Less(a, b) && Less(b, c)
    ensures Less(a, c)
  {
    if a != [] && a[0] == b[0] == c[0] {
      LessTransitive(a[1..], b[1..], c[1..]);
    }
  }

  // Sorting by UTF-8 bytes, as Go does, orders keys by code point, as Python does.
  lemma {:induction false} ByteOrderIsCodePointOrder(a: Text, b: Text)
    ensures Less(Utf8(a), Utf8(b)) <==> Less(a, b)
    decreases |a| + |b|
  {
    if a != [] && b != [] {
      var ua, ub := Utf8Rune(a[0]), Utf8Rune(b[0]);
      if a[0] == b[0] {
        LessPrefix(ua, Utf8(a[1..]), Utf8(b[1..]));
        ByteOrderIsCodePointOrder(a[1..], b[1..]);
      } else if a[0] < b[0] {
        var i := RuneOrder(a[0], b[0]);
        assert Utf8(a)[..i] == ua[..i] && Utf8(b)[..i] == ub[..i];
        LessAt(Utf8(a), Utf8(b), i);
      } else {
        var i := RuneOrder(b[0], a[0]);
        assert Utf8(a)[..i] == ua[..i] && Utf8(b)[..i] == ub[..i];
        LessAt(Utf8(b), Utf8(a), i);
        LessAsymmetric(Utf8(b), Utf8(a));
      }
    }
  }

  // ------------------------------------------------------------------
  // The sorted keys of an object.
  // ------------------------------------------------------------------

  ghost predicate Sorted(keys: seq<Text>) {
    forall i, j :: 0 <= i < j < |keys| ==> Less(keys[i], keys[j])
  }

  ghost predicate SortedKeysOf(keys: seq<Text>, ks: set<Text>) {
    Sorted(keys) && forall k :: k in keys <==> k in ks
  }

  lemma LeastKey(ks: set<Text>) returns (k: Text)
    requires ks != {}
    ensures k in ks && forall j :: j in ks && j != k ==> Less(k, j)
    decreases ks
  {
    k :| k in ks;
    var rest := ks - {k};
    if rest != {} {
      var m := LeastKey(rest);
      LessTotal(k, m);
      if Less(m, k) {
        k := m;
      } else {
        forall j | j in rest && j != m ensures Less(k, j) {
          LessTransitive(k, m, j);
        }
      }
    }
  }

  // The one sorted list of a set of keys.
  ghost function SortedKeys(ks: set<Text>): (keys: seq<Text>)
    ensures SortedKeysOf(keys, ks)
    decreases ks
  {
    if ks == {} then []
    else
      assert exists k :: k in ks && forall j :: j in ks && j != k ==> Less(k, j) by { var k := LeastKey(ks); }
      var k :| k in ks && forall j :: j in ks && j != k ==> Less(k, j);
      [k] + SortedKeys(ks - {k})
  }

  lemma {:induction false} SortedKeysUnique(a: seq<Text>, b: seq<Text>)
    requires Sorted(a) && Sorted(b) && forall k :: k in a <==> k in b
    ensures a == b
    decreases |a|
  {
    assert b != [] ==> b[0] in a;
    if a != [] {
      assert a[0] in b && b[0] in a;
      var i :| 0 <= i < |b| && b[i] == a[0];
      var j :| 0 <= j < |a| && a[j] == b[0];
      if i > 0 && j > 0 {
        LessAsymmetric(a[0], a[j]);
      }
      assert a[0] == b[0];
      forall k ensures k in a[1..] <==> k in b[1..] {
        TailMembers(a, k);
        TailMembers(b, k);
      }
      SortedKeysUnique(a[1..], b[1..]);
      assert a == [a[0]] + a[1..] && b == [b[0]] + b[1..];
    }
  }

  lemma TailMembers(a: seq<Text>, k: Text)
    requires Sorted(a) && a != []
    ensures k in a[1..] <==> k in a && k != a[0]
  {
    if k in a[1..] {
      var i :| 0 <= i < |a[1..]| && a[1..][i] == k;
      assert a[i + 1] == k;
      LessAsymmetric(a[0], a[i + 1]);
    }
    if k in a && k != a[0] {
      var i :| 0 <= i < |a| && a[i] == k;
      assert a[1..][i - 1] == k;
    }
  }

  // sort.Strings on the collected keys: byte order, one key inserted at a time.
  method SortKeys(ks: set<Text>) returns (keys: seq<Text>)
    ensures keys == SortedKeys(ks)
  {
    keys := [];
    var left := ks;
    while left != {}
      invariant left <= ks && SortedKeysOf(keys, ks - left)
      decreases left
    {
      var k :| k in left;
      var at := 0;
      while at < |keys| && Less(Utf8(keys[at]), Utf8(k))
        invariant 0 <= at <= |keys|
        invariant forall i :: 0 <= i < at ==> Less(keys[i], k)
      {
        ByteOrderIsCodePointOrder(keys[at], k);
        at := at + 1;
      }
      if at < |keys| {
        ByteOrderIsCodePointOrder(keys[at], k);
      }
      InsertKey(keys, k, at);
      keys := keys[..at] + [k] + keys[at..];
      left := left - {k};
    }
    SortedKeysUnique(keys, SortedKeys(ks));
  }

  lemma InsertKey(keys: seq<Text>, k: Text, at: nat)
    requires Sorted(keys) && k !in keys && at <= |keys|
    requires forall i :: 0 <= i < at ==> Less(keys[i], k)
    requires at < |keys| ==> !Less(keys[at], k)
    ensures Sorted(keys[..at] + [k] + keys[at..])
    ensures forall x :: x in keys[..at] + [k] + keys[at..] <==> x in keys || x == k
  {
    forall i | at <= i < |keys| ensures Less(k, keys[i]) {
      LessTotal(k, keys[at]);
      if i > at {
        LessTransitive(k, keys[at], keys[i]);
      }
    }
    var r := keys[..at] + [k] + keys[at..];
    forall x | x in keys ensures x in r {
      var i :| 0 <= i < |keys| && keys[i] == x;
      assert r[if i < at then i else i + 1] == x;
    }
    assert r[at] == k;
  }
}

module CanonicalJson {
  import opened Runes

  datatype Option<+T> = None | Some(value: T)

  // A decoded JSON value. Numbers keep their text (json.Number); an object is
  // a map, so the order of keys in the input is gone once it is decoded.
  datatype Json =
    | Null
    | Bool(b: bool)
    | Number(text: seq<byte>)
    | Str(s: Text)
    | Arr(items: seq<Json>)
    | Obj(fields: map<Text, Json>)

  const QUOTE: byte := 34
  const COMMA: byte := 44
  const COLON: byte := 58
  const BACKSLASH: byte := 92
  const OPEN_ARRAY: byte := 91
  const CLOSE_ARRAY: byte := 93
  const OPEN_OBJECT: byte := 123
  const CLOSE_OBJECT: byte := 125
  const NULL_TEXT: seq<byte> := [110, 117, 108, 108]
  const TRUE_TEXT: seq<byte> := [116, 114, 117, 101]
  const FALSE_TEXT: seq<byte> := [102, 97, 108, 115, 101]

  // The characters a JSON number is written with: 0-9 + - . e E.
  predicate NumberByte(c: byte) {
    48 <= c <= 57 || c == 43 || c == 45 || c == 46 || c == 101 || c == 69
  }

  // The decoder accepts a number only if it is written in number characters
  // and starts with a digit or a minus sign.
  predicate NumberText(t: seq<byte>) {
    t != [] && (48 <= t[0] <= 57 || t[0] == 45) && forall i :: 0 <= i < |t| ==> NumberByte(t[i])
  }

  ghost predicate Decoded(v: Json) {
    match v
    case Number(t) => NumberText(t)
    case Arr(items) => forall i :: 0 <= i < |items| ==> Decoded(items[i])
    case Obj(fields) => forall k :: k in fields ==> Decoded(fields[k])
    case _ => true
  }

  // ---- strings ----

  function HexDigit(d: int): byte
    requires 0 <= d < 16
  {
    if d < 10 then 48 + d else 87 + d
  }

  // Four lower-case hexadecimal digits after a backslash and a u.
  function Unit(n: int): (r: seq<byte>)
    requires 0 <= n < 0x10000
    ensures |r| == 6
  {
    [BACKSLASH, 117, HexDigit(n / 4096), HexDigit(n / 256 % 16), HexDigit(n / 16 % 16), HexDigit(n % 16)]
  }

  // utf16.EncodeRune (section 2.1 of RFC 2781).
  function HighSurrogate(r: int): int { 0xD800 + (r - 0x10000) / 1024 }
  function LowSurrogate(r: int): int { 0xDC00 + (r - 0x10000) % 1024 }

  function Escape(r: Rune): seq<byte> {
    if r == 34 then [BACKSLASH, 34]
    else if r == 92 then [BACKSLASH, 92]
    else if r == 10 then [BACKSLASH, 110]
    else if r == 13 then [BACKSLASH, 114]
    else if r == 9 then [BACKSLASH, 116]
    else if r == 8 then [BACKSLASH, 98]
    else if r == 12 then [BACKSLASH, 102]
    else if r < 0x20 || 0x7F <= r < 0x10000 then Unit(r)
    else if r >= 0x10000 then Unit(HighSurrogate(r)) + Unit(LowSurrogate(r))
    else [r]
  }

  function Body(s: Text): seq<byte> {
    if s == [] then [] else Escape(s[0]) + Body(s[1..])
  }

  function PrintString(s: Text): seq<byte> {
    [QUOTE] + Body(s) + [QUOTE]
  }

  // ---- values ----

  ghost function Print(v: Json): seq<byte>
    decreases v, 2
  {
    match v
    case Null => NULL_TEXT
    case Bool(b) => if b then TRUE_TEXT else FALSE_TEXT
    case Number(t) => t
    case Str(s) => PrintString(s)
    case Arr(items) => [OPEN_ARRAY] + PrintItems(v, 0) + [CLOSE_ARRAY]
    case Obj(fields) => [OPEN_OBJECT] + PrintFields(v, 0) + [CLOSE_OBJECT]
  }

  // The items from the i-th on, each but the first of the array after a comma.
  ghost function PrintItems(v: Json, i: nat): seq<byte>
    requires v.Arr? && i <= |v.items|
    decreases v, 1, |v.items| - i
  {
    if i == |v.items| then []
    else (if i > 0 then [COMMA] else []) + (Print(v.items[i]) + PrintItems(v, i + 1))
  }

  ghost function Keys(v: Json): seq<Text>
    requires v.Obj?
  {
    SortedKeys(v.fields.Keys)
  }

  ghost function PrintFields(v: Json, i: nat): seq<byte>
    requires v.Obj? && i <= |Keys(v)|
    decreases v, 1, |Keys(v)| - i
  {
    if i == |Keys(v)| then []
    else
      var k := Keys(v)[i];
      assert k in v.fields.Keys;
      (if i > 0 then [COMMA] else []) + (PrintString(k) + [COLON] + Print(v.fields[k]) + PrintFields(v, i + 1))
  }

  // ---- the printer, into a shared buffer ----

  class Buffer {
    var bytes: seq<byte>

    constructor ()
      ensures bytes == []
    {
      bytes := [];
    }

    method Write(more: seq<byte>)
      modifies this
      ensures bytes == old(bytes) + more
    {
      bytes := bytes + more;
    }
  }

  method WritePyString(b: Buffer, s: Text)
    modifies b
    ensures b.bytes == old(b.bytes) + PrintString(s)
  {
    b.Write([QUOTE]);
    for i := 0 to |s|
      invariant b.bytes == old(b.bytes) + ([QUOTE] + Body(s[..i]))
    {
      BodySnoc(s, i);
      b.Write(Escape(s[i]));
      Assoc(old(b.bytes), [QUOTE] + Body(s[..i]), Escape(s[i]));
      Assoc([QUOTE], Body(s[..i]), Escape(s[i]));
    }
    assert s[..|s|] == s;
    b.Write([QUOTE]);
    Assoc(old(b.bytes), [QUOTE] + Body(s), [QUOTE]);
  }

  lemma Assoc(a: seq<byte>, b: seq<byte>, c: seq<byte>)
    ensures (a + b) + c == a + (b + c)
  {
  }

  lemma {:induction false} BodySnoc(s: Text, i: nat)
    requires i < |s|
    ensures Body(s[..i + 1]) == Body(s[..i]) + Escape(s[i])
  {
    BodyConcat(s[..i], [s[i]]);
    assert s[..i + 1] == s[..i] + [s[i]];
    assert Body([s[i]]) == Escape(s[i]) + [];
  }

  lemma {:induction false} BodyConcat(s: Text, t: Text)
    ensures Body(s + t) == Body(s) + Body(t)
  {
    if s == [] {
      assert s + t == t;
    } else {
      assert (s + t)[1..] == s[1..] + t;
      BodyConcat(s[1..], t);
    }
  }

  method WritePy(b: Buffer, v: Json)
    modifies b
    ensures b.bytes == old(b.bytes) + Print(v)
    decreases v, 1
  {
    match v
    case Null => b.Write(NULL_TEXT);
    case Bool(x) => b.Write(if x then TRUE_TEXT else FALSE_TEXT);
    case Number(t) => b.Write(t);
    case Str(s) => WritePyString(b, s);
    case Arr(items) =>
      b.Write([OPEN_ARRAY]);
      WriteItems(b, v);
      b.Write([CLOSE_ARRAY]);
      Assoc(old(b.bytes), [OPEN_ARRAY], PrintItems(v, 0));
      Assoc(old(b.bytes), [OPEN_ARRAY] + PrintItems(v, 0), [CLOSE_ARRAY]);
    case Obj(fields) =>
      b.Write([OPEN_OBJECT]);
      WriteFields(b, v);
      b.Write([CLOSE_OBJECT]);
      Assoc(old(b.bytes), [OPEN_OBJECT], PrintFields(v, 0));
      Assoc(old(b.bytes), [OPEN_OBJECT] + PrintFields(v, 0), [CLOSE_OBJECT]);
  }

  method WriteItems(b: Buffer, v: Json)
    requires v.Arr?
    modifies b
    ensures b.bytes == old(b.bytes) + PrintItems(v, 0)
    decreases v, 0
  {
    for i := 0 to |v.items|
      invariant b.bytes + PrintItems(v, i) == old(b.bytes) + PrintItems(v, 0)
    {
      ghost var before := b.bytes;
      var lead := if i > 0 then [COMMA] else [];
      if i > 0 {
        b.Write([COMMA]);
      }
      assert b.bytes == before + lead;
      WritePy(b, v.items[i]);
      Assoc(before + lead, Print(v.items[i]), PrintItems(v, i + 1));
      Assoc(before, lead, Print(v.items[i]) + PrintItems(v, i + 1));
    }
  }

  method WriteFields(b: Buffer, v: Json)
    requires v.Obj?
    modifies b
    ensures b.bytes == old(b.bytes) + PrintFields(v, 0)
    decreases v, 0
  {
    var keys := SortKeys(v.fields.Keys);
    for i := 0 to |keys|
      invariant b.bytes + PrintFields(v, i) == old(b.bytes) + PrintFields(v, 0)
    {
      ghost var before := b.bytes;
      var k := keys[i];
      assert k in v.fields.Keys;
      var lead := if i > 0 then [COMMA] else [];
      if i > 0 {
        b.Write([COMMA]);
      }
      assert b.bytes == before + lead;
      WritePyString(b, k);
      b.Write([COLON]);
      WritePy(b, v.fields[k]);
      Regroup5(before, lead, PrintString(k), [COLON], Print(v.fields[k]), PrintFields(v, i + 1));
    }
  }

  lemma Regroup5(before: seq<byte>, lead: seq<byte>, a: seq<byte>, b: seq<byte>, c: seq<byte>, d: seq<byte>)
    ensures before + lead + a + b + c + d == before + (lead + (a + b + c + d))
  {
  }

  // ------------------------------------------------------------------
  // A parser for what the printer writes.
  // ------------------------------------------------------------------

  function HexValue(c: byte): Option<int> {
    if 48 <= c <= 57 then Some(c - 48)
    else if 97 <= c <= 102 then Some(c - 87)
    else None
  }

  // The code unit after a backslash and a u, if four digits follow.
  function ParseUnit(s: seq<byte>): (r: Option<int>)
    ensures r.Some? ==> 0 <= r.value < 0x10000 && |s| >= 6
  {
    if |s| < 6 || s[0] != BACKSLASH || s[1] != 117 then None
    else
      var a, b, c, d := HexValue(s[2]), HexValue(s[3]), HexValue(s[4]), HexValue(s[5]);
      if a.None? || b.None? || c.None? || d.None? then None
      else Some(a.value * 4096 + b.value * 256 + c.value * 16 + d.value)
  }

  // The first rune of a string body, and what follows it.
  function ParseRune(s: seq<byte>): (r: Option<(Rune, seq<byte>)>)
    ensures r.Some? ==> |r.value.1| < |s|
  {
    if s == [] || s[0] == QUOTE then None
    else if s[0] != BACKSLASH then
      if 0x20 <= s[0] < 0x7F then Some((s[0], s[1..])) else None
    else if |s| < 2 then None
    else if s[1] == 34 then Some((34, s[2..]))
    else if s[1] == 92 then Some((92, s[2..]))
    else if s[1] == 110 then Some((10, s[2..]))
    else if s[1] == 114 then Some((13, s[2..]))
    else if s[1] == 116 then Some((9, s[2..]))
    else if s[1] == 98 then Some((8, s[2..]))
    else if s[1] == 102 then Some((12, s[2..]))
    else
      var u := ParseUnit(s);
      if u.None? then None
      else if !(0xD800 <= u.value < 0xE000) then Some((u.value, s[6..]))
      else
        var l := ParseUnit(s[6..]);
        if u.value >= 0xDC00 || l.None? || !(0xDC00 <= l.value < 0xE000) then None
        else Some(((u.value - 0xD800) * 1024 + (l.value - 0xDC00) + 0x10000, s[12..]))
  }

  // A string body up to its closing quote.
  function ParseBody(s: seq<byte>): (r: Option<(Text, seq<byte>)>)
    ensures r.Some? ==> |r.value.1| < |s|
    decreases |s|
  {
    if s != [] && s[0] == QUOTE then Some(([], s[1..]))
    else
      var c := ParseRune(s);
      if c.None? then None
      else
        var rest := ParseBody(c.value.1);
        if rest.None? then None else Some(([c.value.0] + rest.value.0, rest.value.1))
  }

  function ParseString(s: seq<byte>): (r: Option<(Text, seq<byte>)>)
    ensures r.Some? ==> |r.value.1| < |s|
  {
    if s == [] || s[0] != QUOTE then None else ParseBody(s[1..])
  }

  function NumberLength(s: seq<byte>): (n: nat)
    ensures n <= |s|
  {
    if s == [] || !NumberByte(s[0]) then 0 else 1 + NumberLength(s[1..])
  }

  function Parse(s: seq<byte>): (r: Option<(Json, seq<byte>)>)
    ensures r.Some? ==> |r.value.1| < |s|
    decreases |s|, 1
  {
    if s == [] then None
    else if NULL_TEXT <= s then Some((Null, s[4..]))
    else if TRUE_TEXT <= s then Some((Bool(true), s[4..]))
    else if FALSE_TEXT <= s then Some((Bool(false), s[5..]))
    else if s[0] == QUOTE then
      var r := ParseString(s);
      if r.None? then None else Some((Str(r.value.0), r.value.1))
    else if s[0] == OPEN_ARRAY then
      if |s| > 1 && s[1] == CLOSE_ARRAY then Some((Arr([]), s[2..]))
      else
        var r := ParseItems(s[1..]);
        if r.None? then None else Some((Arr(r.value.0), r.value.1))
    else if s[0] == OPEN_OBJECT then
      if |s| > 1 && s[1] == CLOSE_OBJECT then Some((Obj(map[]), s[2..]))
      else
        var r := ParseFields(s[1..]);
        if r.None? then None else Some((Obj(r.value.0), r.value.1))
    else
      var n := NumberLength(s);
      if n == 0 then None else Some((Number(s[..n]), s[n..]))
  }

  // Values separated by commas, up to the closing bracket.
  function ParseItems(s: seq<byte>): (r: Option<(seq<Json>, seq<byte>)>)
    ensures r.Some? ==> |r.value.1| < |s|
    decreases |s|, 2
  {
    var v := Parse(s);
    if v.None? || v.value.1 == [] then None
    else
      var rest := v.value.1;
      if rest[0] == CLOSE_ARRAY then Some(([v.value.0], rest[1..]))
      else if rest[0] != COMMA then None
      else
        var more := ParseItems(rest[1..]);
        if more.None? then None else Some(([v.value.0] + more.value.0, more.value.1))
  }

  // Keys and values separated by commas, up to the closing brace.
  function ParseFields(s: seq<byte>): (r: Option<(map<Text, Json>, seq<byte>)>)
    ensures r.Some? ==> |r.value.1| < |s|
    decreases |s|, 2
  {
    var k := ParseString(s);
    if k.None? || k.value.1 == [] || k.value.1[0] != COLON then None
    else
      var v := Parse(k.value.1[1..]);
      if v.None? || v.value.1 == [] then None
      else
        var rest := v.value.1;
        if rest[0] == CLOSE_OBJECT then Some((map[k.value.0 := v.value.0], rest[1..]))
        else if rest[0] != COMMA then None
        else
          var more := ParseFields(rest[1..]);
          if more.None? then None else Some((map[k.value.0 := v.value.0] + more.value.0, more.value.1))
  }

  // ------------------------------------------------------------------
  // The round trip.
  // ------------------------------------------------------------------

  lemma HexRoundTrip(d: int)
    requires 0 <= d < 16
    ensures HexValue(HexDigit(d)) == Some(d)
  {
  }

  lemma UnitRoundTrip(n: int, rest: seq<byte>)
    requires 0 <= n < 0x10000
    ensures ParseUnit(Unit(n) + rest) == Some(n)
    ensures (Unit(n) + rest)[6..] == rest
  {
    HexRoundTrip(n / 4096);
    HexRoundTrip(n / 256 % 16);
    HexRoundTrip(n / 16 % 16);
    HexRoundTrip(n % 16);
    assert n / 16 == n / 256 * 16 + n / 16 % 16;
    assert n / 256 == n / 4096 * 16 + n / 256 % 16;
  }

  lemma RuneRoundTrip(r: Rune, rest: seq<byte>)
    ensures ParseRune(Escape(r) + rest) == Some((r, rest))
  {
    var s := Escape(r) + rest;
    if r in {34, 92, 10, 13, 9, 8, 12} {
      assert s[2..] == rest;
    } else if r >= 0x10000 {
      var h, l := HighSurrogate(r), LowSurrogate(r);
      assert s == Unit(h) + (Unit(l) + rest);
      UnitRoundTrip(h, Unit(l) + rest);
      UnitRoundTrip(l, rest);
      assert s[12..] == s[6..][6..];
    } else if r < 0x20 || 0x7F <= r {
      UnitRoundTrip(r, rest);
    } else {
      assert s[1..] == rest;
    }
  }

  lemma {:induction false} BodyRoundTrip(s: Text, rest: seq<byte>)
    ensures ParseBody(Body(s) + [QUOTE] + rest) == Some((s, rest))
  {
    var t := Body(s) + [QUOTE] + rest;
    if s == [] {
      assert t[1..] == rest;
    } else {
      var tail := Body(s[1..]) + [QUOTE] + rest;
      assert t == Escape(s[0]) + tail;
      RuneRoundTrip(s[0], tail);
      BodyRoundTrip(s[1..], rest);
      assert [s[0]] + s[1..] == s;
    }
  }

  lemma StringRoundTrip(s: Text, rest: seq<byte>)
    ensures ParseString(PrintString(s) + rest) == Some((s, rest))
  {
    var t := PrintString(s) + rest;
    assert t[1..] == Body(s) + [QUOTE] + rest;
    BodyRoundTrip(s, rest);
  }

  // What may follow a printed value: nothing that would extend a number.
  predicate Ends(rest: seq<byte>) {
    rest == [] || !NumberByte(rest[0])
  }

  lemma {:induction false} NumberRoundTrip(t: seq<byte>, rest: seq<byte>)
    requires (forall i :: 0 <= i < |t| ==> NumberByte(t[i])) && Ends(rest)
    ensures NumberLength(t + rest) == |t|
  {
    if t == [] {
      assert t + rest == rest;
    } else {
      assert (t + rest)[1..] == t[1..] + rest;
      NumberRoundTrip(t[1..], rest);
    }
  }

  // A printed value never starts with a closing bracket.
  lemma PrintStarts(v: Json)
    requires Decoded(v)
    ensures Print(v) != [] && Print(v)[0] != CLOSE_ARRAY && Print(v)[0] != CLOSE_OBJECT
  {
  }

  // Parsing what was printed gives back the value and the rest of the input.
  lemma {:induction false} RoundTrip(v: Json, rest: seq<byte>)
    requires Decoded(v) && Ends(rest)
    ensures Parse(Print(v) + rest) == Some((v, rest))
    decreases v, 2
  {
    var s := Print(v) + rest;
    match v
    case Null => assert s[4..] == rest;
    case Bool(b) =>
      if b {
        assert s[0] == 116 && s[..4] == TRUE_TEXT && s[4..] == rest;
      } else {
        assert s[0] == 102 && s[..5] == FALSE_TEXT && s[5..] == rest;
      }
    case Number(t) =>
      NumberRoundTrip(t, rest);
      assert s[..|t|] == t && s[|t|..] == rest;
      assert s[0] == t[0];
    case Str(x) =>
      StringRoundTrip(x, rest);
      assert s[0] == QUOTE;
    case Arr(items) => ArrayRoundTrip(v, rest);
    case Obj(fields) => ObjectRoundTrip(v, rest);
  }

  lemma ArrayRoundTrip(v: Json, rest: seq<byte>)
    requires v.Arr? && Decoded(v)
    ensures Parse(Print(v) + rest) == Some((v, rest))
    decreases v, 1, |v.items| + 1
  {
    var s := Print(v) + rest;
    var tail := PrintItems(v, 0) + ([CLOSE_ARRAY] + rest);
    assert s == [OPEN_ARRAY] + tail;
    assert s[0] == OPEN_ARRAY && s[1..] == tail;
    if v.items == [] {
      assert s[2..] == rest;
    } else {
      PrintStarts(v.items[0]);
      ItemsUnfold(v, 0, [CLOSE_ARRAY] + rest);
      ItemsRoundTrip(v, 0, rest);
      assert v.items[0..] == v.items;
    }
  }

  lemma ObjectRoundTrip(v: Json, rest: seq<byte>)
    requires v.Obj? && Decoded(v)
    ensures Parse(Print(v) + rest) == Some((v, rest))
    decreases v, 1, |Keys(v)| + 1
  {
    if Keys(v) == [] {
      var s := Print(v) + rest;
      assert forall k :: k in v.fields ==> k in Keys(v);
      assert PrintFields(v, 0) == [];
      assert s == [OPEN_OBJECT, CLOSE_OBJECT] + rest;
      assert s[2..] == rest;
    } else {
      FieldsFromStep(v, 0);
      FieldsRoundTrip(v, 0, rest);
      AllFields(v);
      ObjectPrefix(v, rest);
      ObjectStep(Print(v) + rest, PrintFields(v, 0) + ([CLOSE_OBJECT] + rest), v.fields, rest);
    }
  }

  lemma AllFields(v: Json)
    requires v.Obj?
    ensures FieldsFrom(v, 0) == v.fields
  {
    assert forall k :: k in v.fields ==> k in Keys(v)[0..];
  }

  lemma ObjectPrefix(v: Json, rest: seq<byte>)
    requires v.Obj? && Keys(v) != [] && Keys(v)[0] in v.fields
    ensures var tail := PrintFields(v, 0) + ([CLOSE_OBJECT] + rest);
            && Print(v) + rest == [OPEN_OBJECT] + tail
            && tail != [] && tail[0] == QUOTE
            && Unled(PrintFields(v, 0), 0) == PrintFields(v, 0)
  {
    FieldsUnfold(v, 0, [CLOSE_OBJECT] + rest);
    Assoc([OPEN_OBJECT], PrintFields(v, 0), [CLOSE_OBJECT]);
    Assoc([OPEN_OBJECT], PrintFields(v, 0) + [CLOSE_OBJECT], rest);
    Assoc(PrintFields(v, 0), [CLOSE_OBJECT], rest);
  }

  lemma ObjectStep(s: seq<byte>, tail: seq<byte>, fields: map<Text, Json>, rest: seq<byte>)
    requires s == [OPEN_OBJECT] + tail && tail != [] && tail[0] == QUOTE
    requires ParseFields(tail) == Some((fields, rest))
    ensures Parse(s) == Some((Obj(fields), rest))
  {
    assert s[0] == OPEN_OBJECT && s[1..] == tail && s[1] == QUOTE;
  }

  // Without the separating comma in front, as the parser meets them.
  ghost function Unled(printed: seq<byte>, i: nat): seq<byte> {
    if i > 0 && printed != [] then printed[1..] else printed
  }

  lemma Regroup(lead: seq<byte>, a: seq<byte>, b: seq<byte>, c: seq<byte>, d: seq<byte>, tail: seq<byte>)
    requires |lead| <= 1
    ensures var p := lead + (a + b + c + d);
            (if lead != [] then p[1..] else p) + tail == a + (b + (c + (d + tail)))
  {
    var p := lead + (a + b + c + d);
    assert p[|lead|..] == a + b + c + d;
  }

  lemma ItemsUnfold(v: Json, i: nat, tail: seq<byte>)
    requires v.Arr? && i < |v.items|
    ensures Unled(PrintItems(v, i), i) + tail == Print(v.items[i]) + (PrintItems(v, i + 1) + tail)
  {
    var lead, p, rest := if i > 0 then [COMMA] else [], Print(v.items[i]), PrintItems(v, i + 1);
    assert p + [] + [] + rest == p + rest;
    Regroup(lead, p, [], [], rest, tail);
    assert [] + ([] + (rest + tail)) == rest + tail;
  }

  // What follows a value: a comma and the next one, or the closing bracket.
  lemma AfterValue(next: seq<byte>, close: byte, rest: seq<byte>)
    requires next == [] || next[0] == COMMA
    ensures var after := next + ([close] + rest);
            && after != []
            && (next != [] ==> after[0] == COMMA && after[1..] == next[1..] + ([close] + rest))
            && (next == [] ==> after[0] == close && after[1..] == rest)
  {
  }

  lemma ItemsLead(v: Json, i: nat)
    requires v.Arr? && 0 < i < |v.items|
    ensures PrintItems(v, i) != [] && PrintItems(v, i)[0] == COMMA
  {
  }

  lemma ItemsAfter(v: Json, i: nat, rest: seq<byte>)
    requires v.Arr? && i < |v.items|
    ensures var after := PrintItems(v, i + 1) + ([CLOSE_ARRAY] + rest);
            && after != []
            && Ends(after)
            && (i + 1 < |v.items| ==> after[0] == COMMA && after[1..] == Unled(PrintItems(v, i + 1), i + 1) + ([CLOSE_ARRAY] + rest))
            && (i + 1 == |v.items| ==> after[0] == CLOSE_ARRAY && after[1..] == rest)
  {
    if i + 1 < |v.items| {
      ItemsLead(v, i + 1);
    }
    AfterValue(PrintItems(v, i + 1), CLOSE_ARRAY, rest);
  }

  // How the parser continues after a value.
  lemma ItemsNext(s: seq<byte>, x: Json, after: seq<byte>, more: seq<Json>, rest: seq<byte>)
    requires Parse(s) == Some((x, after)) && after != [] && after[0] == COMMA
    requires ParseItems(after[1..]) == Some((more, rest))
    ensures ParseItems(s) == Some(([x] + more, rest))
  {
  }

  lemma ItemsEnd(s: seq<byte>, x: Json, after: seq<byte>)
    requires Parse(s) == Some((x, after)) && after != [] && after[0] == CLOSE_ARRAY
    ensures ParseItems(s) == Some(([x], after[1..]))
  {
  }

  lemma SliceFrom(items: seq<Json>, i: nat)
    requires i < |items|
    ensures items[i..] == [items[i]] + items[i + 1..]
    ensures i + 1 == |items| ==> items[i..] == [items[i]]
  {
  }

  // The parser reads the i-th item and stops at what follows it.
  lemma {:induction false} ItemParsed(v: Json, i: nat, rest: seq<byte>)
    requires v.Arr? && Decoded(v) && i < |v.items|
    ensures Parse(Unled(PrintItems(v, i), i) + ([CLOSE_ARRAY] + rest)) == Some((v.items[i], PrintItems(v, i + 1) + ([CLOSE_ARRAY] + rest)))
    decreases v, 1, |v.items| - i, 0
  {
    var tail := [CLOSE_ARRAY] + rest;
    ItemsUnfold(v, i, tail);
    ItemsAfter(v, i, rest);
    RoundTrip(v.items[i], PrintItems(v, i + 1) + tail);
  }

  lemma {:induction false} ItemsRoundTrip(v: Json, i: nat, rest: seq<byte>)
    requires v.Arr? && Decoded(v) && i < |v.items|
    ensures ParseItems(Unled(PrintItems(v, i), i) + ([CLOSE_ARRAY] + rest)) == Some((v.items[i..], rest))
    decreases v, 1, |v.items| - i, 1
  {
    var text := Unled(PrintItems(v, i), i) + ([CLOSE_ARRAY] + rest);
    var after := PrintItems(v, i + 1) + ([CLOSE_ARRAY] + rest);
    ItemParsed(v, i, rest);
    ItemsAfter(v, i, rest);
    SliceFrom(v.items, i);
    if i + 1 < |v.items| {
      ItemsRoundTrip(v, i + 1, rest);
      ItemsNext(text, v.items[i], after, v.items[i + 1..], rest);
    } else {
      ItemsEnd(text, v.items[i], after);
    }
  }

  // The fields whose keys come at or after position i.
  ghost function FieldsFrom(v: Json, i: nat): map<Text, Json>
    requires v.Obj? && i <= |Keys(v)|
  {
    map k | k in v.fields && k in Keys(v)[i..] :: v.fields[k]
  }

  lemma KeysFrom(v: Json, i: nat)
    requires v.Obj? && i < |Keys(v)|
    ensures Keys(v)[i] in v.fields.Keys
    ensures forall k :: k in Keys(v)[i..] <==> k == Keys(v)[i] || k in Keys(v)[i + 1..]
    ensures Keys(v)[i + 1..] == [] <==> i + 1 == |Keys(v)|
  {
    assert Keys(v)[i..] == [Keys(v)[i]] + Keys(v)[i + 1..];
  }

  lemma FieldsFromStep(v: Json, i: nat)
    requires v.Obj? && i < |Keys(v)|
    ensures Keys(v)[i] in v.fields
    ensures FieldsFrom(v, i) == map[Keys(v)[i] := v.fields[Keys(v)[i]]] + FieldsFrom(v, i + 1)
    ensures i + 1 == |Keys(v)| ==> FieldsFrom(v, i) == map[Keys(v)[i] := v.fields[Keys(v)[i]]]
  {
    KeysFrom(v, i);
    KeysDistinct(v, i);
  }

  lemma FieldsUnfold(v: Json, i: nat, tail: seq<byte>)
    requires v.Obj? && i < |Keys(v)| && Keys(v)[i] in v.fields
    ensures Unled(PrintFields(v, i), i) + tail ==
              PrintString(Keys(v)[i]) + ([COLON] + (Print(v.fields[Keys(v)[i]]) + (PrintFields(v, i + 1) + tail)))
  {
    var k := Keys(v)[i];
    var lead, key, p, rest := if i > 0 then [COMMA] else [], PrintString(k), Print(v.fields[k]), PrintFields(v, i + 1);
    Regroup(lead, key, [COLON], p, rest, tail);
  }

  lemma FieldsLead(v: Json, i: nat)
    requires v.Obj? && 0 < i < |Keys(v)|
    ensures PrintFields(v, i) != [] && PrintFields(v, i)[0] == COMMA
  {
    assert Keys(v)[i] in v.fields.Keys;
  }

  lemma FieldsAfter(v: Json, i: nat, rest: seq<byte>)
    requires v.Obj? && i < |Keys(v)|
    ensures var after := PrintFields(v, i + 1) + ([CLOSE_OBJECT] + rest);
            && after != []
            && Ends(after)
            && (i + 1 < |Keys(v)| ==> after[0] == COMMA && after[1..] == Unled(PrintFields(v, i + 1), i + 1) + ([CLOSE_OBJECT] + rest))
            && (i + 1 == |Keys(v)| ==> after[0] == CLOSE_OBJECT && after[1..] == rest)
  {
    if i + 1 < |Keys(v)| {
      FieldsLead(v, i + 1);
    }
    AfterValue(PrintFields(v, i + 1), CLOSE_OBJECT, rest);
  }

  lemma FieldsStep(s: seq<byte>, k: Text, value: seq<byte>, x: Json, after: seq<byte>)
    requires ParseString(s) == Some((k, [COLON] + value))
    requires Parse(value) == Some((x, after)) && after != []
    ensures after[0] == CLOSE_OBJECT ==> ParseFields(s) == Some((map[k := x], after[1..]))
    ensures after[0] == COMMA ==>
              ParseFields(s) == (var more := ParseFields(after[1..]);
                                 if more.None? then None else Some((map[k := x] + more.value.0, more.value.1)))
  {
    assert ([COLON] + value)[1..] == value;
  }

  lemma {:induction false} FieldsRoundTrip(v: Json, i: nat, rest: seq<byte>)
    requires v.Obj? && Decoded(v) && i < |Keys(v)|
    ensures ParseFields(Unled(PrintFields(v, i), i) + ([CLOSE_OBJECT] + rest)) == Some((FieldsFrom(v, i), rest))
    decreases v, 1, |Keys(v)| - i
  {
    FieldsFromStep(v, i);
    var k := Keys(v)[i];
    var tail := [CLOSE_OBJECT] + rest;
    var after := PrintFields(v, i + 1) + tail;
    var value := Print(v.fields[k]) + after;
    FieldsUnfold(v, i, tail);
    FieldsAfter(v, i, rest);
    StringRoundTrip(k, [COLON] + value);
    RoundTrip(v.fields[k], after);
    FieldsStep(PrintString(k) + ([COLON] + value), k, value, v.fields[k], after);
    if i + 1 < |Keys(v)| {
      FieldsRoundTrip(v, i + 1, rest);
    }
  }

  lemma KeysDistinct(v: Json, i: nat)
    requires v.Obj? && i < |Keys(v)|
    ensures Keys(v)[i] !in Keys(v)[i + 1..]
  {
    forall j | i < j < |Keys(v)| ensures Keys(v)[i] != Keys(v)[j] {
      LessAsymmetric(Keys(v)[i], Keys(v)[j]);
    }
  }

  // Equal printed bytes mean equal values, so equal digests of canonical JSON
  // do: PythonCanonicalSHA256 identifies a document up to key order.
  lemma PrintInjective(v: Json, w: Json)
    requires Decoded(v) && Decoded(w)
    ensures Print(v) == Print(w) <==> v == w
  {
    RoundTrip(v, []);
    RoundTrip(w, []);
    assert Print(v) + [] == Print(v) && Print(w) + [] == Print(w);
  }
}
