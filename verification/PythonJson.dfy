// The text that Python's json.dumps writes with sorted keys, no spaces and
// ASCII only, said byte by byte and without the printer
// (internal/host/canonical.go), and that the printer writes exactly that.
module PythonJson {
  import opened Runes
  import opened CanonicalJson

  // The bytes are these ASCII characters.
  predicate Reads(out: seq<byte>, text: string) {
    |out| == |text| && forall i :: 0 <= i < |out| ==> out[i] == text[i] as int
  }

  function Mark(c: char): seq<byte>
    requires c as int < 0x80
  {
    [c as int]
  }

  const HEX_DIGITS: string := "0123456789abcdef"

  // A backslash, a u and the four digits of n.
  predicate Hexed(out: seq<byte>, n: int)
    requires 0 <= n < 0x10000
  {
    Reads(out, ['\\', 'u', HEX_DIGITS[n / 0x1000], HEX_DIGITS[n / 0x100 % 0x10], HEX_DIGITS[n / 0x10 % 0x10], HEX_DIGITS[n % 0x10]])
  }

  // One character: seven have an escape of their own, the other printable ASCII
  // characters stand for themselves, and all others are written as one or two
  // UTF-16 units.
  predicate Written(r: Rune, out: seq<byte>) {
    match r
    case 8 => Reads(out, "\\b")
    case 9 => Reads(out, "\\t")
    case 10 => Reads(out, "\\n")
    case 12 => Reads(out, "\\f")
    case 13 => Reads(out, "\\r")
    case 34 => Reads(out, "\\\"")
    case 92 => Reads(out, "\\\\")
    case _ =>
      if ' ' as int <= r <= '~' as int then out == [r]
      else if r < 0x10000 then Hexed(out, r)
      else
        && |out| == 12 && Hexed(out[..6], 0xD800 + (r - 0x10000) / 0x400) && Hexed(out[6..], 0xDC00 + (r - 0x10000) % 0x400)
  }

  function Flat(parts: seq<seq<byte>>): seq<byte> {
    if parts == [] then [] else parts[0] + Flat(parts[1..])
  }

  function Joined(parts: seq<seq<byte>>): seq<byte> {
    if parts == [] then []
    else if |parts| == 1 then parts[0]
    else parts[0] + Mark(',') + Joined(parts[1..])
  }

  ghost predicate AllWritten(s: Text, parts: seq<seq<byte>>) {
    |parts| == |s| && forall i :: 0 <= i < |s| ==> Written(s[i], parts[i])
  }

  ghost predicate StringForm(s: Text, out: seq<byte>) {
    exists parts :: AllWritten(s, parts) && out == Mark('"') + Flat(parts) + Mark('"')
  }

  // A value: literals, numbers as they were read, and brackets around what the
  // items and the fields, in the order of their keys, are written as.
  ghost predicate Form(v: Json, out: seq<byte>)
    decreases v, 2
  {
    match v
    case Null => Reads(out, "null")
    case Bool(b) => Reads(out, if b then "true" else "false")
    case Number(t) => out == t
    case Str(s) => StringForm(s, out)
    case Arr(items) => exists parts :: ItemForms(v, parts) && out == Mark('[') + Joined(parts) + Mark(']')
    case Obj(fields) =>
      exists keys, names, values :: FieldForms(v, keys, names, values) && out == Braced(names, values)
  }

  ghost predicate ItemForms(v: Json, parts: seq<seq<byte>>)
    requires v.Arr?
    decreases v, 1
  {
    |parts| == |v.items| && forall i :: 0 <= i < |parts| ==> Form(v.items[i], parts[i])
  }

  ghost predicate FieldForms(v: Json, keys: seq<Text>, names: seq<seq<byte>>, values: seq<seq<byte>>)
    requires v.Obj?
    decreases v, 1
  {
    && Sorted(keys) && (forall k :: k in keys <==> k in v.fields) && |names| == |values| == |keys|
    && forall i :: 0 <= i < |keys| ==> keys[i] in v.fields && StringForm(keys[i], names[i]) && Form(v.fields[keys[i]], values[i])
  }

  function Braced(names: seq<seq<byte>>, values: seq<seq<byte>>): seq<byte> {
    Mark('{') + Joined(Named(names, values)) + Mark('}')
  }

  function Named(names: seq<seq<byte>>, values: seq<seq<byte>>): (fields: seq<seq<byte>>) {
    if |names| != |values| || names == [] then []
    else [names[0] + Mark(':') + values[0]] + Named(names[1..], values[1..])
  }

  // ---- the printer writes it ----

  lemma HexDigits(d: int)
    requires 0 <= d < 16
    ensures HexDigit(d) == HEX_DIGITS[d] as int
  {
    assert HEX_DIGITS == "0123456789abcdef";
  }

  lemma UnitIsHexed(n: int)
    requires 0 <= n < 0x10000
    ensures Hexed(Unit(n), n)
  {
    HexDigits(n / 0x1000);
    HexDigits(n / 0x100 % 0x10);
    HexDigits(n / 0x10 % 0x10);
    HexDigits(n % 0x10);
  }

  lemma EscapeIsWritten(r: Rune)
    ensures Written(r, Escape(r))
  {
    if r >= 0x10000 {
      var h, l := HighSurrogate(r), LowSurrogate(r);
      UnitIsHexed(h);
      UnitIsHexed(l);
      assert Escape(r)[..6] == Unit(h) && Escape(r)[6..] == Unit(l);
    } else if r < 0x20 || r >= 0x7F {
      UnitIsHexed(r);
    }
  }

  lemma {:induction false} BodyIsWritten(s: Text) returns (parts: seq<seq<byte>>)
    ensures AllWritten(s, parts) && Body(s) == Flat(parts)
  {
    parts := [];
    if s != [] {
      EscapeIsWritten(s[0]);
      var rest := BodyIsWritten(s[1..]);
      parts := [Escape(s[0])] + rest;
      assert parts[1..] == rest;
      assert forall i :: 0 < i < |s| ==> s[i] == s[1..][i - 1];
    }
  }

  lemma PrintStringForm(s: Text)
    ensures StringForm(s, PrintString(s))
  {
    var parts := BodyIsWritten(s);
  }

  // ---- and nothing else is ----

  lemma ReadsOnce(a: seq<byte>, b: seq<byte>, text: string)
    requires Reads(a, text) && Reads(b, text)
    ensures a == b
  {
  }

  lemma WrittenOnce(r: Rune, a: seq<byte>, b: seq<byte>)
    requires Written(r, a) && Written(r, b)
    ensures a == b
  {
    if r >= 0x10000 {
      assert a == a[..6] + a[6..] && b == b[..6] + b[6..];
    }
  }

  lemma AllWrittenOnce(s: Text, a: seq<seq<byte>>, b: seq<seq<byte>>)
    requires AllWritten(s, a) && AllWritten(s, b)
    ensures a == b
  {
    forall i | 0 <= i < |s| ensures a[i] == b[i] {
      WrittenOnce(s[i], a[i], b[i]);
    }
  }

  lemma StringFormExactly(s: Text, out: seq<byte>)
    ensures StringForm(s, out) <==> out == PrintString(s)
  {
    PrintStringForm(s);
    if StringForm(s, out) {
      var a :| AllWritten(s, a) && out == Mark('"') + Flat(a) + Mark('"');
      var b := BodyIsWritten(s);
      AllWrittenOnce(s, a, b);
    }
  }

  lemma ItemsJoined(v: Json, parts: seq<seq<byte>>, i: nat)
    requires v.Arr? && |parts| == |v.items| && i <= |parts|
    requires forall k :: 0 <= k < |parts| ==> parts[k] == Print(v.items[k])
    ensures PrintItems(v, i) == (if 0 < i < |parts| then Mark(',') else []) + Joined(parts[i..])
    decreases |parts| - i
  {
    if i < |parts| {
      ItemsJoined(v, parts, i + 1);
      assert parts[i..][1..] == parts[i + 1..];
      JoinedStep(parts[i..]);
      Spread(if i > 0 then Mark(',') else [], parts[i], if i + 1 < |parts| then Mark(',') else [], Joined(parts[i + 1..]));
    }
  }

  lemma JoinedStep(parts: seq<seq<byte>>)
    requires parts != []
    ensures Joined(parts) == parts[0] + ((if |parts| > 1 then Mark(',') else []) + Joined(parts[1..]))
  {
    if |parts| > 1 {
      Assoc(parts[0], Mark(','), Joined(parts[1..]));
    }
  }

  lemma Spread(lead: seq<byte>, a: seq<byte>, mark: seq<byte>, rest: seq<byte>)
    ensures lead + (a + (mark + rest)) == (lead + a) + (mark + rest)
  {
  }

  // What one field is printed as.
  ghost function FieldText(v: Json, k: Text): seq<byte>
    requires v.Obj? && k in v.fields
  {
    PrintString(k) + [COLON] + Print(v.fields[k])
  }

  lemma FieldsJoined(v: Json, parts: seq<seq<byte>>, i: nat)
    requires v.Obj? && |parts| == |Keys(v)| && i <= |parts|
    requires forall k :: 0 <= k < |parts| ==> Keys(v)[k] in v.fields && parts[k] == FieldText(v, Keys(v)[k])
    ensures PrintFields(v, i) == (if 0 < i < |parts| then Mark(',') else []) + Joined(parts[i..])
    decreases |parts| - i
  {
    if i < |parts| {
      FieldsJoined(v, parts, i + 1);
      assert parts[i..][1..] == parts[i + 1..];
      JoinedStep(parts[i..]);
      Spread(if i > 0 then Mark(',') else [], parts[i], if i + 1 < |parts| then Mark(',') else [], Joined(parts[i + 1..]));
    }
  }

  lemma KeysAre(v: Json, keys: seq<Text>)
    requires v.Obj?
    ensures Sorted(keys) && (forall k :: k in keys <==> k in v.fields) <==> keys == Keys(v)
  {
    assert forall k :: k in Keys(v) <==> k in v.fields.Keys;
    if Sorted(keys) && forall k :: k in keys <==> k in v.fields {
      SortedKeysUnique(keys, Keys(v));
    }
  }

  // A value is written in this form as it is printed, and in no other way.
  lemma {:induction false} FormExactly(v: Json, out: seq<byte>)
    ensures Form(v, out) <==> out == Print(v)
    decreases v, 2
  {
    match v
    case Null =>
    case Bool(b) =>
    case Number(t) =>
    case Str(s) => StringFormExactly(s, out);
    case Arr(items) => ArrayExactly(v, out);
    case Obj(fields) => ObjectExactly(v, out);
  }

  lemma {:induction false} ItemExactly(v: Json, parts: seq<seq<byte>>)
    requires v.Arr?
    ensures ItemForms(v, parts) <==> |parts| == |v.items| && forall i :: 0 <= i < |parts| ==> parts[i] == Print(v.items[i])
    decreases v, 0
  {
    forall i | 0 <= i < |v.items| && i < |parts| ensures Form(v.items[i], parts[i]) <==> parts[i] == Print(v.items[i]) {
      FormExactly(v.items[i], parts[i]);
    }
  }

  lemma {:induction false} ArrayExactly(v: Json, out: seq<byte>)
    requires v.Arr?
    ensures Form(v, out) <==> out == Print(v)
    decreases v, 1
  {
    var printed := seq(|v.items|, i requires 0 <= i < |v.items| => Print(v.items[i]));
    ItemExactly(v, printed);
    ItemsJoined(v, printed, 0);
    assert printed[0..] == printed;
    assert Print(v) == Mark('[') + Joined(printed) + Mark(']');
    if Form(v, out) {
      var parts :| ItemForms(v, parts) && out == Mark('[') + Joined(parts) + Mark(']');
      ItemExactly(v, parts);
      assert parts == printed;
    }
  }

  lemma {:induction false} NamedAt(names: seq<seq<byte>>, values: seq<seq<byte>>)
    requires |names| == |values|
    ensures |Named(names, values)| == |names|
    ensures forall i :: 0 <= i < |names| ==> Named(names, values)[i] == names[i] + Mark(':') + values[i]
  {
    if names != [] {
      NamedAt(names[1..], values[1..]);
      assert forall i :: 0 < i < |names| ==> names[i] == names[1..][i - 1] && values[i] == values[1..][i - 1];
    }
  }

  // The fields in any form are those that are printed.
  lemma {:induction false} FieldsExactly(v: Json, keys: seq<Text>, names: seq<seq<byte>>, values: seq<seq<byte>>)
    requires v.Obj? && FieldForms(v, keys, names, values)
    ensures keys == Keys(v) && Joined(Named(names, values)) == PrintFields(v, 0)
    decreases v, 0
  {
    KeysAre(v, keys);
    NamedAt(names, values);
    var parts := Named(names, values);
    forall i | 0 <= i < |parts| ensures parts[i] == FieldText(v, keys[i]) {
      StringFormExactly(keys[i], names[i]);
      FormExactly(v.fields[keys[i]], values[i]);
    }
    FieldsJoined(v, parts, 0);
    assert parts[0..] == parts;
  }

  // And there is one.
  lemma {:induction false} FieldsPrinted(v: Json) returns (names: seq<seq<byte>>, values: seq<seq<byte>>)
    requires v.Obj?
    ensures FieldForms(v, Keys(v), names, values)
    decreases v, 0
  {
    var keys := Keys(v);
    KeysAre(v, keys);
    names := seq(|keys|, i requires 0 <= i < |keys| => PrintString(keys[i]));
    values := seq(|keys|, i requires 0 <= i < |keys| => Print(v.fields[keys[i]]));
    forall i | 0 <= i < |keys| ensures StringForm(keys[i], names[i]) && Form(v.fields[keys[i]], values[i]) {
      PrintStringForm(keys[i]);
      FormExactly(v.fields[keys[i]], values[i]);
    }
  }

  lemma {:induction false} ObjectExactly(v: Json, out: seq<byte>)
    requires v.Obj?
    ensures Form(v, out) <==> out == Print(v)
    decreases v, 1
  {
    var names, values := FieldsPrinted(v);
    FieldsExactly(v, Keys(v), names, values);
    assert Printed(v) == Print(v);
    forall keys, ns, vs | FieldForms(v, keys, ns, vs) ensures Braced(ns, vs) == Print(v) {
      FieldsExactly(v, keys, ns, vs);
    }
  }

  ghost function Printed(v: Json): seq<byte>
    requires v.Obj?
  {
    Mark('{') + PrintFields(v, 0) + Mark('}')
  }

  // PythonCanonicalSHA256, without the digest of what it writes.
  method PythonCanonical(v: Json) returns (out: seq<byte>)
    ensures Form(v, out)
  {
    var b := new Buffer();
    WritePy(b, v);
    FormExactly(v, Print(v));
    out := b.bytes;
  }
}
