// Refusing lone UTF-16 surrogate escapes in JSON text
// (internal/model/contract.go, checkSurrogates).
module Surrogates {
  type byte = x: int | 0 <= x < 256

  const QUOTE: byte := 34
  const BACKSLASH: byte := 92
  const LOWER_U: byte := 117

  // A \u escape inside a string, or anything else.
  datatype Token = Other | Escape(unit: int)

  function HexDigit(c: byte): int {
    if 48 <= c <= 57 then c - 48
    else if 97 <= c <= 102 then c - 97 + 10
    else if 65 <= c <= 70 then c - 65 + 10
    else -1
  }

  // The code unit of the escape at i, or -1.
  function Hex4(raw: seq<byte>, i: nat): (unit: int)
    ensures unit >= 0 ==> i + 6 <= |raw| && raw[i] == BACKSLASH
  {
    if i + 6 > |raw| || raw[i] != BACKSLASH || raw[i + 1] != LOWER_U then -1
    else
      var (a, b, c, d) := (HexDigit(raw[i + 2]), HexDigit(raw[i + 3]), HexDigit(raw[i + 4]), HexDigit(raw[i + 5]));
      if a < 0 || b < 0 || c < 0 || d < 0 then -1 else 4096 * a + 256 * b + 16 * c + d
  }

  const LOWER_DIGITS: string := "0123456789abcdef"
  const UPPER_DIGITS: string := "0123456789ABCDEF"

  predicate Digit(c: byte, d: int) {
    0 <= d < 16 && (c == LOWER_DIGITS[d] as int || c == UPPER_DIGITS[d] as int)
  }

  // An escape is a backslash, a lower-case u and four hexadecimal digits of
  // either case, and its unit is their value.
  predicate Spells(raw: seq<byte>, i: nat, a: int, b: int, c: int, d: int) {
    && i + 6 <= |raw| && raw[i] == '\\' as int && raw[i + 1] == 'u' as int
    && Digit(raw[i + 2], a) && Digit(raw[i + 3], b) && Digit(raw[i + 4], c) && Digit(raw[i + 5], d)
  }

  lemma DigitExactly(c: byte, d: int)
    requires 0 <= d < 16
    ensures HexDigit(c) == d <==> Digit(c, d)
  {
    assert LOWER_DIGITS == "0123456789abcdef" && UPPER_DIGITS == "0123456789ABCDEF";
  }

  lemma Hex4Exactly(raw: seq<byte>, i: nat)
    ensures forall a, b, c, d :: Spells(raw, i, a, b, c, d) ==> Hex4(raw, i) == a * 0x1000 + b * 0x100 + c * 0x10 + d
    ensures Hex4(raw, i) >= 0 ==> exists a, b, c, d :: Spells(raw, i, a, b, c, d)
  {
    forall a, b, c, d | Spells(raw, i, a, b, c, d) ensures Hex4(raw, i) == a * 0x1000 + b * 0x100 + c * 0x10 + d {
      DigitExactly(raw[i + 2], a);
      DigitExactly(raw[i + 3], b);
      DigitExactly(raw[i + 4], c);
      DigitExactly(raw[i + 5], d);
    }
    if Hex4(raw, i) >= 0 {
      var a, b, c, d := HexDigit(raw[i + 2]), HexDigit(raw[i + 3]), HexDigit(raw[i + 4]), HexDigit(raw[i + 5]);
      DigitExactly(raw[i + 2], a);
      DigitExactly(raw[i + 3], b);
      DigitExactly(raw[i + 4], c);
      DigitExactly(raw[i + 5], d);
      assert Spells(raw, i, a, b, c, d);
    }
  }

  predicate High(t: Token) {
    t.Escape? && 0xD800 <= t.unit <= 0xDBFF
  }

  predicate Low(t: Token) {
    t.Escape? && 0xDC00 <= t.unit <= 0xDFFF
  }

  // The text from i on, as JSON reads it: an escape is one token, and so is
  // any other escaped character or byte.
  function Lex(raw: seq<byte>, i: nat, inString: bool): seq<Token>
    decreases |raw| - i
  {
    if i >= |raw| then []
    else if !inString then [Other] + Lex(raw, i + 1, raw[i] == QUOTE)
    else if raw[i] == QUOTE then [Other] + Lex(raw, i + 1, false)
    else if raw[i] == BACKSLASH then
      if Hex4(raw, i) < 0 then [Other] + Lex(raw, i + 2, true) else [Escape(Hex4(raw, i))] + Lex(raw, i + 6, true)
    else [Other] + Lex(raw, i + 1, true)
  }

  // Read from the left: each high surrogate takes the low one right after it.
  predicate Paired(ts: seq<Token>) {
    if ts == [] then true
    else if High(ts[0]) then |ts| > 1 && Low(ts[1]) && Paired(ts[2..])
    else !Low(ts[0]) && Paired(ts[1..])
  }

  lemma LexHigh(raw: seq<byte>, i: nat)
    requires 0xD800 <= Hex4(raw, i) <= 0xDBFF
    ensures Paired(Lex(raw, i, true)) <==> 0xDC00 <= Hex4(raw, i + 6) <= 0xDFFF && Paired(Lex(raw, i + 12, true))
  {
    var rest := Lex(raw, i + 6, true);
    assert Lex(raw, i, true)[1..] == rest;
    if 0xDC00 <= Hex4(raw, i + 6) <= 0xDFFF {
      assert rest == [Escape(Hex4(raw, i + 6))] + Lex(raw, i + 12, true);
      assert Lex(raw, i, true)[2..] == Lex(raw, i + 12, true);
    }
  }

  method CheckSurrogates(raw: seq<byte>) returns (ok: bool)
    ensures ok <==> Paired(Lex(raw, 0, false))
  {
    var inString, i := false, 0;
    while i < |raw|
      invariant Paired(Lex(raw, 0, false)) <==> Paired(Lex(raw, i, inString))
      decreases |raw| - i
    {
      var c := raw[i];
      if !inString {
        inString := c == QUOTE;
        i := i + 1;
        continue;
      }
      if c == QUOTE {
        inString, i := false, i + 1;
      } else if c == BACKSLASH {
        var r := Hex4(raw, i);
        if r < 0 {
          i := i + 2;
        } else if 0xD800 <= r <= 0xDBFF {
          LexHigh(raw, i);
          var lo := Hex4(raw, i + 6);
          if lo < 0xDC00 || lo > 0xDFFF {
            return false;
          }
          i := i + 12;
        } else if 0xDC00 <= r <= 0xDFFF {
          return false;
        } else {
          i := i + 6;
        }
      } else {
        i := i + 1;
      }
    }
    return true;
  }

  // No surrogate is alone: a high one is followed by a low one, and a low one
  // follows a high one.
  predicate NoneAlone(ts: seq<Token>) {
    && (forall k :: 0 <= k < |ts| && High(ts[k]) ==> k + 1 < |ts| && Low(ts[k + 1]))
    && (forall k :: 0 <= k < |ts| && Low(ts[k]) ==> k > 0 && High(ts[k - 1]))
  }

  lemma NoneAloneRest(ts: seq<Token>, n: nat)
    requires n <= |ts| && NoneAlone(ts) && (n < |ts| ==> !Low(ts[n]))
    ensures NoneAlone(ts[n..])
  {
    var rest := ts[n..];
    forall k | 0 <= k < |rest| && High(rest[k]) ensures k + 1 < |rest| && Low(rest[k + 1]) {
      assert rest[k] == ts[n + k];
    }
    forall k | 0 <= k < |rest| && Low(rest[k]) ensures k > 0 && High(rest[k - 1]) {
      assert rest[k] == ts[n + k];
    }
  }

  // Text is accepted if and only if no surrogate escape in it is alone.
  lemma {:induction false} PairedMeansNoneAlone(ts: seq<Token>)
    ensures Paired(ts) <==> NoneAlone(ts)
    decreases |ts|
  {
    if ts == [] {
    } else if High(ts[0]) {
      if |ts| > 1 && Low(ts[1]) {
        PairedMeansNoneAlone(ts[2..]);
        if Paired(ts[2..]) {
          assert forall k :: 2 <= k < |ts| ==> ts[k] == ts[2..][k - 2];
        }
        if NoneAlone(ts) {
          NoneAloneRest(ts, 2);
        }
      }
    } else if !Low(ts[0]) {
      PairedMeansNoneAlone(ts[1..]);
      if Paired(ts[1..]) {
        assert forall k :: 1 <= k < |ts| ==> ts[k] == ts[1..][k - 1];
      }
      if NoneAlone(ts) && !(|ts| > 1 && Low(ts[1])) {
        NoneAloneRest(ts, 1);
      }
    }
  }
}
