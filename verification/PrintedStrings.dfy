// The two readers of JSON text agree: a string as the canonical printer writes
// it, astral characters as surrogate pairs included, is one the surrogate
// check accepts (internal/host/canonical.go, internal/model/contract.go).
module PrintedStrings {
  import Runes
  import CanonicalJson
  import opened Surrogates

  // out stands in raw at i.
  predicate At(raw: seq<byte>, i: nat, out: seq<byte>) {
    i + |out| <= |raw| && raw[i..i + |out|] == out
  }

  lemma AtByte(raw: seq<byte>, i: nat, out: seq<byte>, k: nat)
    requires At(raw, i, out) && k < |out|
    ensures raw[i + k] == out[k]
  {
    assert raw[i..i + |out|][k] == raw[i + k];
  }

  lemma AtSplit(raw: seq<byte>, i: nat, a: seq<byte>, b: seq<byte>)
    requires At(raw, i, a + b)
    ensures At(raw, i, a) && At(raw, i + |a|, b)
  {
    assert raw[i..i + |a + b|][..|a|] == raw[i..i + |a|];
    assert raw[i..i + |a + b|][|a|..] == raw[i + |a|..i + |a| + |b|];
  }

  lemma DigitReads(d: int)
    requires 0 <= d < 16
    ensures HexDigit(CanonicalJson.HexDigit(d)) == d
  {
  }

  lemma FourDigits(n: int)
    requires 0 <= n < 0x10000
    ensures 4096 * (n / 4096) + 256 * (n / 256 % 16) + 16 * (n / 16 % 16) + n % 16 == n
  {
    var a := n / 16;
    var b := a / 16;
    var c := b / 16;
    assert b == n / 256 && c == n / 4096;
    assert n == 16 * a + n % 16 && a == 16 * b + a % 16 && b == 16 * c + b % 16;
  }

  lemma UnitBytes(raw: seq<byte>, i: nat, n: int)
    requires 0 <= n < 0x10000 && At(raw, i, CanonicalJson.Unit(n))
    ensures i + 6 <= |raw| && raw[i] == BACKSLASH && raw[i + 1] == LOWER_U
    ensures HexDigit(raw[i + 2]) == n / 4096 && HexDigit(raw[i + 3]) == n / 256 % 16
    ensures HexDigit(raw[i + 4]) == n / 16 % 16 && HexDigit(raw[i + 5]) == n % 16
  {
    var out := CanonicalJson.Unit(n);
    AtByte(raw, i, out, 0);
    AtByte(raw, i, out, 1);
    AtByte(raw, i, out, 2);
    AtByte(raw, i, out, 3);
    AtByte(raw, i, out, 4);
    AtByte(raw, i, out, 5);
    DigitReads(n / 4096);
    DigitReads(n / 256 % 16);
    DigitReads(n / 16 % 16);
    DigitReads(n % 16);
  }

  lemma UnitReads(raw: seq<byte>, i: nat, n: int)
    requires 0 <= n < 0x10000 && At(raw, i, CanonicalJson.Unit(n))
    ensures Hex4(raw, i) == n
  {
    UnitBytes(raw, i, n);
    FourDigits(n);
  }

  // The check accepts what follows i inside a string.
  predicate Passes(raw: seq<byte>, i: nat) {
    Paired(Lex(raw, i, true))
  }

  lemma PairedRest(ts: seq<Token>)
    ensures ts != [] && !High(ts[0]) && !Low(ts[0]) ==> (Paired(ts) <==> Paired(ts[1..]))
  {
  }

  lemma OtherPasses(raw: seq<byte>, i: nat)
    requires i < |raw| && raw[i] != QUOTE && Hex4(raw, i) < 0
    ensures Passes(raw, i) <==> Passes(raw, if raw[i] == BACKSLASH then i + 2 else i + 1)
  {
    PairedRest(Lex(raw, i, true));
  }

  lemma UnitPasses(raw: seq<byte>, i: nat, n: int)
    requires 0 <= n < 0x10000 && !(0xD800 <= n < 0xE000) && At(raw, i, CanonicalJson.Unit(n))
    ensures Passes(raw, i) <==> Passes(raw, i + 6)
  {
    UnitReads(raw, i, n);
    PairedRest(Lex(raw, i, true));
  }

  lemma PairPasses(raw: seq<byte>, i: nat, h: int, l: int)
    requires 0xD800 <= h < 0xDC00 <= l < 0xE000 && At(raw, i, CanonicalJson.Unit(h) + CanonicalJson.Unit(l))
    ensures Passes(raw, i) <==> Passes(raw, i + 12)
  {
    AtSplit(raw, i, CanonicalJson.Unit(h), CanonicalJson.Unit(l));
    UnitReads(raw, i, h);
    UnitReads(raw, i + 6, l);
    LexHigh(raw, i);
  }

  // One character leaves the check as it found it.
  lemma RunePasses(raw: seq<byte>, i: nat, r: Runes.Rune)
    requires At(raw, i, CanonicalJson.Escape(r))
    ensures Passes(raw, i) <==> Passes(raw, i + |CanonicalJson.Escape(r)|)
  {
    var out := CanonicalJson.Escape(r);
    if r >= 0x10000 {
      PairPasses(raw, i, CanonicalJson.HighSurrogate(r), CanonicalJson.LowSurrogate(r));
    } else if |out| == 6 {
      UnitPasses(raw, i, r);
    } else {
      AtByte(raw, i, out, 0);
      if |out| == 2 {
        AtByte(raw, i, out, 1);
      }
      OtherPasses(raw, i);
    }
  }

  lemma {:induction false} BodyPasses(raw: seq<byte>, i: nat, s: Runes.Text)
    requires At(raw, i, CanonicalJson.Body(s))
    ensures Passes(raw, i) <==> Passes(raw, i + |CanonicalJson.Body(s)|)
    decreases |s|
  {
    if s != [] {
      var first, rest := CanonicalJson.Escape(s[0]), CanonicalJson.Body(s[1..]);
      BodyStep(s);
      AtSplit(raw, i, first, rest);
      RunePasses(raw, i, s[0]);
      BodyPasses(raw, i + |first|, s[1..]);
    }
  }

  lemma BodyStep(s: Runes.Text)
    requires s != []
    ensures CanonicalJson.Body(s) == CanonicalJson.Escape(s[0]) + CanonicalJson.Body(s[1..])
  {
  }

  // Every printed string passes.
  lemma PrintedStringPasses(s: Runes.Text)
    ensures Paired(Lex(CanonicalJson.PrintString(s), 0, false))
  {
    var raw: seq<byte> := CanonicalJson.PrintString(s);
    var n := |CanonicalJson.Body(s)|;
    assert raw[1..1 + n] == CanonicalJson.Body(s);
    assert raw[0] == QUOTE && raw[n + 1] == QUOTE && |raw| == n + 2;
    BodyPasses(raw, 1, s);
    assert Lex(raw, n + 2, false) == [];
    PairedRest(Lex(raw, n + 1, true));
    PairedRest(Lex(raw, 0, false));
  }
}
