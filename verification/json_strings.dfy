/**
 Decoding of string literals: the parser inverts every way of spelling a text with
 raw bytes, two-character escapes and UTF-16 escapes (section 7 of RFC 8259), and
 the UTF-8 it writes is the one a strict decoder reads (section 3 of RFC 3629).
 Source: FederatedLearningServer/src/cJSON.c:614-899, 901-1021.
 */
module JsonStrings {
  import opened Bytes
  import opened JsonText
  import opened JsonGrammar

  // ----- UTF-16 (section 2.1 of RFC 2781) and UTF-8 as reference encodings

  predicate Scalar(n: nat) {
    n < 0x11_0000 && !HighSurrogate(n) && !LowSurrogate(n)
  }

  /** UTF-16 code units of a scalar value. */
  function Utf16(n: nat): (u: seq<nat>)
    requires Scalar(n)
  {
    if n < 0x1_0000 then [n]
    else [0xD800 + (n - 0x1_0000) / 1024, 0xDC00 + (n - 0x1_0000) % 1024]
  }

  predicate Continuation(b: byte) { 0x80 <= b <= 0xBF }

  /** The bits of `b` that come after its mark. */
  function Bits(b: byte, mark: nat): nat
    requires mark <= b
  {
    b as int - mark
  }

  /** A strict decoder of the first UTF-8 sequence: shortest form, no surrogates. */
  function DecodeUtf8(t: bytes): Option<(nat, nat)> {
    if |t| >= 1 && t[0] < 0x80 then Some((t[0], 1))
    else if |t| >= 2 && 0xC2 <= t[0] <= 0xDF && Continuation(t[1]) then
      Some((Bits(t[0], 0xC0) * 64 + Bits(t[1], 0x80), 2))
    else if |t| >= 3 && 0xE0 <= t[0] <= 0xEF && Continuation(t[1]) && Continuation(t[2])
            && (t[0] == 0xE0 ==> t[1] >= 0xA0) && (t[0] == 0xED ==> t[1] <= 0x9F) then
      Some((Bits(t[0], 0xE0) * 4096 + Bits(t[1], 0x80) * 64 + Bits(t[2], 0x80), 3))
    else if |t| >= 4 && 0xF0 <= t[0] <= 0xF4 && Continuation(t[1]) && Continuation(t[2]) && Continuation(t[3])
            && (t[0] == 0xF0 ==> t[1] >= 0x90) && (t[0] == 0xF4 ==> t[1] <= 0x8F) then
      Some((Bits(t[0], 0xF0) * 262144 + Bits(t[1], 0x80) * 4096 + Bits(t[2], 0x80) * 64 + Bits(t[3], 0x80), 4))
    else None
  }

  lemma SplitsInThree(n: nat)
    requires 0x800 <= n < 0x1_0000
    ensures n == n / 4096 * 4096 + n / 64 % 64 * 64 + n % 64 && n / 4096 < 16
    ensures n / 4096 == 0 ==> n / 64 % 64 >= 32
    ensures n / 4096 == 13 && n < 0xD800 ==> n / 64 % 64 < 32
    ensures n / 4096 == 13 ==> n < 0xE000
  {
    assert n / 64 / 64 == n / 4096;
  }

  lemma SplitsInFour(n: nat)
    requires 0x1_0000 <= n < 0x11_0000
    ensures n == n / 262144 * 262144 + n / 4096 % 64 * 4096 + n / 64 % 64 * 64 + n % 64
    ensures n / 262144 <= 4
    ensures n / 262144 == 0 ==> n / 4096 % 64 >= 16
    ensures n / 262144 == 4 ==> n / 4096 % 64 < 16
  {
    assert n / 64 / 64 == n / 4096 && n / 4096 / 64 == n / 262144;
  }

  /** What the parser writes for a scalar value is valid UTF-8 for exactly that value. */
  lemma Utf8Decodes(n: nat, rest: bytes)
    requires Scalar(n)
    ensures DecodeUtf8(Utf8(n) + rest) == Some((n, |Utf8(n)|))
  {
    var u := Utf8(n);
    var t := u + rest;
    assert t[0] == u[0];
    if n < 0x80 {
    } else if n < 0x800 {
      assert t[1] == u[1];
      assert n / 64 < 32 && n / 64 >= 2;
    } else if n < 0x1_0000 {
      assert t[1] == u[1] && t[2] == u[2];
      SplitsInThree(n);
    } else {
      assert t[1] == u[1] && t[2] == u[2] && t[3] == u[3];
      SplitsInFour(n);
    }
  }

  // ----- spellings of a text

  /** One piece of a literal. `units` spells a scalar value: four hex digits for
      each of its UTF-16 code units, in any mixture of letter cases. */
  datatype Token = Raw(b: byte) | Short(e: byte) | Escape(n: nat, units: seq<bytes>)

  predicate Spells(h: bytes, u: nat) {
    |h| == 4 && (forall i :: 0 <= i < 4 ==> HexValue(h[i]).Some?) && Hex4(h, 0) == u
  }

  predicate WellFormed(k: Token) {
    match k
    case Raw(b) => b != QUOTE && b != BACKSLASH
    case Short(e) => ShortEscape(e).Some?
    case Escape(n, units) =>
      && Scalar(n)
      && |units| == |Utf16(n)|
      && forall i :: 0 <= i < |units| ==> Spells(units[i], Utf16(n)[i])
  }

  function Render(k: Token): bytes
    requires WellFormed(k)
  {
    match k
    case Raw(b) => [b]
    case Short(e) => [BACKSLASH, e]
    case Escape(n, units) =>
      [BACKSLASH, LOWER_U] + units[0] + if |units| == 1 then [] else [BACKSLASH, LOWER_U] + units[1]
  }

  function Meaning(k: Token): bytes
    requires WellFormed(k)
  {
    match k
    case Raw(b) => [b]
    case Short(e) => [ShortEscape(e).value]
    case Escape(n, _) => Utf8(n)
  }

  predicate AllWellFormed(ks: seq<Token>) {
    forall i :: 0 <= i < |ks| ==> WellFormed(ks[i])
  }

  function RenderAll(ks: seq<Token>): bytes
    requires AllWellFormed(ks)
  {
    if ks == [] then [] else Render(ks[0]) + RenderAll(ks[1..])
  }

  function MeaningAll(ks: seq<Token>): bytes
    requires AllWellFormed(ks)
  {
    if ks == [] then [] else Meaning(ks[0]) + MeaningAll(ks[1..])
  }

  // ----- the first pass finds the closing quote

  lemma SkipsUnit(c: bytes, p: nat, h: bytes, u: nat)
    requires Spells(h, u) && At(c, p, [BACKSLASH, LOWER_U] + h)
    ensures ClosingQuote(c, p) == ClosingQuote(c, p + 6)
    ensures Hex4(c, p + 2) == u
  {
    AtSplit(c, p, [BACKSLASH, LOWER_U], h);
    AtIndex(c, p, [BACKSLASH, LOWER_U], 0);
    AtIndex(c, p + 2, h, 0);
    AtIndex(c, p + 2, h, 1);
    AtIndex(c, p + 2, h, 2);
    AtIndex(c, p + 2, h, 3);
    assert ClosingQuote(c, p) == ClosingQuote(c, p + 2);
    assert ClosingQuote(c, p + 2) == ClosingQuote(c, p + 3) == ClosingQuote(c, p + 4);
    assert ClosingQuote(c, p + 4) == ClosingQuote(c, p + 5) == ClosingQuote(c, p + 6);
  }

  lemma SkipsToken(c: bytes, p: nat, k: Token)
    requires WellFormed(k) && At(c, p, Render(k))
    ensures ClosingQuote(c, p) == ClosingQuote(c, p + |Render(k)|)
  {
    match k
    case Raw(b) => AtIndex(c, p, Render(k), 0);
    case Short(e) => AtIndex(c, p, Render(k), 0);
    case Escape(n, units) =>
      var head := [BACKSLASH, LOWER_U] + units[0];
      var tail := if |units| == 1 then [] else [BACKSLASH, LOWER_U] + units[1];
      AtSplit(c, p, head, tail);
      SkipsUnit(c, p, units[0], Utf16(n)[0]);
      if |units| != 1 {
        SkipsUnit(c, p + 6, units[1], Utf16(n)[1]);
      }
  }

  lemma StopsAtQuote(c: bytes, p: nat)
    requires At(c, p, [QUOTE])
    ensures ClosingQuote(c, p) == Some(p)
  {
    AtIndex(c, p, [QUOTE], 0);
  }

  lemma {:induction false} FindsClosingQuote(c: bytes, p: nat, ks: seq<Token>)
    requires AllWellFormed(ks) && At(c, p, RenderAll(ks)) && At(c, p + |RenderAll(ks)|, [QUOTE])
    ensures ClosingQuote(c, p) == Some(p + |RenderAll(ks)|)
    decreases |ks|
  {
    hide ClosingQuote, Render, Matches, WellFormed;
    if ks == [] {
      StopsAtQuote(c, p);
    } else {
      AtSplit(c, p, Render(ks[0]), RenderAll(ks[1..]));
      SkipsToken(c, p, ks[0]);
      FindsClosingQuote(c, p + |Render(ks[0])|, ks[1..]);
    }
  }

  // ----- the second pass decodes

  lemma DecodesToken(c: bytes, p: nat, end: nat, k: Token)
    requires WellFormed(k) && At(c, p, Render(k)) && p + |Render(k)| <= end < |c|
    ensures Unescape(c, p, end) == Prefixed(Meaning(k), Unescape(c, p + |Render(k)|, end))
  {
    hide Matches, Hex4, Utf16Literal;
    match k
    case Raw(b) => AtIndex(c, p, Render(k), 0);
    case Short(e) =>
      AtIndex(c, p, Render(k), 0);
      AtIndex(c, p, Render(k), 1);
    case Escape(n, units) =>
      DecodesEscape(c, p, end, n, units);
      UnescapesUnits(c, p, end, n, 6 * |units|);
  }

  lemma UnescapesUnits(c: bytes, p: nat, end: nat, n: nat, size: nat)
    requires p < end < |c| && c[p] == BACKSLASH && c[p + 1] == LOWER_U && n < 0x11_0000
    requires p + size <= end && Utf16Literal(c, p, end) == Some((n, size))
    ensures Unescape(c, p, end) == Prefixed(Utf8(n), Unescape(c, p + size, end))
  {
    hide Utf16Literal, Utf8;
  }

  lemma DecodesEscape(c: bytes, p: nat, end: nat, n: nat, units: seq<bytes>)
    requires WellFormed(Escape(n, units)) && At(c, p, Render(Escape(n, units)))
    requires p + |Render(Escape(n, units))| <= end < |c|
    ensures Utf16Literal(c, p, end) == Some((n, 6 * |units|))
    ensures c[p] == BACKSLASH && c[p + 1] == LOWER_U
  {
    hide Matches, Hex4, Utf16Literal;
    var head := [BACKSLASH, LOWER_U] + units[0];
    if |units| == 1 {
      assert Render(Escape(n, units)) == head;
      UnitRead(c, p, units[0], n);
      OneUnit(c, p, end, n);
    } else {
      var tail := [BACKSLASH, LOWER_U] + units[1];
      AtSplit(c, p, head, tail);
      UnitRead(c, p, units[0], Utf16(n)[0]);
      UnitRead(c, p + 6, units[1], Utf16(n)[1]);
      TwoUnits(c, p, end, n);
    }
  }

  lemma UnitRead(c: bytes, p: nat, h: bytes, u: nat)
    requires Spells(h, u) && At(c, p, [BACKSLASH, LOWER_U] + h)
    ensures c[p] == BACKSLASH && c[p + 1] == LOWER_U && Hex4(c, p + 2) == u
  {
    hide ClosingQuote, Hex4;
    SkipsUnit(c, p, h, u);
    AtIndex(c, p, [BACKSLASH, LOWER_U] + h, 0);
    AtIndex(c, p, [BACKSLASH, LOWER_U] + h, 1);
  }

  lemma OneUnit(c: bytes, p: nat, end: nat, n: nat)
    requires p + 6 <= end < |c| && Hex4(c, p + 2) == n && Scalar(n)
    ensures Utf16Literal(c, p, end) == Some((n, 6))
  {
    hide Hex4;
  }

  lemma TwoUnits(c: bytes, p: nat, end: nat, n: nat)
    requires p + 12 <= end < |c| && Scalar(n) && |Utf16(n)| == 2
    requires Hex4(c, p + 2) == Utf16(n)[0] && Hex4(c, p + 8) == Utf16(n)[1]
    requires c[p + 6] == BACKSLASH && c[p + 7] == LOWER_U
    ensures Utf16Literal(c, p, end) == Some((n, 12))
  {
    hide Hex4;
    assert Paired(Utf16(n)[0], Utf16(n)[1]) == n;
  }

  lemma StopsAtEnd(c: bytes, end: nat)
    requires end < |c|
    ensures Unescape(c, end, end) == Ok([], end)
  {
  }

  lemma {:induction false} DecodesAll(c: bytes, p: nat, end: nat, ks: seq<Token>)
    requires AllWellFormed(ks) && At(c, p, RenderAll(ks)) && end == p + |RenderAll(ks)| < |c|
    ensures Unescape(c, p, end) == Ok(MeaningAll(ks), end)
    decreases |ks|
  {
    hide Unescape, Render, Meaning, Matches, WellFormed;
    if ks == [] {
      StopsAtEnd(c, end);
    } else {
      AtSplit(c, p, Render(ks[0]), RenderAll(ks[1..]));
      DecodesToken(c, p, end, ks[0]);
      DecodesAll(c, p + |Render(ks[0])|, end, ks[1..]);
    }
  }

  /** Every spelling of a text, between quotes, is parsed as that text and consumed whole. */
  lemma LiteralDecodes(c: bytes, o: nat, ks: seq<Token>)
    requires Terminated(c) && AllWellFormed(ks)
    requires At(c, o, [QUOTE] + RenderAll(ks) + [QUOTE])
    ensures ParseString(c, o) == Ok(MeaningAll(ks), o + |RenderAll(ks)| + 2)
  {
    hide RenderAll, MeaningAll, Unescape, ClosingQuote, WellFormed, Matches;
    AtSplit3(c, o, [QUOTE], RenderAll(ks), [QUOTE]);
    AtIndex(c, o, [QUOTE], 0);
    FindsClosingQuote(c, o + 1, ks);
    DecodesAll(c, o + 1, o + 1 + |RenderAll(ks)|, ks);
  }

  // ----- the printer's escapes are one such spelling

  function TokenOf(b: byte): Token {
    if b == 34 || b == 92 then Short(b)
    else if b == 8 then Short(98)
    else if b == 12 then Short(102)
    else if b == 10 then Short(110)
    else if b == 13 then Short(114)
    else if b == 9 then Short(116)
    else if b < 32 then Escape(b, [[48, 48, HexDigit(b / 16), HexDigit(b % 16)]])
    else Raw(b)
  }

  lemma TokenOfByte(b: byte)
    ensures WellFormed(TokenOf(b)) && Render(TokenOf(b)) == EscapeByte(b) && Meaning(TokenOf(b)) == [b]
  {
  }

  function Tokens(s: bytes): (ks: seq<Token>) {
    if s == [] then [] else [TokenOf(s[0])] + Tokens(s[1..])
  }

  lemma {:induction false} TokensSpell(s: bytes)
    ensures AllWellFormed(Tokens(s)) && RenderAll(Tokens(s)) == Escaped(s) && MeaningAll(Tokens(s)) == s
  {
    if s != [] {
      TokensSpell(s[1..]);
      TokenOfByte(s[0]);
      var ks := Tokens(s);
      assert ks[0] == TokenOf(s[0]) && ks[1..] == Tokens(s[1..]);
      assert s == [s[0]] + s[1..];
    }
  }

  /** A printed string is parsed back to the same bytes. */
  lemma QuotedParsesBack(c: bytes, o: nat, s: bytes)
    requires Terminated(c) && At(c, o, Quoted(s))
    ensures ParseString(c, o) == Ok(s, o + |Quoted(s)|)
  {
    TokensSpell(s);
    LiteralDecodes(c, o, Tokens(s));
  }
}
