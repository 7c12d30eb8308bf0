/**
 JSON items as values, and the text that cJSON prints for each of them
 (FederatedLearningServer/src/cJSON.c:544-612, 901-1021, 1366-1438, 1538-1598, 1713-1825).
 */
module JsonText {
  import opened Bytes

  /** A number whose double equals its 32-bit `valueint` is an `Int`; any other
      number is identified with the literal that stands for it in the text. */
  datatype Json =
    | Null
    | Bool(b: bool)
    | Int(n: int)
    | Float(literal: bytes)
    | Str(s: bytes)
    | Arr(items: seq<Json>)
    | Obj(members: seq<Member>)

  datatype Member = Member(key: bytes, value: Json)

  const INT_MAX := 0x7FFF_FFFF
  const INT_MIN := -0x8000_0000
  const NESTING_LIMIT: nat := 1000

  const NULL_TEXT: bytes := [110, 117, 108, 108]
  const FALSE_TEXT: bytes := [102, 97, 108, 115, 101]
  const TRUE_TEXT: bytes := [116, 114, 117, 101]

  // ----- numbers

  predicate IsDigit(b: byte) { 48 <= b <= 57 }

  predicate IsNumberByte(b: byte) {
    IsDigit(b) || b == PLUS || b == MINUS || b == POINT || b == 101 || b == 69
  }

  /** Decimal digits of a natural number, most significant first. */
  function DecText(n: nat): (t: bytes)
    ensures 0 < |t| && forall i :: 0 <= i < |t| ==> IsDigit(t[i])
  {
    if n < 10 then [48 + n] else DecText(n / 10) + [48 + n % 10]
  }

  /** What `%d` prints. */
  function IntText(n: int): (t: bytes)
    ensures 0 < |t| && forall i :: 0 <= i < |t| ==> IsNumberByte(t[i])
  {
    if n < 0 then [MINUS] + DecText(-n) else DecText(n)
  }

  /** First position at or after `i` that is not a digit. */
  function DigitsEnd(t: bytes, i: nat): (j: nat)
    requires i <= |t|
    ensures i <= j <= |t| && forall k :: i <= k < j ==> IsDigit(t[k])
    ensures j < |t| ==> !IsDigit(t[j])
    decreases |t| - i
  {
    if i < |t| && IsDigit(t[i]) then DigitsEnd(t, i + 1) else i
  }

  function SignEnd(t: bytes, i: nat): (j: nat)
    requires i <= |t|
    ensures i <= j <= |t| && j <= i + 1
  {
    if i < |t| && (t[i] == PLUS || t[i] == MINUS) then i + 1 else i
  }

  /** How many bytes `strtod` consumes: sign, digits with an optional point (at
      least one digit), and an exponent only when it has a digit. */
  function StrtodLength(t: bytes): (n: nat)
    ensures n <= |t|
  {
    var s := SignEnd(t, 0);
    var i := DigitsEnd(t, s);
    var f := if i < |t| && t[i] == POINT then DigitsEnd(t, i + 1) else i;
    var digits := if f == i then i - s else f - s - 1;
    if digits == 0 then 0
    else if f < |t| && (t[f] == 101 || t[f] == 69) then
      var x := SignEnd(t, f + 1);
      var e := DigitsEnd(t, x);
      if x < e then e else f
    else f
  }

  /** A decimal number as C writes it: digits with an optional point, at least one digit,
      and an optional exponent. */
  datatype Numeral = Numeral(sign: bytes, whole: bytes, fraction: Fraction, exponent: Exponent)
  datatype Fraction = NoPoint | Point(digits: bytes)
  datatype Exponent = NoExponent | Exponent(mark: byte, sign: bytes, digits: bytes)

  predicate Digits(t: bytes) {
    forall i :: 0 <= i < |t| ==> 48 <= t[i] <= 57
  }

  predicate Sign(t: bytes) {
    t == [] || t == [43] || t == [45]
  }

  predicate IsNumeral(n: Numeral) {
    && Sign(n.sign) && Digits(n.whole)
    && (n.fraction.NoPoint? ==> n.whole != [])
    && (n.fraction.Point? ==> Digits(n.fraction.digits) && n.whole + n.fraction.digits != [])
    && (n.exponent.Exponent? ==>
          && (n.exponent.mark == 69 || n.exponent.mark == 101)
          && Sign(n.exponent.sign) && Digits(n.exponent.digits) && n.exponent.digits != [])
  }

  function Spelling(n: Numeral): bytes {
    n.sign + n.whole + FractionText(n.fraction) + ExponentText(n.exponent)
  }

  function FractionText(f: Fraction): bytes {
    if f.NoPoint? then [] else [46] + f.digits
  }

  function ExponentText(e: Exponent): bytes {
    if e.NoExponent? then [] else [e.mark] + e.sign + e.digits
  }

  predicate IsIntLiteral(t: bytes) {
    SignEnd(t, 0) < |t| && DigitsEnd(t, SignEnd(t, 0)) == |t|
  }

  /** Value of a digit string read left to right. */
  function DecValue(t: bytes): (n: nat)
    requires forall i :: 0 <= i < |t| ==> IsDigit(t[i])
  {
    if t == [] then 0
    else
      assert IsDigit(t[|t| - 1]);
      DecValue(t[..|t| - 1]) * 10 + (t[|t| - 1] as int - 48)
  }

  function IntValue(t: bytes): int
    requires IsIntLiteral(t)
  {
    var n: int := DecValue(t[SignEnd(t, 0)..]);
    if t[0] == MINUS then -n else n
  }

  /** The item a number literal becomes. */
  function NumberItem(t: bytes): Json {
    if IsIntLiteral(t) && INT_MIN <= IntValue(t) <= INT_MAX then Int(IntValue(t)) else Float(t)
  }

  // ----- strings

  function HexDigit(n: nat): byte
    requires n < 16
  {
    if n < 10 then 48 + n else 87 + n
  }

  /** The escape cJSON prints for one byte of a string. */
  function EscapeByte(b: byte): (t: bytes)
    ensures 0 < |t| && (b != 0 ==> NoNul(t))
  {
    if b == 34 || b == 92 then [BACKSLASH, b]
    else if b == 8 then [BACKSLASH, 98]
    else if b == 12 then [BACKSLASH, 102]
    else if b == 10 then [BACKSLASH, 110]
    else if b == 13 then [BACKSLASH, 114]
    else if b == 9 then [BACKSLASH, 116]
    else if b < 32 then [BACKSLASH, LOWER_U, 48, 48, HexDigit(b / 16), HexDigit(b % 16)]
    else [b]
  }

  function Escaped(s: bytes): bytes {
    if s == [] then [] else EscapeByte(s[0]) + Escaped(s[1..])
  }

  function Quoted(s: bytes): bytes {
    [QUOTE] + Escaped(s) + [QUOTE]
  }

  // ----- whole items

  function Tabs(n: nat): (t: bytes)
    ensures |t| == n && forall i :: 0 <= i < n ==> t[i] == TAB
  {
    seq(n, _ => TAB)
  }

  function Comma(fmt: bool): bytes { if fmt then [COMMA, SPACE] else [COMMA] }
  function Colon(fmt: bool): bytes { if fmt then [COLON, TAB] else [COLON] }
  function Break(fmt: bool): bytes { if fmt then [NEWLINE] else [] }
  function Indent(fmt: bool, depth: nat): bytes { if fmt then Tabs(depth) else [] }

  /** What follows a member's value: a comma unless it is the last, then the line break. */
  function MemberEnd(fmt: bool, more: bool): bytes {
    (if more then [COMMA] else []) + Break(fmt)
  }

  function Text(v: Json, fmt: bool, depth: nat): bytes
    decreases v, 1
  {
    match v
    case Null => NULL_TEXT
    case Bool(b) => if b then TRUE_TEXT else FALSE_TEXT
    case Int(n) => IntText(n)
    case Float(literal) => literal
    case Str(s) => Quoted(s)
    case Arr(items) => [LBRACKET] + ItemsText(items, fmt, depth + 1) + [RBRACKET]
    case Obj(members) =>
      [LBRACE] + Break(fmt) + MembersText(members, fmt, depth + 1) + Indent(fmt, depth) + [RBRACE]
  }

  function ItemsText(items: seq<Json>, fmt: bool, depth: nat): bytes
    decreases items, 0
  {
    if items == [] then []
    else if |items| == 1 then Text(items[0], fmt, depth)
    else Text(items[0], fmt, depth) + Comma(fmt) + ItemsText(items[1..], fmt, depth)
  }

  function MemberText(m: Member, more: bool, fmt: bool, depth: nat): bytes
    decreases m, 2
  {
    Indent(fmt, depth) + Quoted(m.key) + Colon(fmt) + Text(m.value, fmt, depth) + MemberEnd(fmt, more)
  }

  function MembersText(members: seq<Member>, fmt: bool, depth: nat): bytes
    decreases members, 0
  {
    if members == [] then []
    else MemberText(members[0], |members| > 1, fmt, depth) + MembersText(members[1..], fmt, depth)
  }

  /** Items that cJSON can hold and print: C strings, 32-bit integers, and numbers
      whose literal fits the 26-byte buffer and is not a 32-bit integer. */
  ghost predicate Printable(v: Json) {
    match v
    case Null => true
    case Bool(_) => true
    case Int(n) => INT_MIN <= n <= INT_MAX
    case Float(t) => FloatLiteral(t)
    case Str(s) => NoNul(s)
    case Arr(items) => forall i :: 0 <= i < |items| ==> Printable(items[i])
    case Obj(members) =>
      forall i :: 0 <= i < |members| ==> NoNul(members[i].key) && Printable(members[i].value)
  }

  ghost predicate FloatLiteral(t: bytes) {
    && 0 < |t| <= 25
    && (t[0] == MINUS || IsDigit(t[0]))
    && (exists n :: IsNumeral(n) && Spelling(n) == t)
    && NumberItem(t) == Float(t)
  }

  predicate NumberBytes(t: bytes) {
    forall i :: 0 <= i < |t| ==> IsNumberByte(t[i])
  }

  lemma NumeralBytes(n: Numeral)
    requires IsNumeral(n)
    ensures NumberBytes(Spelling(n)) && Spelling(n) != []
  {
    assert NumberBytes(n.sign) && NumberBytes(n.whole);
    assert NumberBytes(FractionText(n.fraction)) && NumberBytes(ExponentText(n.exponent));
  }

  lemma FloatBytes(t: bytes)
    requires FloatLiteral(t)
    ensures NumberBytes(t)
  {
    var n :| IsNumeral(n) && Spelling(n) == t;
    NumeralBytes(n);
  }

  /** Number of containers around the deepest item. */
  function Depth(v: Json): nat
    decreases v, 1
  {
    match v
    case Arr(items) => 1 + DepthOfItems(items)
    case Obj(members) => 1 + DepthOfMembers(members)
    case _ => 0
  }

  function Max(a: nat, b: nat): nat { if a < b then b else a }

  function DepthOfItems(items: seq<Json>): nat
    decreases items, 0
  {
    if items == [] then 0 else Max(Depth(items[0]), DepthOfItems(items[1..]))
  }

  function DepthOfMembers(members: seq<Member>): nat
    decreases members, 0
  {
    if members == [] then 0
    else Max(Depth(members[0].value), DepthOfMembers(members[1..]))
  }

  // ----- decimal text reads back

  lemma {:induction false} DecTextValue(n: nat)
    ensures DecValue(DecText(n)) == n
  {
    if n < 10 {
      assert DecText(n)[..0] == [];
    } else {
      DecTextValue(n / 10);
      assert DecText(n)[..|DecText(n)| - 1] == DecText(n / 10);
    }
  }

  lemma DigitsEndAll(t: bytes, i: nat)
    requires i <= |t| && forall k :: i <= k < |t| ==> IsDigit(t[k])
    ensures DigitsEnd(t, i) == |t|
    decreases |t| - i
  {
  }

  /** `%d` text is read back as the same 32-bit integer. */
  lemma IntTextReadsBack(n: int)
    requires INT_MIN <= n <= INT_MAX
    ensures IsIntLiteral(IntText(n)) && NumberItem(IntText(n)) == Int(n)
    ensures StrtodLength(IntText(n)) == |IntText(n)|
    ensures IntText(n)[0] == MINUS || IsDigit(IntText(n)[0])
  {
    var t := IntText(n);
    var s := SignEnd(t, 0);
    DecTextValue(if n < 0 then -n else n);
    assert t[s..] == DecText(if n < 0 then -n else n);
    DigitsEndAll(t, s);
  }

  lemma DecTextLength(n: nat, k: nat)
    requires 1 <= k && n < Pow10(k)
    ensures |DecText(n)| <= k
    decreases k
  {
    if n >= 10 {
      assert k > 1;
      DecTextLength(n / 10, k - 1);
    }
  }

  function Pow10(k: nat): nat { if k == 0 then 1 else 10 * Pow10(k - 1) }

  lemma IntTextLength(n: int)
    requires INT_MIN <= n <= INT_MAX
    ensures |IntText(n)| <= 11
  {
    assert Pow10(10) == 10 * (10 * (10 * (10 * (10 * (10 * (10 * (10 * Pow10(2)))))))) == 10_000_000_000;
    DecTextLength(if n < 0 then -n else n, 10);
  }
}
