/**
 What cJSON's recursive-descent parser computes, as functions of the text and a
 position (FederatedLearningServer/src/cJSON.c:304-379, 614-899, 1037-1061, 1311-1364,
 1440-1536, 1600-1711). The text is a C string with its terminator, as
 `cJSON_Parse` passes it on.
 */
module JsonGrammar {
  import opened Bytes
  import opened JsonText

  /** A successful step returns its value and the offset after it; a failing one
      leaves the offset that the error position is taken from. */
  datatype Outcome<+T> = Ok(value: T, next: nat) | Fail(pos: nat)

  datatype Option<+T> = None | Some(value: T)

  predicate Terminated(c: bytes) {
    |c| > 0 && c[|c| - 1] == 0
  }

  // ----- white space

  /** First position at or after `o` holding a byte above 32, or the end. */
  function Visible(c: bytes, o: nat): (p: nat)
    requires o <= |c|
    ensures o <= p <= |c|
    decreases |c| - o
  {
    if o < |c| && c[o] <= 32 then Visible(c, o + 1) else o
  }

  /** Skipping to the end steps back onto the last byte. */
  function SkipSpace(c: bytes, o: nat): (p: nat)
    requires o < |c|
    ensures o <= p < |c|
  {
    var p := Visible(c, o);
    if p == |c| then |c| - 1 else p
  }

  // ----- strings

  /** The quote that ends a literal whose contents start at `p`. */
  function ClosingQuote(c: bytes, p: nat): (end: Option<nat>)
    requires p <= |c|
    ensures end.Some? ==> p <= end.value < |c| && c[end.value] == QUOTE
    decreases |c| - p
  {
    if p == |c| then None
    else if c[p] == QUOTE then Some(p)
    else if c[p] == BACKSLASH then if p + 1 == |c| then None else ClosingQuote(c, p + 2)
    else ClosingQuote(c, p + 1)
  }

  function HexValue(b: byte): (n: Option<nat>)
    ensures n.Some? ==> n.value < 16
  {
    if 48 <= b <= 57 then Some(b - 48)
    else if 65 <= b <= 70 then Some(b - 55)
    else if 97 <= b <= 102 then Some(b - 87)
    else None
  }

  /** Four hexadecimal digits; 0 when one of them is not a digit. */
  function Hex4(c: bytes, p: nat): (h: nat)
    requires p + 4 <= |c|
    ensures h < 0x1_0000
  {
    var (a, b, d, e) := (HexValue(c[p]), HexValue(c[p + 1]), HexValue(c[p + 2]), HexValue(c[p + 3]));
    if a.Some? && b.Some? && d.Some? && e.Some? then
      ((a.value * 16 + b.value) * 16 + d.value) * 16 + e.value
    else 0
  }

  /** UTF-8 form of a code point (section 3 of RFC 3629). */
  function Utf8(n: nat): (t: bytes)
    requires n < 0x11_0000
    ensures |t| == if n < 0x80 then 1 else if n < 0x800 then 2 else if n < 0x1_0000 then 3 else 4
  {
    if n < 0x80 then [n]
    else if n < 0x800 then [0xC0 + n / 64, 0x80 + n % 64]
    else if n < 0x1_0000 then [0xE0 + n / 4096, 0x80 + n / 64 % 64, 0x80 + n % 64]
    else [0xF0 + n / 262144, 0x80 + n / 4096 % 64, 0x80 + n / 64 % 64, 0x80 + n % 64]
  }

  predicate HighSurrogate(u: nat) { 0xD800 <= u <= 0xDBFF }
  predicate LowSurrogate(u: nat) { 0xDC00 <= u <= 0xDFFF }

  function Paired(high: nat, low: nat): (n: nat)
    requires HighSurrogate(high) && LowSurrogate(low)
    ensures 0x1_0000 <= n < 0x11_0000
  {
    0x1_0000 + (high - 0xD800) * 1024 + (low - 0xDC00)
  }

  /** A `\uXXXX` literal or surrogate pair at `p`: its code point and length. */
  function Utf16Literal(c: bytes, p: nat, end: nat): (r: Option<(nat, nat)>)
    requires p <= end <= |c|
    ensures r.Some? ==> r.value.0 < 0x11_0000 && (r.value.1 == 6 || r.value.1 == 12)
    ensures r.Some? ==> p + r.value.1 <= end
    ensures r.Some? && r.value.1 == 6 ==> r.value.0 < 0x1_0000
  {
    if end - p < 6 then None
    else
      var first := Hex4(c, p + 2);
      if LowSurrogate(first) then None
      else if HighSurrogate(first) then
        if end - (p + 6) < 6 then None
        else if c[p + 6] != BACKSLASH || c[p + 7] != LOWER_U then None
        else
          var second := Hex4(c, p + 8);
          if !LowSurrogate(second) then None else Some((Paired(first, second), 12))
      else Some((first, 6))
  }

  /** The byte a two-character escape stands for. */
  function ShortEscape(b: byte): Option<byte> {
    if b == 98 then Some(8)
    else if b == 102 then Some(12)
    else if b == 110 then Some(10)
    else if b == 114 then Some(13)
    else if b == 116 then Some(9)
    else if b == QUOTE || b == BACKSLASH || b == SLASH then Some(b)
    else None
  }

  function Prefixed(b: bytes, r: Outcome<bytes>): Outcome<bytes> {
    match r
    case Ok(t, next) => Ok(b + t, next)
    case Fail(pos) => Fail(pos)
  }

  /** Decoded contents of a literal from `p` up to the closing quote at `end`. */
  function Unescape(c: bytes, p: nat, end: nat): (r: Outcome<bytes>)
    requires end < |c| && p <= end + 1
    ensures r.Ok? ==> r.next <= end + 1
    ensures r.Fail? ==> r.pos <= end
    decreases end + 1 - p
  {
    if p >= end then Ok([], p)
    else if c[p] != BACKSLASH then Prefixed([c[p]], Unescape(c, p + 1, end))
    else if c[p + 1] == LOWER_U then
      match Utf16Literal(c, p, end)
      case None => Fail(p)
      case Some(u) => Prefixed(Utf8(u.0), Unescape(c, p + u.1, end))
    else
      match ShortEscape(c[p + 1])
      case None => Fail(p)
      case Some(b) => Prefixed([b], Unescape(c, p + 2, end))
  }

  function ParseString(c: bytes, o: nat): (r: Outcome<bytes>)
    requires Terminated(c) && o < |c|
    ensures r.Ok? ==> o + 1 < r.next < |c|
    ensures r.Fail? ==> r.pos <= |c|
  {
    if c[o] != QUOTE then Fail(o + 1)
    else
      match ClosingQuote(c, o + 1)
      case None => Fail(o + 1)
      case Some(end) =>
        match Unescape(c, o + 1, end)
        case Ok(t, _) => Ok(t, end + 1)
        case Fail(pos) => Fail(pos)
  }

  // ----- numbers

  /** End of the run of number bytes that is copied out: at most 63 of them. */
  function NumberEnd(c: bytes, o: nat, room: nat): (p: nat)
    requires o <= |c|
    ensures o <= p <= |c| && p <= o + room
    decreases room
  {
    if room > 0 && o < |c| && IsNumberByte(c[o]) then NumberEnd(c, o + 1, room - 1) else o
  }

  function ParseNumber(c: bytes, o: nat): (r: Outcome<Json>)
    requires Terminated(c) && o < |c|
    ensures r.Ok? ==> o < r.next < |c|
    ensures r.Fail? ==> r.pos == o
  {
    var end := NumberEnd(c, o, 63);
    NumberStopsEarly(c, o, 63);
    var n := StrtodLength(c[o..end]);
    if n == 0 then Fail(o) else Ok(NumberItem(c[o..end][..n]), o + n)
  }

  /** The terminator is not a number byte. */
  lemma NumberStopsEarly(c: bytes, o: nat, room: nat)
    requires Terminated(c) && o < |c|
    ensures NumberEnd(c, o, room) < |c|
    decreases room
  {
  }

  // ----- values

  predicate HasWord(c: bytes, o: nat, w: bytes) {
    o + |w| <= |c| && c[o..o + |w|] == w
  }

  function ParseValue(c: bytes, o: nat, depth: nat): (r: Outcome<Json>)
    requires Terminated(c) && o < |c|
    ensures r.Ok? ==> o < r.next < |c|
    ensures r.Fail? ==> r.pos <= |c|
    decreases |c| - o, 3
  {
    if HasWord(c, o, NULL_TEXT) then
      assert c[o + 3] == NULL_TEXT[3];
      Ok(Null, o + 4)
    else if HasWord(c, o, FALSE_TEXT) then
      assert c[o + 4] == FALSE_TEXT[4];
      Ok(Bool(false), o + 5)
    else if HasWord(c, o, TRUE_TEXT) then
      assert c[o + 3] == TRUE_TEXT[3];
      Ok(Bool(true), o + 4)
    else if c[o] == QUOTE then
      match ParseString(c, o)
      case Ok(s, next) => Ok(Str(s), next)
      case Fail(pos) => Fail(pos)
    else if c[o] == MINUS || IsDigit(c[o]) then ParseNumber(c, o)
    else if c[o] == LBRACKET then ParseArray(c, o, depth)
    else if c[o] == LBRACE then ParseObject(c, o, depth)
    else Fail(o)
  }

  function ParseArray(c: bytes, o: nat, depth: nat): (r: Outcome<Json>)
    requires Terminated(c) && o < |c| && c[o] == LBRACKET
    ensures r.Ok? ==> o < r.next < |c|
    ensures r.Fail? ==> r.pos <= |c|
    decreases |c| - o, 1
  {
    if depth >= NESTING_LIMIT then Fail(o)
    else
      var p := SkipSpace(c, o + 1);
      if c[p] == RBRACKET then Ok(Arr([]), p + 1)
      else
        match ParseItems(c, p - 1, depth + 1)
        case Ok(items, next) => Ok(Arr(items), next)
        case Fail(pos) => Fail(pos)
  }

  /** Items of an array whose next one comes after the byte at `q`. */
  function ParseItems(c: bytes, q: nat, depth: nat): (r: Outcome<seq<Json>>)
    requires Terminated(c) && q + 1 < |c|
    ensures r.Ok? ==> q < r.next < |c| && |r.value| > 0
    ensures r.Fail? ==> r.pos <= |c|
    decreases |c| - q, 0
  {
    match ParseValue(c, SkipSpace(c, q + 1), depth)
    case Fail(pos) => Fail(pos)
    case Ok(v, next) =>
      var m := SkipSpace(c, next);
      if c[m] == COMMA then
        match ParseItems(c, m, depth)
        case Fail(pos) => Fail(pos)
        case Ok(items, end) => Ok([v] + items, end)
      else if c[m] == RBRACKET then Ok([v], m + 1)
      else Fail(m)
  }

  function ParseObject(c: bytes, o: nat, depth: nat): (r: Outcome<Json>)
    requires Terminated(c) && o < |c| && c[o] == LBRACE
    ensures r.Ok? ==> o < r.next < |c|
    ensures r.Fail? ==> r.pos <= |c|
    decreases |c| - o, 2
  {
    if depth >= NESTING_LIMIT then Fail(o)
    else
      var p := SkipSpace(c, o + 1);
      if c[p] == RBRACE then Ok(Obj([]), p + 1)
      else
        match ParseMembers(c, p - 1, depth + 1)
        case Ok(members, next) => Ok(Obj(members), next)
        case Fail(pos) => Fail(pos)
  }

  /** One `"key" : value`, whose key comes after the byte at `q`. */
  function ParseMember(c: bytes, q: nat, depth: nat): (r: Outcome<Member>)
    requires Terminated(c) && q + 1 < |c|
    ensures r.Ok? ==> q < r.next < |c|
    ensures r.Fail? ==> r.pos <= |c|
    decreases |c| - q, 0
  {
    match ParseString(c, SkipSpace(c, q + 1))
    case Fail(pos) => Fail(pos)
    case Ok(key, next) =>
      var m := SkipSpace(c, next);
      if c[m] != COLON then Fail(m)
      else
        match ParseValue(c, SkipSpace(c, m + 1), depth)
        case Fail(pos) => Fail(pos)
        case Ok(v, end) => Ok(Member(key, v), end)
  }

  function ParseMembers(c: bytes, q: nat, depth: nat): (r: Outcome<seq<Member>>)
    requires Terminated(c) && q + 1 < |c|
    ensures r.Ok? ==> q < r.next < |c| && |r.value| > 0
    ensures r.Fail? ==> r.pos <= |c|
    decreases |c| - q, 1
  {
    match ParseMember(c, q, depth)
    case Fail(pos) => Fail(pos)
    case Ok(v, next) =>
      var m := SkipSpace(c, next);
      if c[m] == COMMA then
        match ParseMembers(c, m, depth)
        case Fail(pos) => Fail(pos)
        case Ok(members, end) => Ok([v] + members, end)
      else if c[m] == RBRACE then Ok([v], m + 1)
      else Fail(m)
  }

  /** `skip_utf8_bom`: the mark is skipped only when at least five bytes can be read. */
  function BomEnd(c: bytes): (o: nat)
    requires Terminated(c)
    ensures o < |c|
  {
    if |c| > 4 && c[..3] == [0xEF, 0xBB, 0xBF] then 3 else 0
  }

  /** `cJSON_Parse` on the C string `s`. */
  function Parse(s: bytes): Outcome<Json> {
    var c := s + [0];
    ParseValue(c, SkipSpace(c, BomEnd(c)), 0)
  }
}
