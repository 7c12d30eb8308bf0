/**
 The parser as cJSON runs it: one buffer whose offset and depth are moved in place
 (FederatedLearningServer/src/cJSON.c:287-379, 614-899, 1037-1183, 1311-1364, 1440-1536,
 1600-1711). Each method is proved to compute the function of `JsonGrammar` that
 describes it, to read only inside the text, and to write only inside what it allocated.
 */
module JsonParser {
  import opened Bytes
  import opened JsonText
  import opened JsonGrammar

  /** A step's outcome is reported by its flag, its result and the new offset. */
  ghost predicate Follows<T>(r: Outcome<T>, ok: bool, v: T, offset: nat) {
    match r
    case Ok(x, next) => ok && v == x && offset == next
    case Fail(pos) => !ok && offset == pos
  }

  // ----- how much room a string literal needs

  /** Escape sequences that the sizing pass starts before position `x`. */
  function Escapes(c: bytes, a: nat, x: nat): nat
    requires x <= |c|
    decreases x - a
  {
    if a >= x then 0
    else if c[a] == BACKSLASH then 1 + Escapes(c, a + 2, x)
    else Escapes(c, a + 1, x)
  }

  /** Escapes start at backslashes, and never at two adjacent positions. */
  lemma {:induction false} EscapesAreSparse(c: bytes, a: nat, x: nat)
    requires x < |c|
    ensures Escapes(c, a, x) <= Escapes(c, a, x + 1) <= Escapes(c, a, x) + 1
    ensures c[x] != BACKSLASH ==> Escapes(c, a, x + 1) == Escapes(c, a, x)
    ensures x + 1 < |c| ==> Escapes(c, a, x + 2) <= Escapes(c, a, x) + 1
    decreases x - a
  {
    if a < x {
      EscapesAreSparse(c, if c[a] == BACKSLASH then a + 2 else a + 1, x);
    } else if x + 1 < |c| {
      assert Escapes(c, x + 1, x + 2) <= 1;
    }
  }

  lemma {:induction false} EscapesInWindow(c: bytes, a: nat, x: nat, n: nat)
    requires x + 2 * n <= |c|
    ensures Escapes(c, a, x + 2 * n) <= Escapes(c, a, x) + n
    decreases n
  {
    if n > 0 {
      EscapesAreSparse(c, a, x);
      EscapesInWindow(c, a, x + 2, n - 1);
    }
  }

  /** Bytes not starting an escape only accumulate. */
  lemma {:induction false} RoomGrows(c: bytes, a: nat, x: nat, y: nat)
    requires x <= y <= |c|
    ensures x - Escapes(c, a, x) <= y - Escapes(c, a, y)
    decreases y - x
  {
    if x < y {
      EscapesAreSparse(c, a, x);
      RoomGrows(c, a, x + 1, y);
    }
  }

  /** The byte before the closing quote starts no escape. */
  lemma {:induction false} LastByteStartsNoEscape(c: bytes, a: nat, end: nat)
    requires a < end < |c| && ClosingQuote(c, a) == Some(end)
    ensures Escapes(c, a, end) == Escapes(c, a, end - 1)
    decreases end - a
  {
    var b := if c[a] == BACKSLASH then a + 2 else a + 1;
    if b < end {
      LastByteStartsNoEscape(c, b, end);
    }
  }

  // ----- UTF-8, low six bits first

  function Shifted(n: nat, k: nat): nat {
    if k == 0 then n else Shifted(n, k - 1) / 64
  }

  lemma ShiftedTwice(n: nat)
    ensures Shifted(n, 1) == n / 64 && Shifted(n, 2) == n / 4096 && Shifted(n, 3) == n / 262144
  {
    assert Shifted(n, 1) == Shifted(n, 0) / 64;
    assert Shifted(n, 2) == n / 64 / 64;
    assert Shifted(n, 3) == n / 4096 / 64;
  }

  lemma ShiftedMore(n: nat, k: nat)
    ensures Shifted(n, 0) == n && Shifted(n, k + 1) == Shifted(n, k) / 64
  {
  }

  lemma Utf8Byte(n: nat, j: nat)
    requires n < 0x11_0000 && 0 < j < |Utf8(n)|
    ensures Utf8(n)[j] == 0x80 + Shifted(n, |Utf8(n)| - 1 - j) % 64
  {
    ShiftedTwice(n);
  }

  lemma Utf8FirstByte(n: nat)
    requires n < 0x11_0000
    ensures var k := |Utf8(n)| - 1;
            Utf8(n)[0] == Shifted(n, k) + (if k == 0 then 0 else if k == 1 then 0xC0 else if k == 2 then 0xE0 else 0xF0)
  {
    ShiftedTwice(n);
  }

  class ParseBuffer {
    const content: bytes
    var offset: nat
    var depth: nat

    constructor (c: bytes)
      ensures content == c && offset == 0 && depth == 0
    {
      content := c;
      offset := 0;
      depth := 0;
    }

    /** What `cJSON_Parse` guarantees: the terminator is the last byte of the buffer. */
    ghost predicate Valid()
      reads this
    {
      Terminated(content) && offset < |content|
    }

    /** `buffer_skip_whitespace`. */
    method SkipWhitespace()
      requires Valid()
      modifies this`offset
      ensures Valid() && offset == SkipSpace(content, old(offset))
    {
      while offset < |content| && content[offset] <= 32
        invariant old(offset) <= offset <= |content|
        invariant Visible(content, offset) == Visible(content, old(offset))
      {
        offset := offset + 1;
      }
      if offset == |content| {
        offset := offset - 1;
      }
    }

    /** `utf16_literal_to_utf8`: the number of literal bytes read, 0 on failure, and
        the output position after the bytes written. */
    method Utf16ToUtf8(p: nat, end: nat, output: array<byte>, w: nat) returns (size: nat, w': nat)
      requires p <= end <= |content|
      requires var u := Utf16Literal(content, p, end);
               u.Some? ==> w + |Utf8(u.value.0)| <= output.Length
      modifies output
      ensures w <= output.Length ==> output[..w] == old(output[..w])
      ensures match Utf16Literal(content, p, end)
              case None => size == 0 && w' == w
              case Some(u) => size == u.1 && w' == w + |Utf8(u.0)| <= output.Length && output[w..w'] == Utf8(u.0)
    {
      if end - p < 6 {
        return 0, w;
      }
      var first := Hex4(content, p + 2);
      if LowSurrogate(first) {
        return 0, w;
      }
      var codepoint: nat;
      if HighSurrogate(first) {
        if end - (p + 6) < 6 || content[p + 6] != BACKSLASH || content[p + 7] != LOWER_U {
          return 0, w;
        }
        var second := Hex4(content, p + 8);
        if !LowSurrogate(second) {
          return 0, w;
        }
        codepoint := Paired(first, second);
        size := 12;
      } else {
        codepoint := first;
        size := 6;
      }
      w' := EncodeUtf8(codepoint, output, w);
    }

    /** Continuation bytes are written from the last one down, six bits at a time;
        `(c | 0x80) & 0xBF` is 0x80 plus the low six bits of `c`. */
    method EncodeUtf8(n: nat, output: array<byte>, w: nat) returns (w': nat)
      requires n < 0x11_0000 && w + |Utf8(n)| <= output.Length
      modifies output
      ensures w' == w + |Utf8(n)| && output[..w] == old(output[..w]) && output[w..w'] == Utf8(n)
    {
      hide Utf8, Shifted;
      var length := if n < 0x80 then 1 else if n < 0x800 then 2 else if n < 0x1_0000 then 3 else 4;
      var codepoint := n;
      var pos := length - 1;
      ghost var u := Utf8(n);
      ghost var before := output[..];
      ShiftedMore(n, 0);
      while pos > 0
        invariant 0 <= pos < length && codepoint == Shifted(n, length - 1 - pos)
        invariant forall i :: 0 <= i < w ==> output[i] == before[i]
        invariant forall i :: w + pos < i < w + length ==> output[i] == u[i - w]
      {
        Utf8Byte(n, pos);
        output[w + pos] := 0x80 + codepoint % 64;
        ShiftedMore(n, length - 1 - pos);
        codepoint := codepoint / 64;
        pos := pos - 1;
      }
      Utf8FirstByte(n);
      output[w] := codepoint
        + (if length == 1 then 0 else if length == 2 then 0xC0 else if length == 3 then 0xE0 else 0xF0);
      w' := w + length;
      forall k | 0 <= k < length ensures output[w..w'][k] == u[k] {
        assert output[w + k] == u[w + k - w];
      }
      assert output[..w] == before[..w];
    }

    /** `parse_string`: a first pass sizes the output, a second one decodes into it. */
    method ParseString() returns (ok: bool, s: bytes)
      requires Valid()
      modifies this`offset
      ensures Follows(JsonGrammar.ParseString(content, old(offset)), ok, s, offset)
      ensures ok ==> Valid()
    {
      var start := offset + 1;
      s := [];
      if content[offset] != QUOTE {
        offset := start;
        return false, s;
      }
      var end := start;
      var skipped := 0;
      while end < |content| && content[end] != QUOTE
        invariant start <= end <= |content|
        invariant ClosingQuote(content, start) == ClosingQuote(content, end)
        invariant forall x :: end <= x <= |content| ==> Escapes(content, start, x) == skipped + Escapes(content, end, x)
        decreases |content| - end
      {
        if content[end] == BACKSLASH {
          assert end + 1 < |content|;  // a backslash is not the terminator
          skipped := skipped + 1;
          end := end + 1;
        }
        end := end + 1;
      }
      if end >= |content| {
        offset := start;
        return false, s;
      }
      var allocation := end - offset - skipped;
      assert skipped == Escapes(content, start, end);
      ok, s := DecodeString(start, end, allocation);
    }

    /** The second pass, into `allocation` bytes and the terminator's. */
    method DecodeString(start: nat, end: nat, allocation: int) returns (ok: bool, s: bytes)
      requires Terminated(content) && start <= end < |content| && ClosingQuote(content, start) == Some(end)
      requires allocation == end - start + 1 - Escapes(content, start, end)
      modifies this`offset
      ensures match Unescape(content, start, end)
              case Ok(t, _) => ok && s == t && |s| < allocation && offset == end + 1
              case Fail(pos) => !ok && offset == pos
    {
      hide Unescape, ClosingQuote, Escapes, Utf8, ShortEscape, Utf16Literal, Fits;
      FitsStart(content, start, end);
      PrefixedNone(Unescape(content, start, end));
      var output := new byte[allocation + 1];
      var p, w := start, 0;
      assert output[..0] == [];
      s := [];
      while p < end
        invariant start <= p <= end + 1
        invariant Fits(content, start, p, end, w) && w < allocation
        invariant Unescape(content, start, end) == Prefixed(output[..w], Unescape(content, p, end))
        decreases end + 1 - p
      {
        ghost var done := output[..w];
        ghost var from, w0 := p, w;
        if content[p] != BACKSLASH {
          StepPlain(content, start, p, end, w);
          output[w] := content[p];
          w := w + 1;
          p := p + 1;
          assert output[w0..w] == [content[from]];
        } else if content[p + 1] == LOWER_U {
          StepUnits(content, start, p, end, w);
          var size;
          size, w := Utf16ToUtf8(p, end, output, w);
          if size == 0 {
            offset := p;
            return false, s;
          }
          p := p + size;
        } else {
          StepShort(content, start, p, end, w);
          var b := ShortEscape(content[p + 1]);
          if b == None {
            offset := p;
            return false, s;
          }
          output[w] := b.value;
          w := w + 1;
          p := p + 2;
          assert output[w0..w] == [b.value];
        }
        assert output[..w] == done + output[w0..w];
        PrefixedTwice(done, output[w0..w], Unescape(content, p, end));
      }
      AtEnd(content, p, end);
      output[w] := 0;
      s := output[..w];
      offset := end + 1;
      ok := true;
    }

    /** `parse_number`: at most 63 number bytes are copied out and handed to `strtod`. */
    method ParseNumber() returns (ok: bool, v: Json)
      requires Valid()
      modifies this`offset
      ensures Follows(JsonGrammar.ParseNumber(content, old(offset)), ok, v, offset)
      ensures Valid()
    {
      hide StrtodLength, NumberItem, IsNumberByte;
      var t := CopyNumber();
      var n := StrtodLength(t);
      v := Null;
      if n == 0 {
        return false, v;
      }
      v := NumberItem(t[..n]);
      offset := offset + n;
      ok := true;
    }

    method CopyNumber() returns (t: bytes)
      requires Valid()
      ensures t == content[offset..NumberEnd(content, offset, 63)]
    {
      hide NumberEnd;
      var number := new byte[64];
      var i := 0;
      while i < 63 && offset + i < |content| && IsNumberByte(content[offset + i])
        invariant 0 <= i <= 63 && offset + i <= |content|
        invariant NumberEnd(content, offset, 63) == NumberEnd(content, offset + i, 63 - i)
        invariant number[..i] == content[offset..offset + i]
      {
        NumberStep(content, offset + i, 63 - i);
        SliceGrows(content, offset, offset + i);
        number[i] := content[offset + i];
        SliceGrows(number[..], 0, i);
        i := i + 1;
      }
      NumberStep(content, offset + i, 63 - i);
      number[i] := 0;
      t := number[..i];
    }

    /** `parse_value`. */
    method ParseValue() returns (ok: bool, v: Json)
      requires Valid()
      modifies this
      ensures Follows(JsonGrammar.ParseValue(content, old(offset), old(depth)), ok, v, offset)
      ensures ok ==> Valid() && depth == old(depth)
      decreases |content| - offset, 3
    {
      hide JsonGrammar.ParseString, JsonGrammar.ParseNumber, JsonGrammar.ParseArray, JsonGrammar.ParseObject;
      v := Null;
      if HasWord(content, offset, NULL_TEXT) {
        offset := offset + 4;
        return true, Null;
      }
      if HasWord(content, offset, FALSE_TEXT) {
        offset := offset + 5;
        return true, Bool(false);
      }
      if HasWord(content, offset, TRUE_TEXT) {
        offset := offset + 4;
        return true, Bool(true);
      }
      var b := content[offset];
      if b == QUOTE {
        var s;
        ok, s := ParseString();
        v := Str(s);
      } else if b == MINUS || IsDigit(b) {
        ok, v := ParseNumber();
      } else if b == LBRACKET {
        ok, v := ParseArray();
      } else if b == LBRACE {
        ok, v := ParseObject();
      } else {
        ok := false;
      }
    }

    /** `parse_array`. */
    method ParseArray() returns (ok: bool, v: Json)
      requires Valid() && content[offset] == LBRACKET
      modifies this
      ensures Follows(JsonGrammar.ParseArray(content, old(offset), old(depth)), ok, v, offset)
      ensures ok ==> Valid() && depth == old(depth)
      decreases |content| - offset, 1
    {
      hide JsonGrammar.ParseValue, JsonGrammar.ParseObject, SkipSpace;
      v := Null;
      if depth >= NESTING_LIMIT {
        return false, v;
      }
      depth := depth + 1;
      offset := offset + 1;
      SkipWhitespace();
      var items := [];
      if content[offset] != RBRACKET {
        offset := offset - 1;  // in front of the first element
        ghost var all := JsonGrammar.ParseItems(content, offset, depth);
        PrecededTwice([], [], all);
        var more := true;
        while more
          invariant more ==> old(offset) <= offset < |content| - 1
                             && all == Preceded(items, JsonGrammar.ParseItems(content, offset, depth))
          invariant !more ==> Valid() && old(offset) < offset && content[offset] != COMMA
                              && all == if content[offset] == RBRACKET then Ok(items, offset + 1) else Fail(offset)
          invariant depth == old(depth) + 1
          decreases |content| - offset, more
        {
          ok, v := ParseElement();
          if !ok {
            return false, v;
          }
          SkipWhitespace();
          ghost var done := items;
          items := items + [v];
          more := content[offset] == COMMA;
          if more {
            PrecededTwice(done, [v], JsonGrammar.ParseItems(content, offset, depth));
          }
        }
        if content[offset] != RBRACKET {
          return false, v;
        }
      }
      depth := depth - 1;
      offset := offset + 1;
      return true, Arr(items);
    }

    /** The part of the loop that skips the bracket or comma and reads one element. */
    method ParseElement() returns (ok: bool, v: Json)
      requires Valid() && offset + 1 < |content|
      modifies this
      ensures Follows(JsonGrammar.ParseValue(content, SkipSpace(content, old(offset) + 1), old(depth)), ok, v, offset)
      ensures ok ==> Valid() && depth == old(depth)
      decreases |content| - offset, 0
    {
      hide JsonGrammar.ParseValue, SkipSpace;
      offset := offset + 1;
      SkipWhitespace();
      ok, v := ParseValue();
    }

    /** `parse_object`. */
    method ParseObject() returns (ok: bool, v: Json)
      requires Valid() && content[offset] == LBRACE
      modifies this
      ensures Follows(JsonGrammar.ParseObject(content, old(offset), old(depth)), ok, v, offset)
      ensures ok ==> Valid() && depth == old(depth)
      decreases |content| - offset, 2
    {
      hide JsonGrammar.ParseValue, JsonGrammar.ParseString, JsonGrammar.ParseMember, JsonGrammar.ParseArray, SkipSpace;
      v := Null;
      if depth >= NESTING_LIMIT {
        return false, v;
      }
      depth := depth + 1;
      offset := offset + 1;
      SkipWhitespace();
      var members := [];
      if content[offset] != RBRACE {
        offset := offset - 1;
        ghost var all := JsonGrammar.ParseMembers(content, offset, depth);
        PrecededTwice([], [], all);
        var more := true;
        while more
          invariant more ==> old(offset) <= offset < |content| - 1
                             && all == Preceded(members, JsonGrammar.ParseMembers(content, offset, depth))
          invariant !more ==> Valid() && old(offset) < offset && content[offset] != COMMA
                              && all == if content[offset] == RBRACE then Ok(members, offset + 1) else Fail(offset)
          invariant depth == old(depth) + 1
          decreases |content| - offset, more
        {
          var m;
          ok, m := ParseMember();
          if !ok {
            return false, v;
          }
          SkipWhitespace();
          ghost var done := members;
          members := members + [m];
          more := content[offset] == COMMA;
          if more {
            PrecededTwice(done, [m], JsonGrammar.ParseMembers(content, offset, depth));
          }
        }
        if content[offset] != RBRACE {
          return false, v;
        }
      }
      depth := depth - 1;
      offset := offset + 1;
      return true, Obj(members);
    }

    /** One pass of the loop of `parse_object`: a name, a colon and a value. */
    method ParseMember() returns (ok: bool, m: Member)
      requires Valid() && offset + 1 < |content|
      modifies this
      ensures Follows(JsonGrammar.ParseMember(content, old(offset), old(depth)), ok, m, offset)
      ensures ok ==> Valid() && depth == old(depth)
      decreases |content| - offset, 0
    {
      hide JsonGrammar.ParseValue, JsonGrammar.ParseString, SkipSpace;
      m := Member([], Null);
      offset := offset + 1;
      SkipWhitespace();
      var key;
      ok, key := ParseString();
      if !ok {
        return;
      }
      SkipWhitespace();
      if content[offset] != COLON {
        return false, m;
      }
      offset := offset + 1;
      SkipWhitespace();
      var v;
      ok, v := ParseValue();
      m := Member(key, v);
    }
  }

  /** `cJSON_Parse` on the C string `s`. */
  method ParseText(s: bytes) returns (ok: bool, v: Json, end: nat)
    ensures Follows(Parse(s), ok, v, end)
  {
    var buffer := new ParseBuffer(s + [0]);
    if |buffer.content| > 4 && buffer.content[..3] == [0xEF, 0xBB, 0xBF] {
      buffer.offset := buffer.offset + 3;
    }
    buffer.SkipWhitespace();
    ok, v := buffer.ParseValue();
    end := buffer.offset;
  }

  function Preceded<T>(a: seq<T>, r: Outcome<seq<T>>): Outcome<seq<T>> {
    match r
    case Ok(t, next) => Ok(a + t, next)
    case Fail(pos) => Fail(pos)
  }

  lemma PrecededTwice<T>(a: seq<T>, b: seq<T>, r: Outcome<seq<T>>)
    ensures Preceded(a, Preceded(b, r)) == Preceded(a + b, r)
    ensures Preceded([], r) == r
  {
    if r.Ok? {
      assert a + (b + r.value) == a + b + r.value;
      assert [] + r.value == r.value;
    }
  }

  /** The bytes written so far are paid for by the literal bytes read so far. */
  ghost predicate Fits(c: bytes, start: nat, p: nat, end: nat, w: nat)
    requires start <= end <= |c| && start <= p
  {
    w + Escapes(c, start, Least(p, end)) <= Least(p, end) - start
  }

  lemma FitsStart(c: bytes, start: nat, end: nat)
    requires start <= end <= |c|
    ensures Fits(c, start, start, end, 0) && 0 < end - start + 1 - Escapes(c, start, end)
  {
    RoomGrows(c, start, start, end);
  }

  lemma StepPlain(c: bytes, start: nat, p: nat, end: nat, w: nat)
    requires start <= p < end < |c| && c[p] != BACKSLASH && Fits(c, start, p, end, w)
    ensures Fits(c, start, p + 1, end, w + 1) && w + 1 < end - start + 1 - Escapes(c, start, end)
    ensures Unescape(c, p, end) == Prefixed([c[p]], Unescape(c, p + 1, end))
  {
    EscapesAreSparse(c, start, p);
    RoomGrows(c, start, p + 1, end);
  }

  lemma StepUnits(c: bytes, start: nat, p: nat, end: nat, w: nat)
    requires start <= p < end < |c| && c[p] == BACKSLASH && c[p + 1] == LOWER_U && Fits(c, start, p, end, w)
    ensures match Utf16Literal(c, p, end)
            case None => Unescape(c, p, end) == Fail(p)
            case Some(u) =>
              && Fits(c, start, p + u.1, end, w + |Utf8(u.0)|)
              && w + |Utf8(u.0)| < end - start + 1 - Escapes(c, start, end)
              && Unescape(c, p, end) == Prefixed(Utf8(u.0), Unescape(c, p + u.1, end))
  {
    hide Utf16Literal, ClosingQuote, Escapes, Prefixed;
    var r := Utf16Literal(c, p, end);
    if r.Some? {
      EscapesInWindow(c, start, p, r.value.1 / 2);
      RoomGrows(c, start, p + r.value.1, end);
    }
  }

  lemma StepShort(c: bytes, start: nat, p: nat, end: nat, w: nat)
    requires start <= p < end < |c| && c[p] == BACKSLASH && c[p + 1] != LOWER_U && Fits(c, start, p, end, w)
    requires ClosingQuote(c, start) == Some(end)
    ensures Fits(c, start, p + 2, end, w + 1) && w + 1 < end - start + 1 - Escapes(c, start, end)
    ensures match ShortEscape(c[p + 1])
            case None => Unescape(c, p, end) == Fail(p)
            case Some(b) => Unescape(c, p, end) == Prefixed([b], Unescape(c, p + 2, end))
  {
    EscapesAreSparse(c, start, p);
    if p + 1 == end {
      LastByteStartsNoEscape(c, start, end);
    } else {
      RoomGrows(c, start, p + 2, end);
    }
  }

  lemma AtEnd(c: bytes, p: nat, end: nat)
    requires end < |c| && end <= p <= end + 1
    ensures Unescape(c, p, end) == Ok([], p)
  {
  }

  lemma NumberStep(c: bytes, o: nat, room: nat)
    requires o <= |c|
    ensures NumberEnd(c, o, room)
         == if room > 0 && o < |c| && IsNumberByte(c[o]) then NumberEnd(c, o + 1, room - 1) else o
  {
  }

  lemma SliceGrows(c: bytes, a: nat, b: nat)
    requires a <= b < |c|
    ensures c[a..b + 1] == c[a..b] + [c[b]]
  {
  }

  function Least(a: nat, b: nat): nat { if a < b then a else b }

  lemma PrefixedNone(r: Outcome<bytes>)
    ensures Prefixed([], r) == r
  {
    if r.Ok? {
      assert [] + r.value == r.value;
    }
  }

  lemma PrefixedTwice(a: bytes, b: bytes, r: Outcome<bytes>)
    ensures Prefixed(a, Prefixed(b, r)) == Prefixed(a + b, r)
  {
    if r.Ok? {
      assert a + (b + r.value) == a + b + r.value;
    }
  }
}
