/**
 The printer as cJSON runs it, into a buffer that grows by reallocation
 (FederatedLearningServer/src/cJSON.c:427-535, 544-612, 901-1027, 1187-1309, 1366-1438,
 1538-1598, 1713-1825). Printing a value leaves the offset somewhere inside the text it
 wrote; `update_offset` then finds the end by looking for the terminator.
 */
module JsonPrinter {
  import opened Bytes
  import opened JsonText

  // ----- facts about the text

  lemma NoNulParts(a: bytes, b: bytes)
    ensures NoNul(a + b) <==> NoNul(a) && NoNul(b)
  {
    if NoNul(a + b) {
      assert forall i :: 0 <= i < |a| ==> a[i] == (a + b)[i];
      assert forall i :: 0 <= i < |b| ==> b[i] == (a + b)[|a| + i];
    }
  }

  lemma {:induction false} EscapedNoNul(s: bytes)
    requires NoNul(s)
    ensures NoNul(Quoted(s))
    decreases |s|
  {
    EscapedBytesNoNul(s);
    NoNulParts([QUOTE], Escaped(s));
    NoNulParts([QUOTE] + Escaped(s), [QUOTE]);
  }

  lemma {:induction false} EscapedBytesNoNul(s: bytes)
    requires NoNul(s)
    ensures NoNul(Escaped(s))
  {
    if s != [] {
      EscapedBytesNoNul(s[1..]);
      NoNulParts(EscapeByte(s[0]), Escaped(s[1..]));
    }
  }

  lemma JoinNoNul(a: bytes, b: bytes, c: bytes)
    requires NoNul(a) && NoNul(b) && NoNul(c)
    ensures NoNul(a + b + c)
  {
    NoNulParts(a, b);
    NoNulParts(a + b, c);
  }

  lemma LeafNoNul(v: Json, fmt: bool, d: nat)
    requires Printable(v) && !v.Arr? && !v.Obj?
    ensures NoNul(Text(v, fmt, d))
  {
    hide Escaped, IntText, FloatLiteral;
    if v.Str? {
      EscapedNoNul(v.s);
    } else if v.Float? {
      FloatBytes(v.literal);
    }
  }

  lemma {:induction false} ArrayNoNul(items: seq<Json>, fmt: bool, d: nat)
    requires NoNul(ItemsText(items, fmt, d + 1))
    ensures NoNul(Text(Arr(items), fmt, d))
  {
    hide ItemsText;
    JoinNoNul([LBRACKET], ItemsText(items, fmt, d + 1), [RBRACKET]);
  }

  lemma {:induction false} ObjectNoNul(members: seq<Member>, fmt: bool, d: nat)
    requires NoNul(MembersText(members, fmt, d + 1))
    ensures NoNul(Text(Obj(members), fmt, d))
  {
    hide MembersText;
    var head := [LBRACE] + Break(fmt) + MembersText(members, fmt, d + 1);
    JoinNoNul([LBRACE], Break(fmt), MembersText(members, fmt, d + 1));
    JoinNoNul(head, Indent(fmt, d), [RBRACE]);
  }

  /** No printed text contains the terminator. */
  lemma {:induction false} TextNoNul(v: Json, fmt: bool, d: nat)
    requires Printable(v)
    ensures NoNul(Text(v, fmt, d))
    decreases v, 1
  {
    hide Text, ItemsText, MembersText, NoNul;
    match v
    case Arr(items) =>
      ItemsTextNoNul(items, fmt, d + 1);
      ArrayNoNul(items, fmt, d);
    case Obj(members) =>
      MembersTextNoNul(members, fmt, d + 1);
      ObjectNoNul(members, fmt, d);
    case _ =>
      LeafNoNul(v, fmt, d);
  }

  lemma {:induction false} ItemsTextNoNul(items: seq<Json>, fmt: bool, d: nat)
    requires forall i :: 0 <= i < |items| ==> Printable(items[i])
    ensures NoNul(ItemsText(items, fmt, d))
    decreases items, 0
  {
    if items != [] {
      TextNoNul(items[0], fmt, d);
      if |items| > 1 {
        ItemsTextNoNul(items[1..], fmt, d);
        NoNulParts(Text(items[0], fmt, d), Comma(fmt));
        NoNulParts(Text(items[0], fmt, d) + Comma(fmt), ItemsText(items[1..], fmt, d));
      }
    }
  }

  lemma {:induction false} MembersTextNoNul(members: seq<Member>, fmt: bool, d: nat)
    requires forall i :: 0 <= i < |members| ==> NoNul(members[i].key) && Printable(members[i].value)
    ensures NoNul(MembersText(members, fmt, d))
    decreases members, 0
  {
    if members != [] {
      var m := members[0];
      var (i, k, c, t) := (Indent(fmt, d), Quoted(m.key), Colon(fmt), Text(m.value, fmt, d));
      EscapedNoNul(m.key);
      TextNoNul(m.value, fmt, d);
      MembersTextNoNul(members[1..], fmt, d);
      NoNulParts(i, k);
      NoNulParts(i + k, c);
      NoNulParts(i + k + c, t);
      NoNulParts(i + k + c + t, MemberEnd(fmt, |members| > 1));
      NoNulParts(MemberText(m, |members| > 1, fmt, d), MembersText(members[1..], fmt, d));
    }
  }

  lemma {:induction false} EscapedLength(s: bytes)
    ensures |Escaped(s)| >= |s|
    ensures |Escaped(s)| == |s| ==> Escaped(s) == s
  {
    if s != [] {
      EscapedLength(s[1..]);
      assert s == [s[0]] + s[1..];
    }
  }

  class PrintBuffer {
    var buffer: array<byte>
    var length: nat
    var offset: nat
    var depth: nat
    const noalloc: bool
    const format: bool
    const hasRealloc: bool

    constructor (b: array<byte>, noalloc: bool, format: bool, hasRealloc: bool)
      requires b.Length <= INT_MAX && (b.Length == 0 ==> noalloc || hasRealloc)
      ensures Valid() && buffer == b && offset == 0 && depth == 0
      ensures this.noalloc == noalloc && this.format == format && this.hasRealloc == hasRealloc
    {
      this.buffer := b;
      this.length := b.Length;
      this.offset := 0;
      this.depth := 0;
      this.noalloc := noalloc;
      this.format := format;
      this.hasRealloc := hasRealloc;
    }

    ghost predicate Valid()
      reads `buffer, `length, `offset
    {
      && length == buffer.Length <= INT_MAX
      && (offset < length || offset == length == 0)
      && (length == 0 ==> noalloc || hasRealloc)
    }

    /** The text up to the offset. */
    ghost function Out(): bytes
      reads `buffer, `length, `offset, buffer
      requires Valid()
    {
      buffer[..offset]
    }

    /** How long the buffer may become. */
    ghost function Limit(): nat
      reads `length
    {
      if noalloc then length else INT_MAX
    }

    /** The buffer is the caller's, or one allocated since. */
    twostate predicate SameOrFresh()
      reads `buffer, `length
    {
      && (buffer == old(buffer) ==> length == old(length))
      && (buffer != old(buffer) ==> fresh(buffer) && !noalloc)
    }

    /** The text of the buffer goes on from `before` with `t` and a terminator, and
        the offset has not passed its end. */
    ghost predicate Wrote(before: bytes, t: bytes)
      reads `buffer, `length, `offset, buffer
    {
      && Valid()
      && |before| <= offset <= |before| + |t| < length
      && buffer[..|before| + |t|] == before + t
      && buffer[|before| + |t|] == 0
    }

    lemma WroteFrom(before: bytes, x: bytes, t: bytes)
      requires Wrote(before + x, t)
      ensures Wrote(before, x + t)
    {
      assert before + x + t == before + (x + t);
    }

    /** `ensure`: room for `needed` bytes and a terminator after the offset. */
    method Ensure(needed: nat) returns (ok: bool)
      requires Valid()
      modifies this`buffer, this`length
      ensures Valid() && SameOrFresh() && Limit() == old(Limit())
      ensures Out() == old(Out())
      ensures ok <==> offset + needed + 1 <= Limit()
      ensures ok ==> offset + needed + 1 <= length
    {
      if length > 0 && offset >= length {
        return false;
      }
      if needed > INT_MAX {
        return false;
      }
      var total := needed + offset + 1;
      if total <= length {
        return true;
      }
      if noalloc {
        return false;
      }
      var newsize;
      if total > INT_MAX / 2 {
        if total <= INT_MAX {
          newsize := INT_MAX;
        } else {
          return false;
        }
      } else {
        newsize := total * 2;
      }
      // realloc keeps the whole block; the manual copy keeps the text and one byte more
      var kept := if hasRealloc then length else offset + 1;
      var newbuffer := new byte[newsize];
      forall i | 0 <= i < kept {
        newbuffer[i] := buffer[i];
      }
      length := newsize;
      buffer := newbuffer;
      ok := true;
    }

    /** `update_offset`: `strlen` from the offset on. */
    method UpdateOffset(ghost before: bytes, ghost t: bytes)
      requires Wrote(before, t) && NoNul(t)
      modifies this`offset
      ensures Valid() && Out() == before + t && offset < length && buffer[offset] == 0
    {
      ghost var end := |before| + |t|;
      forall i | |before| <= i < end ensures buffer[i] != 0 {
        assert buffer[..end][i] == (before + t)[i] == t[i - |before|];
      }
      while buffer[offset] != 0
        invariant |before| <= offset <= end < length
        decreases end - offset
      {
        offset := offset + 1;
      }
    }

    /** A block of the exact size with the text and its terminator. */
    method Trim() returns (printed: array<byte>)
      requires Valid() && offset < length && buffer[offset] == 0
      ensures fresh(printed) && printed[..] == Out() + [0]
    {
      printed := new byte[offset + 1];
      forall i | 0 <= i < offset + 1 {
        printed[i] := buffer[i];
      }
    }

    /** Bytes written at the offset, which moves past them. */
    method Emit(t: bytes)
      requires Valid() && offset + |t| < length
      modifies this`offset, buffer
      ensures Valid() && Out() == old(Out()) + t
    {
      ghost var before := Out();
      var i := 0;
      while i < |t|
        invariant 0 <= i <= |t| && offset == |before|
        invariant buffer[..offset + i] == before + t[..i]
      {
        buffer[offset + i] := t[i];
        assert buffer[..offset + i + 1] == before + t[..i] + [t[i]];
        assert t[..i + 1] == t[..i] + [t[i]];
        i := i + 1;
      }
      offset := offset + |t|;
      assert t[..|t|] == t;
    }

    /** Bytes and a terminator written at the offset, which stays (`strcpy`). */
    method Copy(t: bytes)
      requires Valid() && offset + |t| < length
      modifies this`offset, buffer
      ensures offset == old(offset) && Wrote(old(Out()), t)
    {
      var start := offset;
      Emit(t);
      buffer[offset] := 0;
      offset := start;
    }

    /** Room for `t` with `spare` bytes to spare, then `t` without moving the offset. */
    method EnsureAndCopy(t: bytes, spare: nat) returns (ok: bool)
      requires Valid() && 1 <= spare
      modifies this, buffer
      ensures depth == old(depth) && Limit() == old(Limit()) && SameOrFresh() && Valid()
      ensures ok <==> old(offset) + |t| + spare + 1 <= Limit()
      ensures ok ==> Wrote(old(Out()), t)
    {
      ok := Ensure(|t| + spare);
      if ok {
        Copy(t);
      }
    }

    /** The end of a container whose opening and contents have been written. */
    method EnsureAndClose(ghost before: bytes, ghost open: bytes, ghost inner: bytes, close: bytes) returns (ok: bool)
      requires Valid() && Out() == before + open + inner
      modifies this, buffer
      ensures depth == old(depth) && Limit() == old(Limit()) && SameOrFresh() && Valid()
      ensures ok <==> |before| + |open + inner + close| + 2 <= Limit()
      ensures ok ==> Wrote(before, open + inner + close)
    {
      Regroup(before, open, inner);
      ok := EnsureAndCopy(close, 1);
      if ok {
        WroteFrom(before, open + inner, close);
      }
    }

    /** Room for `t` with `spare` bytes to spare, then `t` with the offset moved past it. */
    method EnsureAndEmit(t: bytes, spare: nat) returns (ok: bool)
      requires Valid()
      modifies this, buffer
      ensures depth == old(depth) && Limit() == old(Limit()) && SameOrFresh() && Valid()
      ensures ok <==> old(offset) + |t| + spare + 1 <= Limit()
      ensures ok ==> Out() == old(Out()) + t && offset + spare < length
    {
      ok := Ensure(|t| + spare);
      if ok {
        Emit(t);
      }
    }

    /** `print_number`, through its 26-byte buffer. */
    method PrintNumber(digits: bytes) returns (ok: bool)
      requires Valid() && |digits| <= 25
      modifies this, buffer
      ensures depth == old(depth) && Limit() == old(Limit()) && SameOrFresh() && Valid()
      ensures ok <==> old(offset) + |digits| + 2 <= Limit()
      ensures ok ==> Wrote(old(Out()), digits)
    {
      ok := EnsureAndEmit(digits, 1);
      if ok {
        buffer[offset] := 0;
      }
    }

    /** One escaped byte at position `p`; the terminator that `sprintf` adds after a
        `\u` escape falls on the next position. */
    method WriteEscape(p: nat, b: byte) returns (p': nat)
      requires Valid() && p + |EscapeByte(b)| < length
      modifies buffer
      ensures p' == p + |EscapeByte(b)| && buffer[..p'] == old(buffer[..p]) + EscapeByte(b)
    {
      ghost var before := buffer[..p];
      if b > 31 && b != QUOTE && b != BACKSLASH {
        buffer[p] := b;
        p' := p + 1;
      } else {
        buffer[p] := BACKSLASH;
        if b == BACKSLASH || b == QUOTE {
          buffer[p + 1] := b;
          p' := p + 2;
        } else if b == 8 || b == 12 || b == 10 || b == 13 || b == 9 {
          buffer[p + 1] :=
            if b == 8 then 98 else if b == 12 then 102 else if b == 10 then 110 else if b == 13 then 114 else 116;
          p' := p + 2;
        } else {
          WriteHex(p + 1, b);
          p' := p + 6;
        }
      }
      assert buffer[..p'] == before + EscapeByte(b);
    }

    /** `sprintf` of a control byte, with the terminator it adds. */
    method WriteHex(p: nat, b: byte)
      requires Valid() && p + 5 < length
      modifies buffer
      ensures buffer[..p + 5] == old(buffer[..p]) + [LOWER_U, 48, 48, HexDigit(b / 16), HexDigit(b % 16)]
    {
      buffer[p], buffer[p + 1], buffer[p + 2] := LOWER_U, 48, 48;
      buffer[p + 3], buffer[p + 4], buffer[p + 5] := HexDigit(b / 16), HexDigit(b % 16), 0;
    }

    /** The counting pass of `print_string_ptr`. */
    static method EscapedSize(s: bytes) returns (size: nat, extra: nat)
      ensures size == |Escaped(s)| && extra == size - |s|
    {
      var i := 0;
      extra := 0;
      assert s[0..] == s;
      while i < |s|
        invariant 0 <= i <= |s| && i + extra + |Escaped(s[i..])| == |Escaped(s)|
      {
        var b := s[i];
        EscapedFrom(s, i);
        if b == QUOTE || b == BACKSLASH || b == 8 || b == 12 || b == 10 || b == 13 || b == 9 {
          extra := extra + 1;
        } else if b < 32 {
          extra := extra + 5;
        }
        i := i + 1;
      }
      assert s[i..] == [];
      size := i + extra;
    }

    /** `print_string_ptr`: counts the extra bytes first, then escapes. */
    method PrintString(s: bytes) returns (ok: bool)
      requires Valid()
      modifies this, buffer
      ensures depth == old(depth) && Limit() == old(Limit()) && SameOrFresh() && Valid()
      ensures ok <==> old(offset) + |Quoted(s)| + 2 <= Limit()
      ensures ok ==> Wrote(old(Out()), Quoted(s))
    {
      ghost var before := Out();
      var size, extra := EscapedSize(s);
      ok := Ensure(size + 3);
      if !ok {
        return;
      }
      EscapedLength(s);
      if extra == 0 {
        Copy([QUOTE] + s + [QUOTE]);
      } else {
        WriteQuoted(s, size);
      }
    }

    method WriteQuoted(s: bytes, size: nat)
      requires Valid() && size == |Escaped(s)| && offset + size + 2 < length
      modifies buffer
      ensures offset == old(offset) && Wrote(old(Out()), Quoted(s))
    {
      hide Escaped;
      ghost var before := Out();
      buffer[offset] := QUOTE;
      assert buffer[..offset + 1] == before + [QUOTE];
      var p := WriteEscaped(s, offset + 1);
      ghost var text := buffer[..p];
      buffer[offset + size + 1] := QUOTE;
      buffer[offset + size + 2] := 0;
      assert buffer[..p + 1] == text + [QUOTE];
      Regroup(before, [QUOTE], Escaped(s));
      Regroup(before, [QUOTE] + Escaped(s), [QUOTE]);
    }

    /** The escaping pass of `print_string_ptr`. */
    method WriteEscaped(s: bytes, start: nat) returns (p: nat)
      requires Valid() && start + |Escaped(s)| < length
      modifies buffer
      ensures p == start + |Escaped(s)| && buffer[..p] == old(buffer[..start]) + Escaped(s)
    {
      ghost var before := buffer[..start];
      p := start;
      var i := 0;
      assert s[0..] == s;
      while i < |s|
        invariant 0 <= i <= |s| && p + |Escaped(s[i..])| == start + |Escaped(s)|
        invariant buffer[..p] + Escaped(s[i..]) == before + Escaped(s)
      {
        ghost var done := buffer[..p];
        EscapedFrom(s, i);
        p := WriteEscape(p, s[i]);
        Regroup(done, EscapeByte(s[i]), Escaped(s[i + 1..]));
        i := i + 1;
      }
      assert s[i..] == [];
      assert buffer[..p] + [] == buffer[..p];
    }

    /** `print_value`. */
    method PrintValue(v: Json) returns (ok: bool)
      requires Valid() && Printable(v)
      modifies this, buffer
      ensures depth == old(depth) || !ok
      ensures Limit() == old(Limit()) && SameOrFresh() && Valid()
      ensures ok <==> old(offset) + |Text(v, format, old(depth))| + 2 <= Limit()
      ensures ok ==> Wrote(old(Out()), Text(v, format, old(depth)))
      decreases v, 2
    {
      match v
      case Null => ok := EnsureAndCopy(NULL_TEXT, 1);
      case Bool(b) => ok := EnsureAndCopy(if b then TRUE_TEXT else FALSE_TEXT, 1);
      case Int(n) =>
        IntTextLength(n);
        ok := PrintNumber(IntText(n));
      case Float(t) => ok := PrintNumber(t);
      case Str(s) => ok := PrintString(s);
      case Arr(items) => ok := PrintArray(items);
      case Obj(members) => ok := PrintObject(members);
    }

    /** A key, or a string item, with the offset moved to its end. */
    method PrintStringToEnd(s: bytes) returns (ok: bool)
      requires Valid() && NoNul(s)
      modifies this, buffer
      ensures depth == old(depth) && Limit() == old(Limit()) && SameOrFresh() && Valid()
      ensures ok <==> old(offset) + |Quoted(s)| + 2 <= Limit()
      ensures ok ==> Out() == old(Out()) + Quoted(s)
    {
      ghost var start := Out();
      ok := PrintString(s);
      if ok {
        EscapedNoNul(s);
        UpdateOffset(start, Quoted(s));
      }
    }

    method PrintValueToEnd(v: Json) returns (ok: bool)
      requires Valid() && Printable(v)
      modifies this, buffer
      ensures depth == old(depth) || !ok
      ensures Limit() == old(Limit()) && SameOrFresh() && Valid()
      ensures ok <==> old(offset) + |Text(v, format, old(depth))| + 2 <= Limit()
      ensures ok ==> Out() == old(Out()) + Text(v, format, old(depth))
      decreases v, 3
    {
      hide Text, Printable;
      ghost var start := Out();
      ok := PrintValue(v);
      if ok {
        TextNoNul(v, format, depth);
        UpdateOffset(start, Text(v, format, depth));
      }
    }

    /** `print_array`. */
    method PrintArray(items: seq<Json>) returns (ok: bool)
      requires Valid() && forall i :: 0 <= i < |items| ==> Printable(items[i])
      modifies this, buffer
      ensures depth == old(depth) || !ok
      ensures Limit() == old(Limit()) && SameOrFresh() && Valid()
      ensures ok <==> old(offset) + |Text(Arr(items), format, old(depth))| + 2 <= Limit()
      ensures ok ==> Wrote(old(Out()), Text(Arr(items), format, old(depth)))
      decreases items, 1
    {
      hide Text, Printable, ItemsText, Wrote;
      ghost var before, all := Out(), ItemsText(items, format, depth + 1);
      ArrayText(items, format, depth);
      ok := EnsureAndEmit([LBRACKET], 0);
      if !ok {
        return;
      }
      depth := depth + 1;
      ok := PrintItems(items);
      if !ok {
        return;
      }
      ok := EnsureAndClose(before, [LBRACKET], all, [RBRACKET]);
      if ok {
        depth := depth - 1;
      }
    }

    /** The loop of `print_array`. */
    method PrintItems(items: seq<Json>) returns (ok: bool)
      requires Valid() && forall i :: 0 <= i < |items| ==> Printable(items[i])
      modifies this, buffer
      ensures depth == old(depth) || !ok
      ensures Limit() == old(Limit()) && SameOrFresh() && Valid()
      ensures !ok ==> old(offset) + |ItemsText(items, format, old(depth))| + 2 > Limit()
      ensures ok ==> Out() == old(Out()) + ItemsText(items, format, old(depth))
      decreases items, 0
    {
      hide Text, Printable, ItemsText, ItemText;
      ghost var before, all := Out(), ItemsText(items, format, depth);
      var i := 0;
      assert items[0..] == items;
      while i < |items|
        invariant 0 <= i <= |items| && depth == old(depth)
        invariant Valid() && SameOrFresh() && Limit() == old(Limit())
        invariant Out() + ItemsText(items[i..], format, depth) == before + all
        invariant offset + |ItemsText(items[i..], format, depth)| == |before| + |all|
      {
        ghost var rest := ItemsText(items[i + 1..], format, depth);
        ghost var done := Out();
        ItemsFrom(items, i, format, depth);
        ok := PrintItem(items[i], i + 1 < |items|);
        if !ok {
          return;
        }
        Regroup(done, ItemText(items[i], i + 1 < |items|, format, depth), rest);
        i := i + 1;
      }
      NoMoreItems(items, format, depth);
      assert Out() + [] == Out();
      ok := true;
    }

    /** One pass of the loop of `print_array`. */
    method PrintItem(v: Json, more: bool) returns (ok: bool)
      requires Valid() && Printable(v)
      modifies this, buffer
      ensures depth == old(depth) || !ok
      ensures Limit() == old(Limit()) && SameOrFresh() && Valid()
      ensures !ok ==> old(offset) + |ItemText(v, more, format, old(depth))| + 2 > Limit()
      ensures ok ==> Out() == old(Out()) + ItemText(v, more, format, old(depth))
      decreases v, 4
    {
      hide Text, Printable;
      ok := PrintValueToEnd(v);
      if ok && more {
        ok := EnsureAndEmit(Comma(format), 1);
      }
    }

    /** `print_object`. */
    method PrintObject(members: seq<Member>) returns (ok: bool)
      requires Valid() && forall i :: 0 <= i < |members| ==> NoNul(members[i].key) && Printable(members[i].value)
      modifies this, buffer
      ensures depth == old(depth) || !ok
      ensures Limit() == old(Limit()) && SameOrFresh() && Valid()
      ensures ok <==> old(offset) + |Text(Obj(members), format, old(depth))| + 2 <= Limit()
      ensures ok ==> Wrote(old(Out()), Text(Obj(members), format, old(depth)))
      decreases members, 1
    {
      hide Text, Printable, Quoted, MembersText, MemberText, Break, Indent, Wrote, NoNul;
      ghost var before, all := Out(), MembersText(members, format, depth + 1);
      ghost var open := [LBRACE] + Break(format);
      ObjectText(members, format, depth);
      ok := EnsureAndEmit([LBRACE] + Break(format), 1);
      if !ok {
        return;
      }
      depth := depth + 1;
      ok := PrintMembers(members);
      if !ok {
        return;
      }
      ok := EnsureAndClose(before, open, all, Indent(format, depth - 1) + [RBRACE]);
      if ok {
        depth := depth - 1;
      }
    }

    /** The loop of `print_object`. */
    method PrintMembers(members: seq<Member>) returns (ok: bool)
      requires Valid() && forall i :: 0 <= i < |members| ==> NoNul(members[i].key) && Printable(members[i].value)
      modifies this, buffer
      ensures depth == old(depth) || !ok
      ensures Limit() == old(Limit()) && SameOrFresh() && Valid()
      ensures !ok ==> old(offset) + |MembersText(members, format, old(depth))| + 3 > Limit()
      ensures ok ==> Out() == old(Out()) + MembersText(members, format, old(depth))
      decreases members, 0
    {
      hide Text, Printable, MembersText, MemberText;
      ghost var before, all := Out(), MembersText(members, format, depth);
      var i := 0;
      assert members[0..] == members;
      while i < |members|
        invariant 0 <= i <= |members| && depth == old(depth)
        invariant Valid() && SameOrFresh() && Limit() == old(Limit())
        invariant Out() + MembersText(members[i..], format, depth) == before + all
        invariant offset + |MembersText(members[i..], format, depth)| == |before| + |all|
      {
        ghost var rest := MembersText(members[i + 1..], format, depth);
        ghost var done := Out();
        MembersFrom(members, i, format, depth);
        ok := PrintMember(members[i], i + 1 < |members|);
        if !ok {
          return;
        }
        Regroup(done, MemberText(members[i], i + 1 < |members|, format, depth), rest);
        i := i + 1;
      }
      NoMoreMembers(members, format, depth);
      assert Out() + [] == Out();
      ok := true;
    }

    /** One pass of the loop of `print_object`. */
    method PrintMember(m: Member, more: bool) returns (ok: bool)
      requires Valid() && NoNul(m.key) && Printable(m.value)
      modifies this, buffer
      ensures depth == old(depth) || !ok
      ensures Limit() == old(Limit()) && SameOrFresh() && Valid()
      ensures !ok ==> old(offset) + |MemberText(m, more, format, old(depth))| + 3 > Limit()
      ensures ok ==> Out() == old(Out()) + MemberText(m, more, format, old(depth))
      decreases m, 4
    {
      hide Text, Printable, Quoted, Indent, Colon, MemberEnd;
      ok := PrintKey(m.key);
      if !ok {
        return;
      }
      ghost var start := Out();
      ok := PrintValueToEnd(m.value);
      if !ok {
        return;
      }
      ok := EnsureAndEmit(MemberEnd(format, more), 1);
    }

    /** Indentation, key and colon. */
    method PrintKey(key: bytes) returns (ok: bool)
      requires Valid() && NoNul(key)
      modifies this, buffer
      ensures depth == old(depth)
      ensures Limit() == old(Limit()) && SameOrFresh() && Valid()
      ensures !ok ==> old(offset) + |Indent(format, old(depth)) + Quoted(key) + Colon(format)| + 1 > Limit()
      ensures ok ==> Out() == old(Out()) + (Indent(format, old(depth)) + Quoted(key) + Colon(format))
    {
      hide Quoted;
      ghost var before := Out();
      if format {
        ok := EnsureAndEmit(Tabs(depth), 0);
        if !ok {
          return;
        }
      }
      ok := PrintStringToEnd(key);
      if !ok {
        return;
      }
      ok := EnsureAndEmit(Colon(format), 0);
    }
  }

  /** `print`: a 256-byte buffer to start with, and a last one of the exact size. */
  method Print(v: Json, format: bool, hasRealloc: bool) returns (ok: bool, printed: array<byte>)
    requires Printable(v)
    ensures ok <==> |Text(v, format, 0)| + 2 <= INT_MAX
    ensures ok ==> fresh(printed) && printed[..] == Text(v, format, 0) + [0]
  {
    hide Text, Printable;
    var b := new byte[256];
    var p := new PrintBuffer(b, false, format, hasRealloc);
    printed := b;
    ok := p.PrintValue(v);
    if !ok {
      return;
    }
    TextNoNul(v, format, 0);
    p.UpdateOffset([], Text(v, format, 0));
    printed := p.Trim();
  }

  /** `cJSON_PrintBuffered`, whose result is a C string in a buffer of some size. */
  method PrintBuffered(v: Json, prebuffer: int, format: bool, hasRealloc: bool) returns (ok: bool, printed: array<byte>)
    requires Printable(v) && prebuffer <= INT_MAX && (prebuffer == 0 ==> hasRealloc)
    ensures ok <==> prebuffer >= 0 && |Text(v, format, 0)| + 2 <= INT_MAX
    ensures ok ==> |Text(v, format, 0)| < printed.Length
    ensures ok ==> printed[..|Text(v, format, 0)|] == Text(v, format, 0) && printed[|Text(v, format, 0)|] == 0
  {
    hide Text, Printable;
    printed := new byte[0];
    if prebuffer < 0 {
      return false, printed;
    }
    var b := new byte[prebuffer];
    var p := new PrintBuffer(b, false, format, hasRealloc);
    ok := p.PrintValue(v);
    printed := p.buffer;
  }

  /** `cJSON_PrintPreallocated` succeeds exactly when the caller's buffer holds the text,
      its terminator and one byte more. */
  method PrintPreallocated(v: Json, buffer: array<byte>, format: bool) returns (ok: bool)
    requires Printable(v) && buffer.Length <= INT_MAX
    modifies buffer
    ensures ok <==> |Text(v, format, 0)| + 2 <= buffer.Length
    ensures ok ==> buffer[..|Text(v, format, 0)|] == Text(v, format, 0) && buffer[|Text(v, format, 0)|] == 0
  {
    hide Text, Printable;
    var p := new PrintBuffer(buffer, true, format, true);
    ok := p.PrintValue(v);
  }

  /** One item of an array with the comma after it. */
  function ItemText(v: Json, more: bool, fmt: bool, d: nat): bytes {
    Text(v, fmt, d) + if more then Comma(fmt) else []
  }

  lemma Regroup(a: bytes, b: bytes, c: bytes)
    ensures a + b + c == a + (b + c)
  {
  }

  lemma {:induction false} EscapedFrom(s: bytes, i: nat)
    requires i < |s|
    ensures Escaped(s[i..]) == EscapeByte(s[i]) + Escaped(s[i + 1..])
  {
    assert s[i..][1..] == s[i + 1..];
  }

  lemma {:induction false} ArrayText(items: seq<Json>, fmt: bool, d: nat)
    ensures Text(Arr(items), fmt, d) == [LBRACKET] + ItemsText(items, fmt, d + 1) + [RBRACKET]
  {
  }

  lemma {:induction false} ObjectText(members: seq<Member>, fmt: bool, d: nat)
    ensures Text(Obj(members), fmt, d)
         == ([LBRACE] + Break(fmt)) + MembersText(members, fmt, d + 1) + (Indent(fmt, d) + [RBRACE])
  {
  }

  lemma {:induction false} ItemsFrom(items: seq<Json>, i: nat, fmt: bool, d: nat)
    requires i < |items|
    ensures ItemsText(items[i..], fmt, d)
         == ItemText(items[i], i + 1 < |items|, fmt, d) + ItemsText(items[i + 1..], fmt, d)
  {
    assert items[i..][1..] == items[i + 1..];
  }

  lemma {:induction false} MembersFrom(members: seq<Member>, i: nat, fmt: bool, d: nat)
    requires i < |members|
    ensures MembersText(members[i..], fmt, d)
         == MemberText(members[i], i + 1 < |members|, fmt, d) + MembersText(members[i + 1..], fmt, d)
  {
    assert members[i..][1..] == members[i + 1..];
  }

  lemma {:induction false} NoMoreItems(items: seq<Json>, fmt: bool, d: nat)
    ensures ItemsText(items[|items|..], fmt, d) == []
  {
  }

  lemma {:induction false} NoMoreMembers(members: seq<Member>, fmt: bool, d: nat)
    ensures MembersText(members[|members|..], fmt, d) == []
  {
  }
}
