/**
 The language that the parser accepts, declared position by position, and that it accepts
 exactly this language with exactly these values
 (FederatedLearningServer/src/cJSON.c:304-379, 614-899, 1037-1158, 1311-1364, 1440-1536,
 1600-1711).
 */
module JsonLanguage {
  import opened Bytes
  import opened JsonText
  import opened JsonGrammar
  import opened JsonNumbers
  import opened JsonRoundTrip

  // ----- where a literal ends

  /** How many backslashes stand directly before `k`, not counting any before `a`. */
  function Run(c: bytes, a: nat, k: nat): (n: nat)
    requires a <= k <= |c|
    decreases k
  {
    if k > a && c[k - 1] == 92 then 1 + Run(c, a, k - 1) else 0
  }

  /** The first quote from `a` on that no backslash protects is at `e`. */
  ghost predicate Closed(c: bytes, a: nat, e: nat) {
    && a <= e < |c| && c[e] == 34 && Run(c, a, e) % 2 == 0
    && forall k :: a <= k < e && c[k] == 34 ==> Run(c, a, k) % 2 == 1
  }

  /** The walk over plain bytes and protected ones, from a place where neither is cut. */
  lemma {:induction false} WalkIff(c: bytes, a: nat, p: nat, e: nat)
    requires a <= p <= |c| && Run(c, a, p) % 2 == 0
    requires forall k :: a <= k < p && c[k] == 34 ==> Run(c, a, k) % 2 == 1
    ensures ClosingQuote(c, p) == Some(e) <==> p <= e && Closed(c, a, e)
    decreases |c| - p
  {
    hide Run;
    if p < |c| {
      RunNext(c, a, p);
      if c[p] == 92 {
        if p + 1 < |c| {
          RunNext(c, a, p + 1);
          WalkIff(c, a, p + 2, e);
        }
      } else if c[p] != 34 {
        WalkIff(c, a, p + 1, e);
      }
    }
  }

  lemma RunNext(c: bytes, a: nat, p: nat)
    requires a <= p < |c|
    ensures Run(c, a, p + 1) == if c[p] == 92 then 1 + Run(c, a, p) else 0
  {
  }

  lemma ClosingQuoteIff(c: bytes, a: nat, e: nat)
    requires a <= |c|
    ensures ClosingQuote(c, a) == Some(e) <==> Closed(c, a, e)
  {
    hide ClosingQuote;
    WalkIff(c, a, a, e);
  }

  // ----- what a literal means

  /** One step of the decoding: a byte, a two-byte escape, four hexadecimal digits, two times
      four for a surrogate pair, or four bytes that are not all such digits, which the parser
      takes for U+0000. */
  datatype Unit = Plain(b: byte) | Letter(e: byte) | Code(h: bytes) | Codes(h: bytes, l: bytes) | Broken(four: bytes)

  predicate Hex(b: byte) {
    48 <= b <= 57 || 65 <= b <= 70 || 97 <= b <= 102
  }

  predicate AllHex(t: bytes) {
    forall i :: 0 <= i < |t| ==> Hex(t[i])
  }

  function Digit(b: byte): nat
    requires Hex(b)
  {
    if b <= 57 then b - 48 else if b <= 70 then b - 55 else b - 87
  }

  function Number(h: bytes): (n: nat)
    requires |h| == 4 && AllHex(h)
    ensures n < 0x1_0000
  {
    4096 * Digit(h[0]) + 256 * Digit(h[1]) + 16 * Digit(h[2]) + Digit(h[3])
  }

  predicate IsUnit(u: Unit) {
    match u
    case Plain(b) => b != 92
    case Letter(e) => e == 34 || e == 92 || e == 47 || e == 98 || e == 102 || e == 110 || e == 114 || e == 116
    case Code(h) => |h| == 4 && AllHex(h) && (Number(h) < 0xD800 || Number(h) > 0xDFFF)
    case Codes(h, l) =>
      && |h| == |l| == 4 && AllHex(h) && AllHex(l)
      && 0xD800 <= Number(h) < 0xDC00 <= Number(l) < 0xE000
    case Broken(four) => |four| == 4 && !AllHex(four)
  }

  function Form(u: Unit): bytes {
    match u
    case Plain(b) => [b]
    case Letter(e) => [92, e]
    case Code(h) => [92, 117] + h
    case Codes(h, l) => ([92, 117] + h) + ([92, 117] + l)
    case Broken(four) => [92, 117] + four
  }

  function Sense(u: Unit): bytes
    requires IsUnit(u)
  {
    match u
    case Plain(b) => [b]
    case Letter(e) => [if e == 98 then 8 else if e == 102 then 12 else if e == 110 then 10 else if e == 114 then 13
                       else if e == 116 then 9 else e]
    case Code(h) => Utf8(Number(h))
    case Codes(h, l) => Utf8(0x1_0000 + (Number(h) - 0xD800) * 1024 + (Number(l) - 0xDC00))
    case Broken(_) => [0]
  }

  /** A unit at `p`; only a two-byte escape may reach past `end`, over the closing quote. */
  ghost predicate UnitAt(c: bytes, p: nat, end: nat, u: Unit) {
    && IsUnit(u) && At(c, p, Form(u))
    && (p + |Form(u)| <= end || u.Letter?)
  }

  /** From `p` on stand units that mean `t`; all of them begin before `end`. */
  ghost predicate Decodes(c: bytes, p: nat, end: nat, t: bytes)
    decreases end - p
  {
    if p >= end then t == []
    else
      exists u, rest ::
        UnitAt(c, p, end, u) && Form(u) != [] && t == Sense(u) + rest && Decodes(c, p + |Form(u)|, end, rest)
  }

  /** What the parser decodes first: the bytes, and how many it consumes. */
  function FirstStep(c: bytes, p: nat, end: nat): Option<(bytes, nat)>
    requires p < end < |c|
  {
    if c[p] != BACKSLASH then Some(([c[p]], 1))
    else if c[p + 1] == LOWER_U then
      match Utf16Literal(c, p, end)
      case None => None
      case Some(u) => Some((Utf8(u.0), u.1))
    else
      match ShortEscape(c[p + 1])
      case None => None
      case Some(b) => Some(([b], 2))
  }

  lemma FirstStepIs(c: bytes, p: nat, end: nat)
    requires p < end < |c|
    ensures match FirstStep(c, p, end)
            case None => Unescape(c, p, end) == Fail(p)
            case Some(s) =>
              && 0 < s.1 && p + s.1 <= end + 1
              && Unescape(c, p, end) == Prefixed(s.0, Unescape(c, p + s.1, end))
  {
    hide Utf16Literal, Utf8;
  }

  lemma HexIff(b: byte)
    ensures HexValue(b) == if Hex(b) then Some(Digit(b)) else None
  {
  }

  /** Four bytes at `p`: their number if all are digits, and 0 otherwise. */
  lemma {:induction false} Hex4Is(c: bytes, p: nat, h: bytes)
    requires |h| == 4 && At(c, p, h)
    ensures p + 4 <= |c| && Hex4(c, p) == if AllHex(h) then Number(h) else 0
  {
    hide At, HexValue, Hex, Digit;
    AtIndex(c, p, h, 0);
    AtIndex(c, p, h, 1);
    AtIndex(c, p, h, 2);
    AtIndex(c, p, h, 3);
    HexIff(h[0]);
    HexIff(h[1]);
    HexIff(h[2]);
    HexIff(h[3]);
    if !AllHex(h) {
      var i :| 0 <= i < 4 && !Hex(h[i]);
    }
  }

  /** Backslash, `u` and four bytes. */
  lemma {:induction false} CodeAt(c: bytes, p: nat, h: bytes)
    requires |h| == 4 && At(c, p, [92, 117] + h)
    ensures p + 6 <= |c| && c[p] == 92 && c[p + 1] == 117
    ensures Hex4(c, p + 2) == if AllHex(h) then Number(h) else 0
  {
    hide At, Hex4, AllHex;
    AtIndex(c, p, [92, 117] + h, 0);
    AtIndex(c, p, [92, 117] + h, 1);
    AtSplit(c, p, [92, 117], h);
    Hex4Is(c, p + 2, h);
  }

  lemma {:induction false} UnitTaken(c: bytes, p: nat, end: nat, u: Unit)
    requires p < end < |c| && UnitAt(c, p, end, u)
    ensures FirstStep(c, p, end) == Some((Sense(u), |Form(u)|))
  {
    hide At, Utf8, Hex4, AllHex, Number;
    match u
    case Plain(b) => AtIndex(c, p, Form(u), 0);
    case Letter(e) =>
      AtIndex(c, p, Form(u), 0);
      AtIndex(c, p, Form(u), 1);
    case Broken(four) =>
      CodeAt(c, p, four);
      NulIs();
    case Code(h) => CodeAt(c, p, h);
    case Codes(h, l) =>
      AtSplit(c, p, [92, 117] + h, [92, 117] + l);
      CodeAt(c, p, h);
      CodeAt(c, p + 6, l);
  }

  lemma NulIs()
    ensures Utf8(0) == [0]
  {
  }

  /** The unit that the parser has taken. */
  lemma {:induction false} StepIsUnit(c: bytes, p: nat, end: nat) returns (u: Unit)
    requires p < end < |c| && FirstStep(c, p, end).Some?
    ensures UnitAt(c, p, end, u) && FirstStep(c, p, end) == Some((Sense(u), |Form(u)|))
  {
    hide At, Utf8, Utf16Literal;
    if c[p] != 92 {
      u := Plain(c[p]);
      AtSlice(c, p, [c[p]]);
    } else if c[p + 1] != 117 {
      u := Letter(c[p + 1]);
      AtSlice(c, p, [92, c[p + 1]]);
    } else {
      u := CodeUnit(c, p, end);
    }
  }

  lemma {:induction false} CodeUnit(c: bytes, p: nat, end: nat) returns (u: Unit)
    requires p < end < |c| && c[p] == 92 && c[p + 1] == 117 && Utf16Literal(c, p, end).Some?
    ensures UnitAt(c, p, end, u)
    ensures var (n, k) := Utf16Literal(c, p, end).value; |Form(u)| == k && n < 0x11_0000 && Sense(u) == Utf8(n)
  {
    hide At, Utf8, Hex4, AllHex, Number;
    var h := c[p + 2..p + 6];
    SliceIs(c, p);
    CodeAt(c, p, h);
    if !AllHex(h) {
      u := Broken(h);
      NulIs();
    } else if Utf16Literal(c, p, end).value.1 == 6 {
      u := Code(h);
    } else {
      var l := c[p + 8..p + 12];
      SliceIs(c, p + 6);
      CodeAt(c, p + 6, l);
      AtJoin(c, p, [92, 117] + h, [92, 117] + l);
      u := Codes(h, l);
    }
  }

  lemma {:induction false} SliceIs(c: bytes, p: nat)
    requires p + 6 <= |c| && c[p] == 92 && c[p + 1] == 117
    ensures At(c, p, [92, 117] + c[p + 2..p + 6])
  {
    AtSlice(c, p, [92, 117] + c[p + 2..p + 6]);
  }

  predicate Gives(r: Outcome<bytes>, t: bytes) {
    r.Ok? && r.value == t
  }

  /** The second pass decodes exactly this. */
  lemma {:induction false} UnescapeIff(c: bytes, p: nat, end: nat, t: bytes)
    requires p <= end + 1 && end < |c|
    ensures Gives(Unescape(c, p, end), t) <==> Decodes(c, p, end, t)
    decreases end + 1 - p
  {
    hide Unescape, Decodes, FirstStep, At, Form, Sense, IsUnit;
    DecodesIs(c, p, end, t);
    if p >= end {
      NothingToDecode(c, p, end);
    } else {
      FirstStepIs(c, p, end);
      if Gives(Unescape(c, p, end), t) {
        var u := StepIsUnit(c, p, end);
        var rest := Unescape(c, p + |Form(u)|, end).value;
        UnescapeIff(c, p + |Form(u)|, end, rest);
      }
      if Decodes(c, p, end, t) {
        var u, rest :| UnitAt(c, p, end, u) && Form(u) != [] && t == Sense(u) + rest
                       && Decodes(c, p + |Form(u)|, end, rest);
        UnitTaken(c, p, end, u);
        UnescapeIff(c, p + |Form(u)|, end, rest);
      }
    }
  }

  lemma NothingToDecode(c: bytes, p: nat, end: nat)
    requires end <= p <= end + 1 && end < |c|
    ensures Unescape(c, p, end) == Ok([], p)
  {
  }

  lemma DecodesIs(c: bytes, p: nat, end: nat, t: bytes)
    ensures p >= end ==> (Decodes(c, p, end, t) <==> t == [])
    ensures p < end ==>
              (Decodes(c, p, end, t)
               <==> exists u, rest ::
                      UnitAt(c, p, end, u) && Form(u) != [] && t == Sense(u) + rest
                      && Decodes(c, p + |Form(u)|, end, rest))
  {
  }

  /** Between two quotes stands a literal that means `t`. */
  ghost predicate StringDenotes(c: bytes, o: nat, n: nat, t: bytes) {
    o + 2 <= n <= |c| && c[o] == 34 && Closed(c, o + 1, n - 1) && Decodes(c, o + 1, n - 1, t)
  }

  lemma {:induction false} ParseStringIff(c: bytes, o: nat, n: nat, t: bytes)
    requires Terminated(c) && o < |c|
    ensures ParseString(c, o) == Ok(t, n) <==> StringDenotes(c, o, n, t)
  {
    hide ClosingQuote, Unescape, Closed, Decodes;
    if c[o] == 34 && (ParseString(c, o) == Ok(t, n) || StringDenotes(c, o, n, t)) {
      ClosingQuoteIff(c, o + 1, n - 1);
      UnescapeIff(c, o + 1, n - 1, t);
    }
  }

  // ----- values

  /** From `o` to `n` stands `w`. */
  predicate Word(c: bytes, o: nat, n: nat, w: bytes) {
    o <= n <= |c| && c[o..n] == w
  }

  /** From `o` to `n` stands a text of `v`, inside `depth` containers. Bytes up to 32 are
      blank; numbers and literals end where they must. */
  ghost predicate Denotes(c: bytes, o: nat, n: nat, v: Json, depth: nat)
    decreases v, 2
  {
    match v
    case Null => Word(c, o, n, [110, 117, 108, 108])
    case Bool(b) => Word(c, o, n, if b then [116, 114, 117, 101] else [102, 97, 108, 115, 101])
    case Int(_) => NumberDenotes(c, o, n, v)
    case Float(_) => NumberDenotes(c, o, n, v)
    case Str(s) => StringDenotes(c, o, n, s)
    case Arr(items) =>
      && depth < 1000 && o + 2 <= n <= |c| && c[o] == 91
      && if items == [] then Blank(c, o + 1, n - 1) && c[n - 1] == 93 else ItemsDenote(c, o + 1, n, items, depth + 1)
    case Obj(members) =>
      && depth < 1000 && o + 2 <= n <= |c| && c[o] == 123
      && if members == [] then Blank(c, o + 1, n - 1) && c[n - 1] == 125
         else MembersDenote(c, o + 1, n, members, depth + 1)
  }

  /** The longest numeral at `o`, which begins with a digit or a minus. */
  ghost predicate NumberDenotes(c: bytes, o: nat, n: nat, v: Json) {
    && o < n <= |c| && (c[o] == 45 || 48 <= c[o] <= 57)
    && LongestNumeral(c, o, n - o) && v == NumberItem(c[o..n])
  }

  /** Items with blanks around them and commas between, and the closing bracket. */
  ghost predicate ItemsDenote(c: bytes, p: nat, n: nat, items: seq<Json>, depth: nat)
    requires items != []
    decreases items, 0
  {
    exists a: nat, b: nat, e: nat ::
      && Blank(c, p, a) && Denotes(c, a, b, items[0], depth) && Blank(c, b, e) && e < |c|
      && if |items| == 1 then c[e] == 93 && n == e + 1
         else c[e] == 44 && ItemsDenote(c, e + 1, n, items[1..], depth)
  }

  ghost predicate MemberDenotes(c: bytes, p: nat, n: nat, m: Member, depth: nat)
    decreases m, 0
  {
    exists a: nat, k: nat, e: nat, b: nat ::
      && Blank(c, p, a) && StringDenotes(c, a, k, m.key) && Blank(c, k, e) && e < |c| && c[e] == 58
      && Blank(c, e + 1, b) && Denotes(c, b, n, m.value, depth)
  }

  ghost predicate MembersDenote(c: bytes, p: nat, n: nat, members: seq<Member>, depth: nat)
    requires members != []
    decreases members, 0
  {
    exists b: nat, e: nat ::
      && MemberDenotes(c, p, b, members[0], depth) && Blank(c, b, e) && e < |c|
      && if |members| == 1 then c[e] == 125 && n == e + 1
         else c[e] == 44 && MembersDenote(c, e + 1, n, members[1..], depth)
  }

  // ----- blanks

  lemma SkipIsBlank(c: bytes, x: nat)
    requires x < |c|
    ensures Blank(c, x, SkipSpace(c, x))
    decreases |c| - x
  {
    VisibleIsBlank(c, x);
  }

  lemma VisibleIsBlank(c: bytes, x: nat)
    requires x <= |c|
    ensures Blank(c, x, Visible(c, x))
    decreases |c| - x
  {
    if x < |c| && c[x] <= 32 {
      VisibleIsBlank(c, x + 1);
    }
  }

  /** A text of a value begins with a visible byte that closes nothing. */
  lemma {:induction false} DenotesStarts(c: bytes, o: nat, n: nat, v: Json, depth: nat)
    requires Denotes(c, o, n, v, depth)
    ensures o < n <= |c| && c[o] > 32 && c[o] != 93 && c[o] != 125
  {
    hide LongestNumeral, NumberItem, ItemsDenote, MembersDenote, Closed, Decodes;
    if v.Null? || v.Bool? {
      assert c[o] == c[o..n][0];
    }
  }

  // ----- the parser accepts exactly this

  /** The kind of a value tells how it began. */
  lemma {:induction false} Kinds(c: bytes, o: nat, depth: nat)
    requires Terminated(c) && o < |c|
    ensures var r := ParseValue(c, o, depth);
            r.Ok? ==>
              && (r.value.Null? ==> HasWord(c, o, NULL_TEXT) && r.next == o + 4)
              && (r.value == Bool(true) ==> HasWord(c, o, TRUE_TEXT) && r.next == o + 4)
              && (r.value == Bool(false) ==> HasWord(c, o, FALSE_TEXT) && r.next == o + 5)
              && (r.value.Str? ==> c[o] == 34)
              && (r.value.Int? || r.value.Float? ==> c[o] == 45 || 48 <= c[o] <= 57)
              && (r.value.Arr? ==> c[o] == 91) && (r.value.Obj? ==> c[o] == 123)
    ensures c[o] == 45 || 48 <= c[o] <= 57 ==> ParseValue(c, o, depth) == ParseNumber(c, o)
  {
    hide HasWord, ParseString, ParseItems, ParseMembers, StrtodLength, NumberEnd, SkipSpace, IsIntLiteral, IntValue;
    WordStarts(c, o, NULL_TEXT);
    WordStarts(c, o, FALSE_TEXT);
    WordStarts(c, o, TRUE_TEXT);
  }

  lemma WordIff(c: bytes, o: nat, w: bytes)
    ensures HasWord(c, o, w) <==> Word(c, o, o + |w|, w)
  {
  }

  lemma WordIsOne(c: bytes, o: nat, n: nat, w: bytes)
    requires Word(c, o, n, w)
    ensures n == o + |w|
  {
  }

  lemma WordsIff(c: bytes, o: nat, n: nat, v: Json, depth: nat)
    requires Terminated(c) && o < |c| && (v.Null? || v.Bool?)
    ensures ParseValue(c, o, depth) == Ok(v, n) <==> Denotes(c, o, n, v, depth)
  {
    hide ParseValue, HasWord, Word;
    var w := if v.Null? then NULL_TEXT else if v.b then TRUE_TEXT else FALSE_TEXT;
    Kinds(c, o, depth);
    Dispatch(c, o, depth);
    WordIff(c, o, w);
    if Word(c, o, n, w) {
      WordIsOne(c, o, n, w);
    }
  }

  lemma {:induction false} LeafIff(c: bytes, o: nat, n: nat, v: Json, depth: nat)
    requires Terminated(c) && o < |c| && !v.Arr? && !v.Obj?
    ensures ParseValue(c, o, depth) == Ok(v, n) <==> Denotes(c, o, n, v, depth)
  {
    hide ParseValue, ParseString, ParseNumber, LongestNumeral, NumberItem, Closed, Decodes;
    if v.Null? || v.Bool? {
      WordsIff(c, o, n, v, depth);
    } else {
      Kinds(c, o, depth);
      Dispatch(c, o, depth);
      if v.Str? {
        ParseStringIff(c, o, n, v.s);
      } else {
        ParseNumberIff(c, o, v, n);
        NumberMoves(c, o, v, n);
      }
    }
  }

  lemma NumberMoves(c: bytes, o: nat, v: Json, n: nat)
    requires Terminated(c) && o < |c|
    ensures ParseNumber(c, o) == Ok(v, n) ==> o < n < |c|
  {
    hide StrtodLength, NumberItem, NumberEnd;
  }

  lemma {:induction false} ValueIff(c: bytes, o: nat, n: nat, v: Json, depth: nat)
    requires Terminated(c) && o < |c|
    ensures ParseValue(c, o, depth) == Ok(v, n) <==> Denotes(c, o, n, v, depth)
    decreases v, 3
  {
    hide ParseValue, ParseArray, ParseObject, ItemsDenote, MembersDenote, HasWord;
    match v
    case Arr(items) =>
      Kinds(c, o, depth);
      Dispatch(c, o, depth);
      if c[o] == 91 {
        ArrayIff(c, o, n, items, depth);
      }
    case Obj(members) =>
      Kinds(c, o, depth);
      Dispatch(c, o, depth);
      if c[o] == 123 {
        ObjectIff(c, o, n, members, depth);
      }
    case _ =>
      LeafIff(c, o, n, v, depth);
  }

  /** The closing bracket of an empty container is the first visible byte. */
  lemma EmptyIff(c: bytes, o: nat, n: nat, close: byte)
    requires Terminated(c) && o + 1 < |c| && close > 32
    ensures var p := SkipSpace(c, o + 1);
            c[p] == close && n == p + 1
            <==> o + 2 <= n <= |c| && Blank(c, o + 1, n - 1) && c[n - 1] == close
  {
    SkipIsBlank(c, o + 1);
    if o + 2 <= n <= |c| && Blank(c, o + 1, n - 1) && c[n - 1] == close {
      SkipsBlank(c, o + 1, n - 1);
    }
  }

  lemma {:induction false} ArrayIff(c: bytes, o: nat, n: nat, items: seq<Json>, depth: nat)
    requires Terminated(c) && o < |c| && c[o] == 91
    ensures ParseArray(c, o, depth) == Ok(Arr(items), n) <==> Denotes(c, o, n, Arr(items), depth)
    decreases items, 2
  {
    hide ParseItems, ItemsDenote, SkipSpace, Blank;
    var p := SkipSpace(c, o + 1);
    EmptyIff(c, o, n, 93);
    if items != [] {
      ItemsIff(c, p - 1, n, items, depth + 1);
      ItemsFrom(c, o + 1, n, items, depth + 1);
      ItemsInside(c, o + 1, n, items, depth + 1);
    }
  }

  lemma {:induction false} ItemsStepAt(c: bytes, q: nat, v: Json, b: nat, depth: nat)
    requires Terminated(c) && q + 1 < |c| && ParseValue(c, SkipSpace(c, q + 1), depth) == Ok(v, b) && b < |c|
    ensures var m := SkipSpace(c, b);
            && (c[m] == 44 ==> m + 1 < |c|)
            && ParseItems(c, q, depth)
               == if c[m] == 44 then
                    match ParseItems(c, m, depth) case Ok(vs, e) => Ok([v] + vs, e) case Fail(pos) => Fail(pos)
                  else if c[m] == 93 then Ok([v], m + 1) else Fail(m)
  {
    hide ParseValue, SkipSpace;
  }

  lemma {:induction false} ItemsIff(c: bytes, q: nat, n: nat, items: seq<Json>, depth: nat)
    requires Terminated(c) && q + 1 < |c| && items != []
    ensures ParseItems(c, q, depth) == Ok(items, n) <==> ItemsDenote(c, q + 1, n, items, depth)
    decreases items, 1
  {
    hide ParseValue, ParseItems, SkipSpace, Denotes, Blank, ItemsDenote;
    if ParseItems(c, q, depth) == Ok(items, n) {
      ItemsTaken(c, q, n, items, depth);
    }
    if ItemsDenote(c, q + 1, n, items, depth) {
      ItemsRead(c, q, n, items, depth);
    }
  }

  lemma {:induction false} ItemsTaken(c: bytes, q: nat, n: nat, items: seq<Json>, depth: nat)
    requires Terminated(c) && q + 1 < |c| && items != [] && ParseItems(c, q, depth) == Ok(items, n)
    ensures ItemsDenote(c, q + 1, n, items, depth)
    decreases items, 0
  {
    hide ParseValue, ParseItems, SkipSpace, Denotes, Blank;
    var a := SkipSpace(c, q + 1);
    FirstFails(c, q, depth);
    var (v, b) := (ParseValue(c, a, depth).value, ParseValue(c, a, depth).next);
    ValueMoves(c, a, depth);
    ItemsStepAt(c, q, v, b, depth);
    SkipIsBlank(c, q + 1);
    SkipIsBlank(c, b);
    ValueIff(c, a, b, items[0], depth);
    var m := SkipSpace(c, b);
    if c[m] == 44 {
      ItemsMove(c, m, depth);
      assert items[1..] == ParseItems(c, m, depth).value;
      ItemsIff(c, m, n, items[1..], depth);
    }
  }

  lemma {:induction false} ItemsRead(c: bytes, q: nat, n: nat, items: seq<Json>, depth: nat)
    requires Terminated(c) && q + 1 < |c| && items != [] && ItemsDenote(c, q + 1, n, items, depth)
    ensures ParseItems(c, q, depth) == Ok(items, n)
    decreases items, 0
  {
    hide ParseValue, ParseItems, SkipSpace, Denotes;
    var a: nat, b: nat, e: nat :|
      && Blank(c, q + 1, a) && Denotes(c, a, b, items[0], depth) && Blank(c, b, e) && e < |c|
      && if |items| == 1 then c[e] == 93 && n == e + 1
         else c[e] == 44 && ItemsDenote(c, e + 1, n, items[1..], depth);
    DenotesStarts(c, a, b, items[0], depth);
    SkipsBlank(c, q + 1, a);
    SkipsBlank(c, b, e);
    ValueIff(c, a, b, items[0], depth);
    ItemsStepAt(c, q, items[0], b, depth);
    if |items| > 1 {
      ItemsIff(c, e, n, items[1..], depth);
      assert items == [items[0]] + items[1..];
    } else {
      assert items == [items[0]];
    }
  }

  lemma {:induction false} ValueMoves(c: bytes, o: nat, depth: nat)
    requires Terminated(c) && o < |c|
    ensures ParseValue(c, o, depth).Ok? ==> o < ParseValue(c, o, depth).next < |c|
  {
  }

  lemma {:induction false} ItemsMove(c: bytes, q: nat, depth: nat)
    requires Terminated(c) && q + 1 < |c|
    ensures ParseItems(c, q, depth).Ok? ==> ParseItems(c, q, depth).value != []
    ensures ParseMembers(c, q, depth).Ok? ==> ParseMembers(c, q, depth).value != []
  {
  }

  /** Items may be looked for from their first visible byte. */
  lemma {:induction false} ItemsFrom(c: bytes, x: nat, n: nat, items: seq<Json>, depth: nat)
    requires x < |c| && items != []
    ensures ItemsDenote(c, x, n, items, depth) <==> ItemsDenote(c, SkipSpace(c, x), n, items, depth)
    ensures ItemsDenote(c, x, n, items, depth) ==> c[SkipSpace(c, x)] != 93
  {
    hide Denotes, SkipSpace;
    var p := SkipSpace(c, x);
    SkipIsBlank(c, x);
    if ItemsDenote(c, x, n, items, depth) {
      var a: nat, b: nat, e: nat :|
        && Blank(c, x, a) && Denotes(c, a, b, items[0], depth) && Blank(c, b, e) && e < |c|
        && if |items| == 1 then c[e] == 93 && n == e + 1
           else c[e] == 44 && ItemsDenote(c, e + 1, n, items[1..], depth);
      DenotesStarts(c, a, b, items[0], depth);
      SkipsBlank(c, x, a);
    }
  }

  lemma {:induction false} ItemsInside(c: bytes, x: nat, n: nat, items: seq<Json>, depth: nat)
    requires items != []
    ensures ItemsDenote(c, x, n, items, depth) ==> x < n <= |c|
    decreases items
  {
    hide Denotes;
    if ItemsDenote(c, x, n, items, depth) {
      var a: nat, b: nat, e: nat :|
        && Blank(c, x, a) && Denotes(c, a, b, items[0], depth) && Blank(c, b, e) && e < |c|
        && if |items| == 1 then c[e] == 93 && n == e + 1
           else c[e] == 44 && ItemsDenote(c, e + 1, n, items[1..], depth);
      DenotesStarts(c, a, b, items[0], depth);
      if |items| > 1 {
        ItemsInside(c, e + 1, n, items[1..], depth);
      }
    }
  }

  lemma {:induction false} ObjectIff(c: bytes, o: nat, n: nat, members: seq<Member>, depth: nat)
    requires Terminated(c) && o < |c| && c[o] == 123
    ensures ParseObject(c, o, depth) == Ok(Obj(members), n) <==> Denotes(c, o, n, Obj(members), depth)
    decreases members, 2
  {
    hide ParseMembers, MembersDenote, SkipSpace, Blank;
    var p := SkipSpace(c, o + 1);
    EmptyIff(c, o, n, 125);
    if members != [] {
      MembersIff(c, p - 1, n, members, depth + 1);
      MembersFrom(c, o + 1, n, members, depth + 1);
      MembersInside(c, o + 1, n, members, depth + 1);
    }
  }

  lemma {:induction false} MembersStepAt(c: bytes, q: nat, v: Member, b: nat, depth: nat)
    requires Terminated(c) && q + 1 < |c| && ParseMember(c, q, depth) == Ok(v, b) && b < |c|
    ensures var m := SkipSpace(c, b);
            && (c[m] == 44 ==> m + 1 < |c|)
            && ParseMembers(c, q, depth)
               == if c[m] == 44 then
                    match ParseMembers(c, m, depth) case Ok(vs, e) => Ok([v] + vs, e) case Fail(pos) => Fail(pos)
                  else if c[m] == 125 then Ok([v], m + 1) else Fail(m)
  {
    hide ParseMember, SkipSpace;
  }

  lemma {:induction false} MembersIff(c: bytes, q: nat, n: nat, members: seq<Member>, depth: nat)
    requires Terminated(c) && q + 1 < |c| && members != []
    ensures ParseMembers(c, q, depth) == Ok(members, n) <==> MembersDenote(c, q + 1, n, members, depth)
    decreases members, 1
  {
    hide ParseMembers, MembersDenote;
    if ParseMembers(c, q, depth) == Ok(members, n) {
      MembersTaken(c, q, n, members, depth);
    }
    if MembersDenote(c, q + 1, n, members, depth) {
      MembersRead(c, q, n, members, depth);
    }
  }

  lemma {:induction false} MembersTaken(c: bytes, q: nat, n: nat, members: seq<Member>, depth: nat)
    requires Terminated(c) && q + 1 < |c| && members != [] && ParseMembers(c, q, depth) == Ok(members, n)
    ensures MembersDenote(c, q + 1, n, members, depth)
    decreases members, 0
  {
    hide ParseMember, ParseMembers, SkipSpace, MemberDenotes, Blank;
    FirstFails(c, q, depth);
    var (v, b) := (ParseMember(c, q, depth).value, ParseMember(c, q, depth).next);
    MemberMoves(c, q, depth);
    MembersStepAt(c, q, v, b, depth);
    SkipIsBlank(c, b);
    MemberIff(c, q, b, members[0], depth);
    var m := SkipSpace(c, b);
    if c[m] == 44 {
      ItemsMove(c, m, depth);
      assert members[1..] == ParseMembers(c, m, depth).value;
      MembersIff(c, m, n, members[1..], depth);
    }
  }

  lemma {:induction false} MembersRead(c: bytes, q: nat, n: nat, members: seq<Member>, depth: nat)
    requires Terminated(c) && q + 1 < |c| && members != [] && MembersDenote(c, q + 1, n, members, depth)
    ensures ParseMembers(c, q, depth) == Ok(members, n)
    decreases members, 0
  {
    hide ParseMember, ParseMembers, SkipSpace, MemberDenotes;
    var b: nat, e: nat :|
      && MemberDenotes(c, q + 1, b, members[0], depth) && Blank(c, b, e) && e < |c|
      && if |members| == 1 then c[e] == 125 && n == e + 1
         else c[e] == 44 && MembersDenote(c, e + 1, n, members[1..], depth);
    SkipsBlank(c, b, e);
    MemberIff(c, q, b, members[0], depth);
    MembersStepAt(c, q, members[0], b, depth);
    if |members| > 1 {
      MembersIff(c, e, n, members[1..], depth);
      assert members == [members[0]] + members[1..];
    } else {
      assert members == [members[0]];
    }
  }

  lemma {:induction false} MemberMoves(c: bytes, q: nat, depth: nat)
    requires Terminated(c) && q + 1 < |c|
    ensures ParseMember(c, q, depth).Ok? ==> q < ParseMember(c, q, depth).next < |c|
  {
  }

  lemma {:induction false} MemberIff(c: bytes, q: nat, n: nat, m: Member, depth: nat)
    requires Terminated(c) && q + 1 < |c|
    ensures ParseMember(c, q, depth) == Ok(m, n) <==> MemberDenotes(c, q + 1, n, m, depth)
    decreases m, 1
  {
    hide ParseMember, MemberDenotes;
    if ParseMember(c, q, depth) == Ok(m, n) {
      MemberTaken(c, q, n, m, depth);
    }
    if MemberDenotes(c, q + 1, n, m, depth) {
      MemberRead(c, q, n, m, depth);
    }
  }

  lemma {:induction false} MemberTaken(c: bytes, q: nat, n: nat, m: Member, depth: nat)
    requires Terminated(c) && q + 1 < |c| && ParseMember(c, q, depth) == Ok(m, n)
    ensures MemberDenotes(c, q + 1, n, m, depth)
    decreases m, 0
  {
    hide ParseValue, ParseString, SkipSpace, StringDenotes, Denotes, Blank;
    var a := SkipSpace(c, q + 1);
    SkipIsBlank(c, q + 1);
    var k := ParseString(c, a).next;
    ParseStringIff(c, a, k, m.key);
    StringMoves(c, a);
    SkipIsBlank(c, k);
    var e := SkipSpace(c, k);
    NotLast(c, e, 58);
    SkipIsBlank(c, e + 1);
    ValueIff(c, SkipSpace(c, e + 1), n, m.value, depth);
  }

  lemma StringMoves(c: bytes, o: nat)
    requires Terminated(c) && o < |c|
    ensures ParseString(c, o).Ok? ==> o + 1 < ParseString(c, o).next < |c|
  {
  }

  lemma NotLast(c: bytes, e: nat, b: byte)
    requires Terminated(c) && e < |c| && c[e] == b > 0
    ensures e + 1 < |c|
  {
  }

  lemma {:induction false} MemberRead(c: bytes, q: nat, n: nat, m: Member, depth: nat)
    requires Terminated(c) && q + 1 < |c| && MemberDenotes(c, q + 1, n, m, depth)
    ensures ParseMember(c, q, depth) == Ok(m, n)
    decreases m, 0
  {
    hide ParseMember, ParseValue, ParseString, SkipSpace, StringDenotes, Denotes, Blank;
    var a: nat, k: nat, e: nat, b: nat :|
      && Blank(c, q + 1, a) && StringDenotes(c, a, k, m.key) && Blank(c, k, e) && e < |c| && c[e] == 58
      && Blank(c, e + 1, b) && Denotes(c, b, n, m.value, depth);
    StringStarts(c, a, k, m.key);
    SkipsBlank(c, q + 1, a);
    ParseStringIff(c, a, k, m.key);
    SkipsBlank(c, k, e);
    DenotesStarts(c, b, n, m.value, depth);
    SkipsBlank(c, e + 1, b);
    ValueIff(c, b, n, m.value, depth);
    MemberIs(c, q, a, k, e, b, m.key, depth);
  }

  lemma {:induction false} MemberIs(c: bytes, q: nat, a: nat, k: nat, e: nat, b: nat, key: bytes, depth: nat)
    requires Terminated(c) && q + 1 < |c| && a < |c| && k < |c| && e + 1 < |c| && b < |c| && c[e] == 58
    requires SkipSpace(c, q + 1) == a && ParseString(c, a) == Ok(key, k) && SkipSpace(c, k) == e
    requires SkipSpace(c, e + 1) == b
    ensures ParseMember(c, q, depth)
         == match ParseValue(c, b, depth) case Ok(v, end) => Ok(Member(key, v), end) case Fail(pos) => Fail(pos)
  {
    hide ParseValue, ParseString, SkipSpace;
  }

  lemma StringStarts(c: bytes, o: nat, n: nat, t: bytes)
    requires StringDenotes(c, o, n, t)
    ensures o + 2 <= n <= |c| && c[o] == 34
  {
  }

  lemma {:induction false} MembersFrom(c: bytes, x: nat, n: nat, members: seq<Member>, depth: nat)
    requires x < |c| && members != []
    ensures MembersDenote(c, x, n, members, depth) <==> MembersDenote(c, SkipSpace(c, x), n, members, depth)
    ensures MembersDenote(c, x, n, members, depth) ==> c[SkipSpace(c, x)] != 125
  {
    hide MemberDenotes, SkipSpace;
    MemberFrom(c, x, members[0], depth);
  }

  lemma {:induction false} MemberFrom(c: bytes, x: nat, m: Member, depth: nat)
    requires x < |c|
    ensures forall n: nat :: MemberDenotes(c, x, n, m, depth) <==> MemberDenotes(c, SkipSpace(c, x), n, m, depth)
    ensures forall n: nat :: MemberDenotes(c, x, n, m, depth) ==> c[SkipSpace(c, x)] == 34
  {
    hide Denotes, SkipSpace, StringDenotes;
    var p := SkipSpace(c, x);
    SkipIsBlank(c, x);
    forall n: nat | MemberDenotes(c, x, n, m, depth) ensures MemberDenotes(c, p, n, m, depth) && c[p] == 34 {
      var a: nat, k: nat, e: nat, b: nat :|
        && Blank(c, x, a) && StringDenotes(c, a, k, m.key) && Blank(c, k, e) && e < |c| && c[e] == 58
        && Blank(c, e + 1, b) && Denotes(c, b, n, m.value, depth);
      StringStarts(c, a, k, m.key);
      SkipsBlank(c, x, a);
    }
  }

  lemma {:induction false} MembersInside(c: bytes, x: nat, n: nat, members: seq<Member>, depth: nat)
    requires members != []
    ensures MembersDenote(c, x, n, members, depth) ==> x < n <= |c|
    decreases members
  {
    hide MemberDenotes;
    if MembersDenote(c, x, n, members, depth) {
      var b: nat, e: nat :|
        && MemberDenotes(c, x, b, members[0], depth) && Blank(c, b, e) && e < |c|
        && if |members| == 1 then c[e] == 125 && n == e + 1
           else c[e] == 44 && MembersDenote(c, e + 1, n, members[1..], depth);
      MemberInside(c, x, b, members[0], depth);
      if |members| > 1 {
        MembersInside(c, e + 1, n, members[1..], depth);
      }
    }
  }

  lemma {:induction false} MemberInside(c: bytes, x: nat, n: nat, m: Member, depth: nat)
    requires MemberDenotes(c, x, n, m, depth)
    ensures x < n <= |c|
  {
    hide Denotes, StringDenotes;
    var a: nat, k: nat, e: nat, b: nat :|
      && Blank(c, x, a) && StringDenotes(c, a, k, m.key) && Blank(c, k, e) && e < |c| && c[e] == 58
      && Blank(c, e + 1, b) && Denotes(c, b, n, m.value, depth);
    StringStarts(c, a, k, m.key);
    DenotesStarts(c, b, n, m.value, depth);
  }

  // ----- whole texts

  /** Where the text proper begins: behind a byte order mark, if two bytes or more follow it. */
  function Start(s: bytes): nat {
    if |s| >= 4 && s[0] == 0xEF && s[1] == 0xBB && s[2] == 0xBF then 3 else 0
  }

  /** A text is accepted, with this value and this end, if and only if it begins, blanks
      aside, with a text of that value. */
  lemma {:induction false} ParseIff(s: bytes, v: Json, n: nat)
    ensures Parse(s) == Ok(v, n) <==> exists a: nat :: Blank(s + [0], Start(s), a) && Denotes(s + [0], a, n, v, 0)
  {
    hide ParseValue, Denotes, SkipSpace;
    var c := s + [0];
    BomIff(s);
    SkipIsBlank(c, Start(s));
    ValueIff(c, SkipSpace(c, Start(s)), n, v, 0);
    if exists a: nat :: Blank(c, Start(s), a) && Denotes(c, a, n, v, 0) {
      var a: nat :| Blank(c, Start(s), a) && Denotes(c, a, n, v, 0);
      DenotesStarts(c, a, n, v, 0);
      SkipsBlank(c, Start(s), a);
    }
  }

  lemma BomIff(s: bytes)
    ensures BomEnd(s + [0]) == Start(s) < |s + [0]|
  {
    var c := s + [0];
    if |c| > 4 {
      assert c[..3] == [s[0], s[1], s[2]];
    }
  }
}
