/**
 Parsing undoes printing: the text of every printable item whose containers nest
 at most 1000 deep is parsed back to that item and consumed whole, formatted or
 not; deeper items are refused
 (FederatedLearningServer/src/cJSON.c:1311-1825).
 */
module JsonRoundTrip {
  import opened Bytes
  import opened JsonText
  import opened JsonGrammar
  import opened JsonStrings
  import opened JsonNumbers

  // ----- white space

  ghost predicate Blank(c: bytes, a: nat, b: nat) {
    a <= b <= |c| && forall k :: a <= k < b ==> c[k] <= 32
  }

  ghost predicate AllBlank(t: bytes) {
    forall i :: 0 <= i < |t| ==> t[i] <= 32
  }

  lemma VisibleAt(c: bytes, a: nat, b: nat)
    requires Blank(c, a, b) && b < |c| && c[b] > 32
    ensures Visible(c, a) == b
    decreases b - a
  {
  }

  lemma SkipsBlank(c: bytes, a: nat, b: nat)
    requires Blank(c, a, b) && b < |c| && c[b] > 32
    ensures SkipSpace(c, a) == b
  {
    VisibleAt(c, a, b);
  }

  lemma BlankAt(c: bytes, o: nat, t: bytes)
    requires At(c, o, t) && AllBlank(t)
    ensures Blank(c, o, o + |t|)
  {
    forall k | o <= k < o + |t| ensures c[k] <= 32 {
      AtIndex(c, o, t, k - o);
    }
  }

  // ----- numbers

  lemma NumberRunEnds(c: bytes, o: nat, end: nat, room: nat)
    requires o <= end < |c| && end - o <= room
    requires (forall k :: o <= k < end ==> IsNumberByte(c[k])) && !IsNumberByte(c[end])
    ensures NumberEnd(c, o, room) == end
    decreases room
  {
  }

  lemma {:induction false} NumberParsesBack(c: bytes, o: nat, n: Numeral, depth: nat)
    requires Terminated(c) && IsNumeral(n) && At(c, o, Spelling(n)) && |Spelling(n)| <= 63
    requires Spelling(n) != [] && (Spelling(n)[0] == MINUS || IsDigit(Spelling(n)[0]))
    requires o + |Spelling(n)| < |c| && !IsNumberByte(c[o + |Spelling(n)|])
    ensures ParseValue(c, o, depth) == Ok(NumberItem(Spelling(n)), o + |Spelling(n)|)
  {
    hide ParseNumber, ParseString, ParseArray, ParseObject, NumberItem, HasWord, At, IsNumeral, Spelling;
    AtIndex(c, o, Spelling(n), 0);
    NumeralIsRead(c, o, n);
    NoWordAt(c, o);
  }

  /** A position whose byte is not a lower-case letter starts none of the three words. */
  lemma NoWordAt(c: bytes, o: nat)
    requires o < |c| && (c[o] < 97 || c[o] > 122)
    ensures !HasWord(c, o, NULL_TEXT) && !HasWord(c, o, FALSE_TEXT) && !HasWord(c, o, TRUE_TEXT)
  {
    WordStarts(c, o, NULL_TEXT);
    WordStarts(c, o, FALSE_TEXT);
    WordStarts(c, o, TRUE_TEXT);
  }

  lemma WordStarts(c: bytes, o: nat, w: bytes)
    requires o < |c| && w != []
    ensures HasWord(c, o, w) ==> c[o] == w[0]
  {
    if HasWord(c, o, w) {
      assert c[o..o + |w|][0] == c[o];
    }
  }

  // ----- first bytes

  lemma TextStarts(v: Json, fmt: bool, d: nat)
    requires Printable(v)
    ensures |Text(v, fmt, d)| > 0 && Text(v, fmt, d)[0] > 32 && Text(v, fmt, d)[0] != RBRACKET
  {
    match v
    case Int(n) => IntTextReadsBack(n);
    case _ =>
  }

  // ----- where the pieces of a text lie

  /** `t`, a separator whose later bytes are blank, and what follows. */
  lemma PiecesOfItem(c: bytes, r: nat, t: bytes, sep: bytes, rest: bytes)
    requires At(c, r, t + (sep + rest)) && t != [] && sep != []
    requires forall i :: 1 <= i < |sep| ==> sep[i] <= 32
    ensures At(c, r, t) && c[r] == t[0] && r + |t| < |c| && c[r + |t|] == sep[0]
    ensures Blank(c, r + |t| + 1, r + |t| + |sep|) && At(c, r + |t| + |sep|, rest)
  {
    AtSplit(c, r, t, sep + rest);
    AtSplit(c, r + |t|, sep, rest);
    AtIndex(c, r, t, 0);
    forall k | 0 <= k < |sep| ensures c[r + |t| + k] == sep[k] {
      AtIndex(c, r + |t|, sep, k);
    }
    var m := r + |t|;
    forall k | m + 1 <= k < m + |sep| ensures c[k] <= 32 {
      assert c[m + (k - m)] == sep[k - m];
    }
  }

  /** Blanks, a key, a separator, a value and what follows. */
  lemma PiecesOfMember(c: bytes, r: nat, indent: bytes, key: bytes, sep: bytes, t: bytes, after: bytes)
    requires At(c, r, indent + key + sep + t + after) && key != [] && sep != [] && t != []
    requires AllBlank(indent)
    requires forall i :: 1 <= i < |sep| ==> sep[i] <= 32
    ensures var k := r + |indent|; var n := k + |key|; var s := n + |sep|; var e := s + |t|;
            && e <= |c| && Blank(c, r, k) && c[k] == key[0] && At(c, k, key)
            && c[n] == sep[0] && Blank(c, n + 1, s) && c[s] == t[0] && At(c, s, t) && At(c, e, after)
  {
    AtSplit5(c, r, indent, key, sep, t, after);
    BlankAt(c, r, indent);
    AtIndex(c, r + |indent|, key, 0);
    AtJoin(c, r + |indent| + |key| + |sep|, t, after);
    AtJoin(c, r + |indent| + |key|, sep, t + after);
    AtJoin(c, r + |indent|, key, sep + (t + after));
    PiecesOfItem(c, r + |indent|, key, sep, t + after);
    AtIndex(c, r + |indent| + |key| + |sep|, t, 0);
  }

  /** Blanks, then a closing bracket. */
  lemma PiecesOfEnd(c: bytes, r: nat, blank: bytes, close: byte)
    requires At(c, r, blank + [close]) && AllBlank(blank)
    ensures Blank(c, r, r + |blank|) && r + |blank| < |c| && c[r + |blank|] == close
  {
    AtSplit(c, r, blank, [close]);
    BlankAt(c, r, blank);
    AtIndex(c, r + |blank|, [close], 0);
  }

  /** What follows the first item of an array, up to the items after it. */
  function ItemEnd(items: seq<Json>, fmt: bool): bytes {
    if |items| == 1 then [RBRACKET] else Comma(fmt)
  }

  function LaterItems(items: seq<Json>, fmt: bool, d: nat): bytes
    requires items != []
  {
    if |items| == 1 then [] else ItemsText(items[1..], fmt, d) + [RBRACKET]
  }

  lemma {:induction false} ItemsTextParts(items: seq<Json>, fmt: bool, d: nat)
    requires items != []
    ensures ItemsText(items, fmt, d) + [RBRACKET]
         == Text(items[0], fmt, d) + (ItemEnd(items, fmt) + LaterItems(items, fmt, d))
  {
  }

  /** What follows the value of the first member. */
  function AfterMember(members: seq<Member>, fmt: bool, d: nat, tail: bytes): bytes
    requires members != []
  {
    MemberEnd(fmt, |members| > 1) + (MembersText(members[1..], fmt, d) + tail)
  }

  lemma {:induction false} MembersTextParts(members: seq<Member>, fmt: bool, d: nat, tail: bytes)
    requires members != []
    ensures var m := members[0];
            MembersText(members, fmt, d) + tail
            == Indent(fmt, d) + Quoted(m.key) + Colon(fmt) + Text(m.value, fmt, d) + AfterMember(members, fmt, d, tail)
  {
    var m := members[0];
    var a := Indent(fmt, d) + Quoted(m.key) + Colon(fmt) + Text(m.value, fmt, d);
    assert MemberText(m, |members| > 1, fmt, d) == a + MemberEnd(fmt, |members| > 1);
    Reassociate(a, MemberEnd(fmt, |members| > 1), MembersText(members[1..], fmt, d), tail);
  }

  lemma Reassociate(a: bytes, b: bytes, d: bytes, e: bytes)
    ensures a + b + d + e == a + (b + (d + e))
  {
  }

  lemma {:induction false} ObjectTextParts(members: seq<Member>, fmt: bool, d: nat)
    ensures |Text(Obj(members), fmt, d)|
         == 2 + |Break(fmt)| + |MembersText(members, fmt, d + 1)| + |Indent(fmt, d)|
    ensures Text(Obj(members), fmt, d)
         == [LBRACE] + (Break(fmt) + (MembersText(members, fmt, d + 1) + (Indent(fmt, d) + [RBRACE])))
  {
    hide MembersText, Indent;
  }

  // ----- one step of each parsing loop

  lemma {:induction false} ItemsStep(c: bytes, q: nat, v: Json, next: nat, depth: nat)
    requires Terminated(c) && q + 1 < |c|
    requires ParseValue(c, SkipSpace(c, q + 1), depth) == Ok(v, next) && next < |c|
    requires SkipSpace(c, next) == next && next + 1 < |c|
    ensures c[next] == RBRACKET ==> ParseItems(c, q, depth) == Ok([v], next + 1)
    ensures c[next] == COMMA ==>
              ParseItems(c, q, depth)
              == match ParseItems(c, next, depth) case Ok(vs, e) => Ok([v] + vs, e) case Fail(pos) => Fail(pos)
  {
    hide ParseValue, SkipSpace;
  }

  lemma {:induction false} FirstFails(c: bytes, q: nat, depth: nat)
    requires Terminated(c) && q + 1 < |c|
    ensures ParseValue(c, SkipSpace(c, q + 1), depth).Fail? ==> ParseItems(c, q, depth).Fail?
    ensures ParseMember(c, q, depth).Fail? ==> ParseMembers(c, q, depth).Fail?
  {
  }

  lemma {:induction false} MemberStep(c: bytes, q: nat, r: nat, indent: bytes, key: bytes, keyText: bytes, sep: bytes,
                                      t: bytes, after: bytes, depth: nat)
    requires Terminated(c) && q + 1 <= r + |indent| <= |c| && Blank(c, q + 1, r + |indent|)
    requires At(c, r, indent + keyText + sep + t + after)
    requires keyText != [] && keyText[0] == QUOTE && sep != [] && sep[0] == COLON && t != [] && t[0] > 32
    requires AllBlank(indent)
    requires forall i :: 1 <= i < |sep| ==> sep[i] <= 32
    requires r + |indent| < |c| && ParseString(c, r + |indent|) == Ok(key, r + |indent| + |keyText|)
    ensures var s := r + |indent| + |keyText| + |sep|;
            s < |c| && q + 1 < |c|
            && ParseMember(c, q, depth)
               == match ParseValue(c, s, depth) case Ok(v, e) => Ok(Member(key, v), e) case Fail(pos) => Fail(pos)
  {
    hide ParseMember, ParseValue, ParseString, SkipSpace;
    PiecesOfMember(c, r, indent, keyText, sep, t, after);
    var k := r + |indent|;
    var n := k + |keyText|;
    SkipsBlank(c, q + 1, k);
    SkipsBlank(c, n, n);
    SkipsBlank(c, n + 1, n + |sep|);
    MemberStepAt(c, q, n, n + |sep|, key, depth);
  }

  lemma {:induction false} MemberStepAt(c: bytes, q: nat, n: nat, s: nat, key: bytes, depth: nat)
    requires Terminated(c) && q + 1 < |c|
    requires ParseString(c, SkipSpace(c, q + 1)) == Ok(key, n)
    requires n < s < |c| && c[n] == COLON && SkipSpace(c, n) == n && SkipSpace(c, n + 1) == s
    ensures ParseMember(c, q, depth)
         == match ParseValue(c, s, depth) case Ok(v, e) => Ok(Member(key, v), e) case Fail(pos) => Fail(pos)
  {
    hide ParseValue, ParseString, SkipSpace;
  }

  lemma {:induction false} MembersStep(c: bytes, q: nat, m: Member, next: nat, z: nat, depth: nat)
    requires Terminated(c) && q + 1 < |c|
    requires ParseMember(c, q, depth) == Ok(m, next) && next < |c|
    requires SkipSpace(c, next) == z && z + 1 < |c|
    ensures c[z] == RBRACE ==> ParseMembers(c, q, depth) == Ok([m], z + 1)
    ensures c[z] == COMMA ==>
              ParseMembers(c, q, depth)
              == match ParseMembers(c, z, depth) case Ok(ms, e) => Ok([m] + ms, e) case Fail(pos) => Fail(pos)
  {
    hide ParseMember, SkipSpace;
  }

  // ----- the induction over items

  /** What the parser makes of the text of `v` that ends at `end`. */
  ghost predicate Reads<T>(r: Outcome<T>, v: T, end: nat, fits: bool) {
    if fits then r == Ok(v, end) else r.Fail?
  }

  lemma {:induction false} ValueParsesBack(c: bytes, o: nat, v: Json, fmt: bool, d: nat, depth: nat)
    requires Terminated(c) && Printable(v) && At(c, o, Text(v, fmt, d))
    requires o + |Text(v, fmt, d)| < |c| && !IsNumberByte(c[o + |Text(v, fmt, d)|])
    requires depth <= NESTING_LIMIT
    ensures o < |c|
    ensures Reads(ParseValue(c, o, depth), v, o + |Text(v, fmt, d)|, depth + Depth(v) <= NESTING_LIMIT)
    decreases v, 3
  {
    hide ParseValue, ParseArray, ParseObject, Escaped, StrtodLength, DepthOfItems, DepthOfMembers, Text;
    match v
    case Arr(items) =>
      ContainerStarts(c, o, v, fmt, d);
      Dispatch(c, o, depth);
      ArrayParsesBack(c, o, items, fmt, d, depth);
    case Obj(members) =>
      ContainerStarts(c, o, v, fmt, d);
      Dispatch(c, o, depth);
      ObjectParsesBack(c, o, members, fmt, d, depth);
    case _ => LeafParsesBack(c, o, v, fmt, d, depth);
  }

  lemma {:induction false} ContainerStarts(c: bytes, o: nat, v: Json, fmt: bool, d: nat)
    requires (v.Arr? || v.Obj?) && At(c, o, Text(v, fmt, d))
    ensures o < |c| && c[o] == if v.Arr? then LBRACKET else LBRACE
  {
    AtIndex(c, o, Text(v, fmt, d), 0);
  }

  lemma {:induction false} LeafParsesBack(c: bytes, o: nat, v: Json, fmt: bool, d: nat, depth: nat)
    requires Terminated(c) && Printable(v) && At(c, o, Text(v, fmt, d)) && !v.Arr? && !v.Obj?
    requires o + |Text(v, fmt, d)| < |c| && !IsNumberByte(c[o + |Text(v, fmt, d)|])
    ensures o < |c| && ParseValue(c, o, depth) == Ok(v, o + |Text(v, fmt, d)|)
  {
    hide ParseValue, ParseString, Quoted, StrtodLength, IntText, NumberItem, HasWord, At;
    match v
    case Int(n) => IntParsesBack(c, o, n, depth);
    case Float(t) => FloatParsesBack(c, o, t, depth);
    case Str(s) => StringParsesBack(c, o, s, depth);
    case _ => WordParsesBack(c, o, v, fmt, d, depth);
  }

  lemma {:induction false} WordParsesBack(c: bytes, o: nat, v: Json, fmt: bool, d: nat, depth: nat)
    requires Terminated(c) && (v.Null? || v.Bool?) && At(c, o, Text(v, fmt, d))
    ensures o < |c| && ParseValue(c, o, depth) == Ok(v, o + |Text(v, fmt, d)|)
  {
    hide ParseValue;
    AtIndex(c, o, Text(v, fmt, d), 0);
    AtSlice(c, o, Text(v, fmt, d));
    Dispatch(c, o, depth);
  }

  lemma {:induction false} StringParsesBack(c: bytes, o: nat, s: bytes, depth: nat)
    requires Terminated(c) && At(c, o, Quoted(s))
    ensures o < |c| && ParseValue(c, o, depth) == Ok(Str(s), o + |Quoted(s)|)
  {
    hide ParseValue, ParseString, Escaped, HasWord;
    AtIndex(c, o, Quoted(s), 0);
    QuotedParsesBack(c, o, s);
    Dispatch(c, o, depth);
  }

  lemma IntParsesBack(c: bytes, o: nat, n: int, depth: nat)
    requires Terminated(c) && INT_MIN <= n <= INT_MAX && At(c, o, IntText(n))
    requires o + |IntText(n)| < |c| && !IsNumberByte(c[o + |IntText(n)|])
    ensures ParseValue(c, o, depth) == Ok(Int(n), o + |IntText(n)|)
  {
    hide ParseValue, DecText, At, IntValue, Spelling;
    IntTextReadsBack(n);
    IntTextLength(n);
    IntTextIsNumeral(n);
    NumberParsesBack(c, o, IntNumeral(n), depth);
  }

  lemma FloatParsesBack(c: bytes, o: nat, t: bytes, depth: nat)
    requires Terminated(c) && FloatLiteral(t) && At(c, o, t) && o + |t| < |c| && !IsNumberByte(c[o + |t|])
    ensures ParseValue(c, o, depth) == Ok(Float(t), o + |t|)
  {
    hide ParseValue, At, NumberItem, IsNumeral, Spelling;
    var n :| IsNumeral(n) && Spelling(n) == t;
    NumberParsesBack(c, o, n, depth);
  }

  /** The first byte, or word, decides how a value is parsed. */
  lemma {:induction false} Dispatch(c: bytes, o: nat, depth: nat)
    requires Terminated(c) && o < |c|
    ensures HasWord(c, o, NULL_TEXT) ==> ParseValue(c, o, depth) == Ok(Null, o + 4)
    ensures HasWord(c, o, TRUE_TEXT) ==> ParseValue(c, o, depth) == Ok(Bool(true), o + 4)
    ensures HasWord(c, o, FALSE_TEXT) ==> ParseValue(c, o, depth) == Ok(Bool(false), o + 5)
    ensures c[o] == QUOTE ==>
              ParseValue(c, o, depth)
              == match ParseString(c, o) case Ok(s, next) => Ok(Str(s), next) case Fail(pos) => Fail(pos)
    ensures c[o] == LBRACKET ==> ParseValue(c, o, depth) == ParseArray(c, o, depth)
    ensures c[o] == LBRACE ==> ParseValue(c, o, depth) == ParseObject(c, o, depth)
  {
    WordStarts(c, o, NULL_TEXT);
    WordStarts(c, o, FALSE_TEXT);
    WordStarts(c, o, TRUE_TEXT);
  }

  lemma {:induction false} ArrayParsesBack(c: bytes, o: nat, items: seq<Json>, fmt: bool, d: nat, depth: nat)
    requires Terminated(c) && Printable(Arr(items)) && At(c, o, Text(Arr(items), fmt, d))
    requires o < |c| && c[o] == LBRACKET && depth <= NESTING_LIMIT
    ensures Reads(ParseArray(c, o, depth), Arr(items), o + |Text(Arr(items), fmt, d)|,
                  depth + 1 + DepthOfItems(items) <= NESTING_LIMIT)
    decreases items, 2
  {
    hide ParseItems, ParseValue, SkipSpace, Visible, At, Depth;
    var inner := ItemsText(items, fmt, d + 1) + [RBRACKET];
    assert Text(Arr(items), fmt, d) == [LBRACKET] + inner;
    AtFirst(c, o, LBRACKET, inner);
    AtIndex(c, o + 1, inner, 0);
    if items != [] {
      TextStarts(items[0], fmt, d + 1);
    }
    SkipsBlank(c, o + 1, o + 1);
    if items != [] && depth < NESTING_LIMIT {
      ItemsParseBack(c, o, o + 1, items, fmt, d + 1, depth + 1);
    }
  }

  lemma {:induction false} ItemsParseBack(c: bytes, q: nat, r: nat, items: seq<Json>, fmt: bool, d: nat, depth: nat)
    requires Terminated(c) && items != [] && (forall i :: 0 <= i < |items| ==> Printable(items[i]))
    requires q + 1 <= r && Blank(c, q + 1, r) && At(c, r, ItemsText(items, fmt, d) + [RBRACKET])
    requires depth <= NESTING_LIMIT
    ensures q + 1 < |c|
    ensures Reads(ParseItems(c, q, depth), items, r + |ItemsText(items, fmt, d)| + 1,
                  depth + DepthOfItems(items) <= NESTING_LIMIT)
    decreases items, 0
  {
    hide ParseItems, ParseValue, Text, SkipSpace, Printable, Depth, At, Reads;
    var t := Text(items[0], fmt, d);
    var m := r + |t|;
    var fits := depth + Depth(items[0]) <= NESTING_LIMIT;
    ItemsLayout(c, r, items, fmt, d);
    SkipsBlank(c, q + 1, r);
    SkipsBlank(c, m, m);
    ValueParsesBack(c, r, items[0], fmt, d, depth);
    if |items| > 1 {
      ItemsParseBack(c, m, m + |Comma(fmt)|, items[1..], fmt, d, depth);
      ReadsMoreItems(c, q, items, m, m + |Comma(fmt)| + |ItemsText(items[1..], fmt, d)| + 1, fits,
                     depth + DepthOfItems(items[1..]) <= NESTING_LIMIT, depth);
    } else {
      ReadsLastItem(c, q, items, m, fits, depth);
    }
  }

  lemma {:induction false} ItemsLayout(c: bytes, r: nat, items: seq<Json>, fmt: bool, d: nat)
    requires items != [] && Printable(items[0]) && At(c, r, ItemsText(items, fmt, d) + [RBRACKET])
    ensures var t := Text(items[0], fmt, d);
            var m := r + |t|;
            && At(c, r, t) && r < m < |c| && c[r] > 32
            && (|items| == 1 ==> c[m] == RBRACKET)
            && (|items| > 1 ==> c[m] == COMMA && m + |Comma(fmt)| <= |c| && Blank(c, m + 1, m + |Comma(fmt)|)
                                && At(c, m + |Comma(fmt)|, ItemsText(items[1..], fmt, d) + [RBRACKET]))
  {
    hide At, Text, ItemsText, Printable;
    TextStarts(items[0], fmt, d);
    ItemsTextParts(items, fmt, d);
    PiecesOfItem(c, r, Text(items[0], fmt, d), ItemEnd(items, fmt), LaterItems(items, fmt, d));
  }

  lemma {:induction false} ReadsMoreItems(c: bytes, q: nat, items: seq<Json>, m: nat, end: nat, first: bool,
                                          rest: bool, depth: nat)
    requires Terminated(c) && q + 1 < |c| && |items| > 1 && m + 1 < |c| && c[m] == COMMA && SkipSpace(c, m) == m
    requires Reads(ParseValue(c, SkipSpace(c, q + 1), depth), items[0], m, first)
    requires Reads(ParseItems(c, m, depth), items[1..], end, rest)
    ensures Reads(ParseItems(c, q, depth), items, end, first && rest)
  {
    hide ParseValue, ParseItems, SkipSpace;
    FirstFails(c, q, depth);
    if first {
      ItemsStep(c, q, items[0], m, depth);
      assert items == [items[0]] + items[1..];
    }
  }

  lemma {:induction false} ReadsLastItem(c: bytes, q: nat, items: seq<Json>, m: nat, first: bool, depth: nat)
    requires Terminated(c) && q + 1 < |c| && |items| == 1 && m + 1 < |c| && c[m] == RBRACKET && SkipSpace(c, m) == m
    requires Reads(ParseValue(c, SkipSpace(c, q + 1), depth), items[0], m, first)
    ensures Reads(ParseItems(c, q, depth), items, m + 1, first)
  {
    hide ParseValue, ParseItems, SkipSpace;
    FirstFails(c, q, depth);
    if first {
      ItemsStep(c, q, items[0], m, depth);
      assert items == [items[0]];
    }
  }

  lemma {:induction false} ObjectParsesBack(c: bytes, o: nat, members: seq<Member>, fmt: bool, d: nat, depth: nat)
    requires Terminated(c) && Printable(Obj(members)) && At(c, o, Text(Obj(members), fmt, d))
    requires o < |c| && c[o] == LBRACE && depth <= NESTING_LIMIT
    ensures Reads(ParseObject(c, o, depth), Obj(members), o + |Text(Obj(members), fmt, d)|,
                  depth + 1 + DepthOfMembers(members) <= NESTING_LIMIT)
    decreases members, 2
  {
    hide ParseObject, ParseMembers, ParseMember, ParseValue, SkipSpace, At, Text, MembersText, Depth, Quoted, Escaped;
    var tail := Indent(fmt, d) + [RBRACE];
    var r := o + 1 + |Break(fmt)|;
    ObjectLayout(c, o, members, fmt, d);
    if members == [] {
      SkipsBlank(c, o + 1, r + |Indent(fmt, d)|);
      ObjectStep(c, o, r + |Indent(fmt, d)|, depth);
    } else {
      var k := r + |Indent(fmt, d + 1)|;
      MembersStart(c, r, members, fmt, d + 1, tail);
      SkipsBlank(c, o + 1, k);
      ObjectStep(c, o, k, depth);
      if depth < NESTING_LIMIT {
        MembersParseBack(c, k - 1, r, members, fmt, d + 1, tail, depth + 1);
      }
    }
  }

  lemma {:induction false} ObjectLayout(c: bytes, o: nat, members: seq<Member>, fmt: bool, d: nat)
    requires At(c, o, Text(Obj(members), fmt, d))
    ensures var r := o + 1 + |Break(fmt)|;
            var z := r + |Indent(fmt, d)|;
            var t := MembersText(members, fmt, d + 1);
            && r <= |c| && Blank(c, o + 1, r) && At(c, r, t + (Indent(fmt, d) + [RBRACE]))
            && |Text(Obj(members), fmt, d)| == z - o + |t| + 1
            && (members == [] ==> t == [] && Blank(c, o + 1, z) && z < |c| && c[z] == RBRACE)
  {
    hide At, Escaped, Quoted, Text, Blank, MembersText, Break, Indent, AllBlank;
    BlankParts(fmt, d);
    ObjectTextParts(members, fmt, d);
    LayoutOfObject(c, o, Break(fmt), MembersText(members, fmt, d + 1), Indent(fmt, d));
    if members == [] {
      NoMembersText(fmt, d + 1);
      BlanksJoin(c, o + 1, o + 1 + |Break(fmt)|, o + 1 + |Break(fmt)| + |Indent(fmt, d)|);
    }
  }

  lemma BlankParts(fmt: bool, d: nat)
    ensures AllBlank(Break(fmt)) && AllBlank(Indent(fmt, d))
  {
  }

  lemma NoMembersText(fmt: bool, d: nat)
    ensures MembersText([], fmt, d) == []
  {
  }

  lemma BlanksJoin(c: bytes, a: nat, b: nat, e: nat)
    requires Blank(c, a, b) && Blank(c, b, e)
    ensures Blank(c, a, e)
  {
  }

  lemma LayoutOfObject(c: bytes, o: nat, brk: bytes, t: bytes, indent: bytes)
    requires At(c, o, [LBRACE] + (brk + (t + (indent + [RBRACE]))))
    requires AllBlank(brk) && AllBlank(indent)
    ensures var r := o + 1 + |brk|; var z := r + |t| + |indent|;
            && r <= |c| && Blank(c, o + 1, r) && At(c, r, t + (indent + [RBRACE]))
            && Blank(c, r + |t|, z) && z < |c| && c[z] == RBRACE
  {
    AtFirst(c, o, LBRACE, brk + (t + (indent + [RBRACE])));
    AtSplit(c, o + 1, brk, t + (indent + [RBRACE]));
    BlankAt(c, o + 1, brk);
    AtSplit(c, o + 1 + |brk|, t, indent + [RBRACE]);
    PiecesOfEnd(c, o + 1 + |brk| + |t|, indent, RBRACE);
  }

  lemma {:induction false} ObjectStep(c: bytes, o: nat, p: nat, depth: nat)
    requires Terminated(c) && o < p < |c| && c[o] == LBRACE && SkipSpace(c, o + 1) == p
    ensures ParseObject(c, o, depth)
         == if depth >= NESTING_LIMIT then Fail(o)
            else if c[p] == RBRACE then Ok(Obj([]), p + 1)
            else match ParseMembers(c, p - 1, depth + 1)
                 case Ok(ms, e) => Ok(Obj(ms), e)
                 case Fail(pos) => Fail(pos)
  {
    hide ParseMembers;
  }

  /** The members start with an indentation and a quote. */
  lemma {:induction false} MembersStart(c: bytes, r: nat, members: seq<Member>, fmt: bool, d: nat, tail: bytes)
    requires members != [] && Printable(members[0].value) && At(c, r, MembersText(members, fmt, d) + tail)
    ensures var k := r + |Indent(fmt, d)|; Blank(c, r, k) && k < |c| && c[k] == QUOTE
  {
    hide Text, Escaped, Printable, At, MembersText, AfterMember;
    var m := members[0];
    MembersTextParts(members, fmt, d, tail);
    TextStarts(m.value, fmt, d);
    PiecesOfMember(c, r, Indent(fmt, d), Quoted(m.key), Colon(fmt), Text(m.value, fmt, d),
                   AfterMember(members, fmt, d, tail));
  }

  lemma MemberParts(key: bytes, fmt: bool, d: nat)
    ensures AllBlank(Indent(fmt, d)) && Quoted(key) != [] && Quoted(key)[0] == QUOTE
    ensures Colon(fmt) != [] && Colon(fmt)[0] == COLON && forall i :: 1 <= i < |Colon(fmt)| ==> Colon(fmt)[i] <= 32
  {
    hide Escaped;
  }

  /** One member, read from somewhere in the blanks before its key. */
  lemma {:induction false} MemberParsesBack(c: bytes, q: nat, r: nat, m: Member, fmt: bool, d: nat, after: bytes,
                                            depth: nat)
    requires Terminated(c) && NoNul(m.key) && Printable(m.value)
    requires q + 1 <= r + |Indent(fmt, d)| <= |c| && Blank(c, q + 1, r + |Indent(fmt, d)|)
    requires At(c, r, Indent(fmt, d) + Quoted(m.key) + Colon(fmt) + Text(m.value, fmt, d) + after)
    requires after != [] && !IsNumberByte(after[0])
    requires depth <= NESTING_LIMIT
    ensures q + 1 < |c|
    ensures var e := r + |Indent(fmt, d)| + |Quoted(m.key)| + |Colon(fmt)| + |Text(m.value, fmt, d)|;
            At(c, e, after) && Reads(ParseMember(c, q, depth), m, e, depth + Depth(m.value) <= NESTING_LIMIT)
    decreases m, 4
  {
    hide ParseMember, ParseValue, Text, Depth, Printable, At, Blank, SkipSpace, NoNul;
    hide Quoted, Colon, Indent, AllBlank;
    var t := Text(m.value, fmt, d);
    MemberParts(m.key, fmt, d);
    TextStarts(m.value, fmt, d);
    PiecesOfMember(c, r, Indent(fmt, d), Quoted(m.key), Colon(fmt), t, after);
    QuotedParsesBack(c, r + |Indent(fmt, d)|, m.key);
    MemberStep(c, q, r, Indent(fmt, d), m.key, Quoted(m.key), Colon(fmt), t, after, depth);
    AtIndex(c, r + |Indent(fmt, d)| + |Quoted(m.key)| + |Colon(fmt)| + |t|, after, 0);
    ValueParsesBack(c, r + |Indent(fmt, d)| + |Quoted(m.key)| + |Colon(fmt)|, m.value, fmt, d, depth);
  }

  lemma {:induction false} MembersParseBack(c: bytes, q: nat, r: nat, members: seq<Member>, fmt: bool, d: nat,
                                            tail: bytes, depth: nat)
    requires Terminated(c) && members != []
    requires forall i :: 0 <= i < |members| ==> NoNul(members[i].key) && Printable(members[i].value)
    requires q + 1 <= r + |Indent(fmt, d)| <= |c| && Blank(c, q + 1, r + |Indent(fmt, d)|)
    requires d > 0 && tail == Indent(fmt, d - 1) + [RBRACE]
    requires At(c, r, MembersText(members, fmt, d) + tail)
    requires depth <= NESTING_LIMIT
    ensures q + 1 < |c|
    ensures Reads(ParseMembers(c, q, depth), members, r + |MembersText(members, fmt, d)| + |tail|,
                  depth + DepthOfMembers(members) <= NESTING_LIMIT)
    decreases members, 0
  {
    hide ParseMember, ParseMembers, ParseValue, Text, Escaped, Quoted, Depth, At, SkipSpace, Reads,
         MembersText, AfterMember, Colon, Printable, IsNumberByte, Indent, Break, NoNul;
    var m := members[0];
    var e := r + |Indent(fmt, d)| + |Quoted(m.key)| + |Colon(fmt)| + |Text(m.value, fmt, d)|;
    var fits := depth + Depth(m.value) <= NESTING_LIMIT;
    MembersTextParts(members, fmt, d, tail);
    AfterMemberParts(members, fmt, d, tail);
    MembersLength(members, fmt, d);
    MemberParsesBack(c, q, r, m, fmt, d, AfterMember(members, fmt, d, tail), depth);
    if |members| > 1 {
      var g := e + 1 + |Break(fmt)|;
      CommaLayout(c, e, fmt, MembersText(members[1..], fmt, d) + tail);
      MembersStart(c, g, members[1..], fmt, d, tail);
      SkipsBlank(c, e, e);
      MembersParseBack(c, e, g, members[1..], fmt, d, tail, depth);
      ReadsMoreMembers(c, q, members, e, g + |MembersText(members[1..], fmt, d)| + |tail|, fits,
                       depth + DepthOfMembers(members[1..]) <= NESTING_LIMIT, depth);
    } else {
      var z := e + |Break(fmt)| + |Indent(fmt, d - 1)|;
      CloseLayout(c, e, fmt, d - 1);
      SkipsBlank(c, e, z);
      ReadsLastMember(c, q, members, e, z, fits, depth);
    }
  }

  lemma {:induction false} ReadsMoreMembers(c: bytes, q: nat, members: seq<Member>, m: nat, end: nat, first: bool,
                                            rest: bool, depth: nat)
    requires Terminated(c) && q + 1 < |c| && |members| > 1 && m + 1 < |c| && c[m] == COMMA && SkipSpace(c, m) == m
    requires Reads(ParseMember(c, q, depth), members[0], m, first)
    requires Reads(ParseMembers(c, m, depth), members[1..], end, rest)
    ensures Reads(ParseMembers(c, q, depth), members, end, first && rest)
  {
    hide ParseMember, ParseMembers, SkipSpace;
    FirstFails(c, q, depth);
    if first {
      MembersStep(c, q, members[0], m, m, depth);
      assert members == [members[0]] + members[1..];
    }
  }

  lemma {:induction false} ReadsLastMember(c: bytes, q: nat, members: seq<Member>, m: nat, z: nat, first: bool,
                                           depth: nat)
    requires Terminated(c) && q + 1 < |c| && |members| == 1
    requires m <= z && z + 1 < |c| && c[z] == RBRACE && SkipSpace(c, m) == z
    requires Reads(ParseMember(c, q, depth), members[0], m, first)
    ensures Reads(ParseMembers(c, q, depth), members, z + 1, first)
  {
    hide ParseMember, ParseMembers, SkipSpace;
    FirstFails(c, q, depth);
    if first {
      MembersStep(c, q, members[0], m, z, depth);
      assert members == [members[0]];
    }
  }

  lemma {:induction false} AfterMemberParts(members: seq<Member>, fmt: bool, d: nat, tail: bytes)
    requires members != [] && d > 0 && tail == Indent(fmt, d - 1) + [RBRACE]
    ensures var after := AfterMember(members, fmt, d, tail);
            && after != [] && !IsNumberByte(after[0])
            && (|members| == 1 ==> after == Break(fmt) + Indent(fmt, d - 1) + [RBRACE])
            && (|members| > 1 ==> after == [COMMA] + (Break(fmt) + (MembersText(members[1..], fmt, d) + tail)))
  {
    hide Text;
    var rest := MembersText(members[1..], fmt, d);
    MemberEndParts(fmt, d, |members| > 1, rest, tail);
    if |members| == 1 {
      assert rest == [];
    }
  }

  lemma MemberEndParts(fmt: bool, d: nat, more: bool, rest: bytes, tail: bytes)
    requires d > 0 && tail == Indent(fmt, d - 1) + [RBRACE]
    ensures var after := MemberEnd(fmt, more) + (rest + tail);
            && (more || rest == [] ==> after != [] && !IsNumberByte(after[0]))
            && (!more && rest == [] ==> after == Break(fmt) + Indent(fmt, d - 1) + [RBRACE])
            && (more ==> after == [COMMA] + (Break(fmt) + (rest + tail)))
  {
    if more {
      assert MemberEnd(fmt, more) == [COMMA] + Break(fmt);
    } else if rest == [] {
      assert MemberEnd(fmt, more) == Break(fmt) && rest + tail == tail;
    }
  }

  lemma {:induction false} MembersLength(members: seq<Member>, fmt: bool, d: nat)
    requires members != []
    ensures var m := members[0];
            |MembersText(members, fmt, d)|
            == |Indent(fmt, d)| + |Quoted(m.key)| + |Colon(fmt)| + |Text(m.value, fmt, d)|
               + (if |members| > 1 then 1 else 0) + |Break(fmt)| + |MembersText(members[1..], fmt, d)|
    ensures |members| == 1 ==> |MembersText(members[1..], fmt, d)| == 0
  {
    hide Text, Indent, Quoted, Escaped;
  }

  lemma CommaLayout(c: bytes, e: nat, fmt: bool, rest: bytes)
    requires At(c, e, [COMMA] + (Break(fmt) + rest))
    ensures var g := e + 1 + |Break(fmt)|; g <= |c| && c[e] == COMMA && Blank(c, e + 1, g) && At(c, g, rest)
  {
    AtFirst(c, e, COMMA, Break(fmt) + rest);
    AtSplit(c, e + 1, Break(fmt), rest);
    BlankAt(c, e + 1, Break(fmt));
  }

  lemma CloseLayout(c: bytes, e: nat, fmt: bool, d: nat)
    requires At(c, e, Break(fmt) + Indent(fmt, d) + [RBRACE])
    ensures var z := e + |Break(fmt)| + |Indent(fmt, d)|; Blank(c, e, z) && z < |c| && c[z] == RBRACE
  {
    PiecesOfEnd(c, e, Break(fmt) + Indent(fmt, d), RBRACE);
  }

  /** `cJSON_Parse` after `cJSON_Print` or `cJSON_PrintUnformatted`. */
  lemma ParseUndoesPrint(v: Json, fmt: bool)
    requires Printable(v)
    ensures Depth(v) <= NESTING_LIMIT ==> Parse(Text(v, fmt, 0)) == Ok(v, |Text(v, fmt, 0)|)
    ensures Depth(v) > NESTING_LIMIT ==> Parse(Text(v, fmt, 0)).Fail?
  {
    var t := Text(v, fmt, 0);
    var c := t + [0];
    assert c[0..|t|] == t;
    AtSlice(c, 0, t);
    TextStarts(v, fmt, 0);
    StartsBelowBom(v, fmt);
    assert c[0] == t[0];
    if |c| > 4 { assert c[..3][0] == c[0]; }
    SkipsBlank(c, 0, 0);
    ValueParsesBack(c, 0, v, fmt, 0, 0);
  }

  lemma StartsBelowBom(v: Json, fmt: bool)
    requires Printable(v)
    ensures |Text(v, fmt, 0)| > 0 && Text(v, fmt, 0)[0] < 0xEF
  {
    match v
    case Int(n) => IntTextReadsBack(n);
    case _ =>
  }
}
