/**
 Where the parser stops when it refuses a text, declared position by position, and that it
 stops exactly there (FederatedLearningServer/src/cJSON.c:304-379, 614-899, 1037-1158,
 1311-1364, 1440-1536, 1600-1711).
 */
module JsonErrors {
  import opened Bytes
  import opened JsonText
  import opened JsonGrammar
  import opened JsonLanguage
  import opened JsonNumbers
  import opened JsonRoundTrip

  // ----- blanks

  /** The first visible byte from `x` on is at `a`, or there is none and `a` is the terminator. */
  ghost predicate FirstVisible(c: bytes, x: nat, a: nat) {
    Blank(c, x, a) && a < |c| && (c[a] > 32 || a == |c| - 1)
  }

  /** The first visible byte from `x` on is `b`. */
  ghost predicate FirstIs(c: bytes, x: nat, b: byte) {
    exists a: nat :: FirstVisible(c, x, a) && c[a] == b
  }

  lemma SkipIff(c: bytes, x: nat, a: nat)
    requires Terminated(c) && x < |c|
    ensures FirstVisible(c, x, a) <==> a == SkipSpace(c, x)
  {
    SkipIsBlank(c, x);
    SkipStops(c, x);
    if FirstVisible(c, x, a) && c[a] > 32 {
      SkipsBlank(c, x, a);
    }
  }

  lemma SkipStops(c: bytes, x: nat)
    requires x < |c|
    ensures var p := SkipSpace(c, x); c[p] > 32 || p == |c| - 1
  {
    VisibleStops(c, x);
  }

  lemma VisibleStops(c: bytes, x: nat)
    requires x <= |c|
    ensures var p := Visible(c, x); p < |c| ==> c[p] > 32
    decreases |c| - x
  {
    if x < |c| && c[x] <= 32 {
      VisibleStops(c, x + 1);
    }
  }

  // ----- literals

  /** The decoding stops at the first place before `e` where no unit stands. */
  ghost predicate UnitsStuck(c: bytes, x: nat, e: nat, p: nat)
    decreases e - x
  {
    x < e && (((forall u :: !UnitAt(c, x, e, u)) && p == x)
              || exists u :: UnitAt(c, x, e, u) && |Form(u)| > 0 && UnitsStuck(c, x + |Form(u)|, e, p))
  }

  /** A literal whose bytes begin at `x` and that is never closed, or closed but impossible
      to decode. */
  ghost predicate LiteralStuck(c: bytes, x: nat, p: nat) {
    || ((forall e :: !Closed(c, x, e)) && p == x)
    || exists e :: Closed(c, x, e) && UnitsStuck(c, x, e, p)
  }

  lemma UnitsStuckIs(c: bytes, x: nat, e: nat, p: nat)
    ensures UnitsStuck(c, x, e, p)
            <==> x < e && (((forall u :: !UnitAt(c, x, e, u)) && p == x)
                           || exists u :: UnitAt(c, x, e, u) && |Form(u)| > 0 && UnitsStuck(c, x + |Form(u)|, e, p))
  {
  }

  lemma {:induction false} UnescapeFailsIff(c: bytes, x: nat, e: nat, p: nat)
    requires x <= e + 1 && e < |c|
    ensures Unescape(c, x, e) == Fail(p) <==> UnitsStuck(c, x, e, p)
    decreases e + 1 - x
  {
    hide Unescape, UnitsStuck, FirstStep, At, Form, Sense, IsUnit, UnitAt;
    UnitsStuckIs(c, x, e, p);
    if x >= e {
      NothingToDecode(c, x, e);
    } else {
      FirstStepIs(c, x, e);
      if FirstStep(c, x, e) == None {
        NoUnit(c, x, e);
      } else {
        var u := StepIsUnit(c, x, e);
        UnescapeFailsIff(c, x + |Form(u)|, e, p);
        forall w | UnitAt(c, x, e, w) ensures |Form(w)| == |Form(u)| {
          SameForm(c, x, e, u, w);
        }
      }
    }
  }

  lemma {:induction false} NoUnit(c: bytes, x: nat, e: nat)
    requires x < e < |c| && FirstStep(c, x, e) == None
    ensures forall u :: !UnitAt(c, x, e, u)
  {
    hide FirstStep;
    forall u ensures !UnitAt(c, x, e, u) {
      if UnitAt(c, x, e, u) {
        UnitTaken(c, x, e, u);
      }
    }
  }

  lemma {:induction false} SameForm(c: bytes, x: nat, e: nat, u: Unit, w: Unit)
    requires x < e < |c| && UnitAt(c, x, e, u) && UnitAt(c, x, e, w)
    ensures |Form(u)| == |Form(w)|
  {
    hide FirstStep, Form, Sense, At;
    UnitTaken(c, x, e, u);
    UnitTaken(c, x, e, w);
  }

  lemma {:induction false} StringFailsIff(c: bytes, o: nat, p: nat)
    requires Terminated(c) && o < |c| && c[o] == 34
    ensures ParseString(c, o) == Fail(p) <==> LiteralStuck(c, o + 1, p)
  {
    hide ClosingQuote, Unescape, Closed, UnitsStuck, LiteralStuck;
    var closing := ClosingQuote(c, o + 1);
    LiteralFails(c, o + 1, p);
  }

  lemma {:induction false} LiteralFails(c: bytes, x: nat, p: nat)
    requires x <= |c|
    ensures LiteralStuck(c, x, p)
            <==> match ClosingQuote(c, x)
                 case None => p == x
                 case Some(e) => Unescape(c, x, e) == Fail(p)
  {
    hide ClosingQuote, Unescape, Closed, UnitsStuck;
    var closing := ClosingQuote(c, x);
    forall e: nat ensures closing == Some(e) <==> Closed(c, x, e) {
      ClosingQuoteIff(c, x, e);
    }
    if closing.Some? {
      UnescapeFailsIff(c, x, closing.value, p);
    }
  }

  // ----- values

  predicate BeginsValue(c: bytes, o: nat)
    requires o < |c|
  {
    || Word(c, o, o + 4, [110, 117, 108, 108]) || Word(c, o, o + 4, [116, 114, 117, 101])
    || Word(c, o, o + 5, [102, 97, 108, 115, 101])
    || c[o] == 34 || c[o] == 45 || 48 <= c[o] <= 57 || c[o] == 91 || c[o] == 123
  }

  /** The parser, sent to `o` for a value inside `depth` containers, stops at `p`. */
  ghost predicate Stuck(c: bytes, o: nat, p: nat, depth: nat)
    decreases |c| - o, 3
  {
    o < |c| &&
    (|| (!BeginsValue(c, o) && p == o)
     || (c[o] == 34 && LiteralStuck(c, o + 1, p))
     || ((c[o] == 45 || 48 <= c[o] <= 57) && (forall k :: !LongestNumeral(c, o, k)) && p == o)
     || ((c[o] == 91 || c[o] == 123) && depth >= 1000 && p == o)
     || (c[o] == 91 && depth < 1000 && !FirstIs(c, o + 1, 93)
         && ItemsStuck(c, o + 1, p, depth + 1))
     || (c[o] == 123 && depth < 1000 && !FirstIs(c, o + 1, 125)
         && MembersStuck(c, o + 1, p, depth + 1)))
  }

  /** After some items it stops at a value, or where neither a comma nor the bracket follows. */
  ghost predicate ItemsStuck(c: bytes, x: nat, p: nat, depth: nat)
    decreases |c| - x, 5
  {
    exists a: nat :: x <= a && FirstVisible(c, x, a) && ItemsStuckAt(c, a, p, depth)
  }

  ghost predicate ItemsStuckAt(c: bytes, a: nat, p: nat, depth: nat)
    decreases |c| - a, 4
  {
    || Stuck(c, a, p, depth)
    || exists v, b: nat, e: nat ::
         && Denotes(c, a, b, v, depth) && FirstVisible(c, b, e)
         && ((c[e] != 44 && c[e] != 93 && p == e)
             || (c[e] == 44 && a <= e < |c| && ItemsStuck(c, e + 1, p, depth)))
  }

  /** At a key, where a colon is missing, or at the value. */
  ghost predicate MemberStuck(c: bytes, x: nat, p: nat, depth: nat)
    decreases |c| - x, 5
  {
    exists a: nat :: x <= a && FirstVisible(c, x, a) && MemberStuckAt(c, a, p, depth)
  }

  ghost predicate MemberStuckAt(c: bytes, a: nat, p: nat, depth: nat)
    requires a < |c|
    decreases |c| - a, 4
  {
    || (c[a] != 34 && p == a + 1)
    || (c[a] == 34 && LiteralStuck(c, a + 1, p))
    || exists key, k: nat, m: nat ::
         && StringDenotes(c, a, k, key) && FirstVisible(c, k, m)
         && ((c[m] != 58 && p == m) || (c[m] == 58 && ValueStuck(c, a, m + 1, p, depth)))
  }

  ghost predicate ValueStuck(c: bytes, a: nat, x: nat, p: nat, depth: nat)
    decreases |c| - a, 3
  {
    exists b: nat :: a < b < |c| && FirstVisible(c, x, b) && Stuck(c, b, p, depth)
  }

  ghost predicate MembersStuck(c: bytes, x: nat, p: nat, depth: nat)
    decreases |c| - x, 6
  {
    || MemberStuck(c, x, p, depth)
    || exists m, b: nat, e: nat ::
         && MemberDenotes(c, x, b, m, depth) && FirstVisible(c, b, e)
         && ((c[e] != 44 && c[e] != 125 && p == e)
             || (c[e] == 44 && x <= e < |c| && MembersStuck(c, e + 1, p, depth)))
  }

  // ----- the parser stops exactly there

  lemma {:induction false} Refuses(c: bytes, o: nat, depth: nat)
    requires Terminated(c) && o < |c|
    ensures !BeginsValue(c, o) ==> ParseValue(c, o, depth) == Fail(o)
    ensures BeginsValue(c, o) && c[o] != 34 && c[o] != 45 && !(48 <= c[o] <= 57) && c[o] != 91 && c[o] != 123 ==>
              ParseValue(c, o, depth).Ok?
  {
    hide ParseString, ParseNumber, ParseArray, ParseObject;
  }

  lemma {:induction false} NoWordThere(c: bytes, o: nat)
    requires o < |c| && (c[o] == 34 || c[o] == 45 || 48 <= c[o] <= 57 || c[o] == 91 || c[o] == 123)
    ensures BeginsValue(c, o)
  {
  }

  lemma {:induction false} NumberFailsIff(c: bytes, o: nat, p: nat)
    requires Terminated(c) && o < |c|
    ensures ParseNumber(c, o) == Fail(p) <==> (forall k :: !LongestNumeral(c, o, k)) && p == o
  {
    hide LongestNumeral, StrtodLength, NumberEnd, ParseNumber;
    StrtodTakesLongest(c, o);
    ParseNumberIs(c, o);
    forall k | LongestNumeral(c, o, k) ensures StrtodLength(c[o..NumberEnd(c, o, 63)]) > 0 {
      NumeralThere(c, o, k);
    }
  }

  lemma {:induction false} StuckIff(c: bytes, o: nat, p: nat, depth: nat)
    requires Terminated(c) && o < |c|
    ensures ParseValue(c, o, depth) == Fail(p) <==> Stuck(c, o, p, depth)
    decreases |c| - o, 3
  {
    hide ParseValue, ParseString, ParseNumber, ParseArray, ParseObject, HasWord, BeginsValue;
    hide LiteralStuck, LongestNumeral, ItemsStuck, MembersStuck, FirstIs;
    Refuses(c, o, depth);
    Kinds(c, o, depth);
    Dispatch(c, o, depth);
    if c[o] == 34 || c[o] == 45 || 48 <= c[o] <= 57 || c[o] == 91 || c[o] == 123 {
      NoWordThere(c, o);
    }
    if c[o] == 34 {
      StringFailsIff(c, o, p);
    } else if c[o] == 45 || 48 <= c[o] <= 57 {
      NumberFailsIff(c, o, p);
    } else if c[o] == 91 {
      ArrayFailsIff(c, o, p, depth);
    } else if c[o] == 123 {
      ObjectFailsIff(c, o, p, depth);
    }
  }

  lemma {:induction false} FirstIsIff(c: bytes, x: nat, b: byte)
    requires Terminated(c) && x < |c|
    ensures FirstIs(c, x, b) <==> c[SkipSpace(c, x)] == b
  {
    hide SkipSpace, FirstVisible;
    SkipIff(c, x, SkipSpace(c, x));
    FirstInside(c, x, SkipSpace(c, x));
    if FirstIs(c, x, b) {
      OnlyFirst(c, x);
    }
  }

  lemma FirstInside(c: bytes, x: nat, a: nat)
    requires FirstVisible(c, x, a)
    ensures x <= a < |c|
  {
  }

  lemma {:induction false} ArrayFailsIff(c: bytes, o: nat, p: nat, depth: nat)
    requires Terminated(c) && o < |c| && c[o] == 91
    ensures ParseArray(c, o, depth) == Fail(p)
            <==> (depth >= 1000 && p == o)
                 || (depth < 1000 && !FirstIs(c, o + 1, 93) && ItemsStuck(c, o + 1, p, depth + 1))
    decreases |c| - o, 1
  {
    hide ParseItems, ItemsStuck, SkipSpace, FirstIs;
    FirstIsIff(c, o + 1, 93);
    var x := SkipSpace(c, o + 1);
    ItemsFailIff(c, x - 1, p, depth + 1);
    ItemsStuckFrom(c, o + 1, p, depth + 1);
  }

  /** Only the first visible byte matters. */
  lemma {:induction false} ItemsStuckFrom(c: bytes, x: nat, p: nat, depth: nat)
    requires Terminated(c) && x < |c|
    ensures ItemsStuck(c, x, p, depth) <==> ItemsStuck(c, SkipSpace(c, x), p, depth)
  {
    hide ItemsStuckAt, SkipSpace, FirstVisible;
    OnlyFirst(c, x);
  }

  lemma {:induction false} OnlyFirst(c: bytes, x: nat)
    requires Terminated(c) && x < |c|
    ensures forall a: nat :: FirstVisible(c, x, a) <==> a == SkipSpace(c, x)
    ensures forall a: nat :: FirstVisible(c, SkipSpace(c, x), a) <==> a == SkipSpace(c, x)
    ensures x <= SkipSpace(c, x) < |c|
  {
    hide SkipSpace, FirstVisible;
    var y := SkipSpace(c, x);
    SkipIff(c, x, y);
    FirstInside(c, x, y);
    SkipTwice(c, x);
    forall a: nat ensures FirstVisible(c, x, a) <==> a == y {
      SkipIff(c, x, a);
    }
    forall a: nat ensures FirstVisible(c, y, a) <==> a == y {
      SkipIff(c, y, a);
    }
  }

  lemma {:induction false} SkipTwice(c: bytes, x: nat)
    requires Terminated(c) && x < |c|
    ensures SkipSpace(c, SkipSpace(c, x)) == SkipSpace(c, x)
  {
    SkipStops(c, x);
  }

  lemma {:induction false} ItemsFailIff(c: bytes, q: nat, p: nat, depth: nat)
    requires Terminated(c) && q + 1 < |c|
    ensures ParseItems(c, q, depth) == Fail(p) <==> ItemsStuck(c, q + 1, p, depth)
    decreases |c| - q, 0
  {
    hide ParseValue, ParseItems, SkipSpace, Denotes, Stuck, FirstVisible;
    var a := SkipSpace(c, q + 1);
    OnlyFirst(c, q + 1);
    StuckIff(c, a, p, depth);
    DenotesIs(c, a, depth);
    ValueMoves(c, a, depth);
    FailsWithFirst(c, q, depth);
    assert FirstVisible(c, q + 1, a);
    var r := ParseValue(c, a, depth);
    if r.Ok? {
      OnlyFirst(c, r.next);
      ItemsStepAt(c, q, r.value, r.next, depth);
      var e := SkipSpace(c, r.next);
      AfterItem(c, a, r.value, r.next, e, p, depth);
      if c[e] == 44 {
        ItemsFailIff(c, e, p, depth);
      }
    }
  }

  /** Behind a value that is there. */
  lemma {:induction false} AfterItem(c: bytes, a: nat, v: Json, b: nat, e: nat, p: nat, depth: nat)
    requires a < b <= e < |c| && !Stuck(c, a, p, depth)
    requires forall w, n: nat :: Denotes(c, a, n, w, depth) <==> Ok(v, b) == Ok(w, n)
    requires forall k: nat :: FirstVisible(c, b, k) <==> k == e
    ensures ItemsStuckAt(c, a, p, depth)
            <==> if c[e] == 44 then ItemsStuck(c, e + 1, p, depth) else c[e] != 93 && p == e
  {
    hide Denotes, FirstVisible, Stuck, ItemsStuck;
    assert Denotes(c, a, b, v, depth) && FirstVisible(c, b, e);
  }

  lemma {:induction false} FailsWithFirst(c: bytes, q: nat, depth: nat)
    requires Terminated(c) && q + 1 < |c|
    ensures var r := ParseValue(c, SkipSpace(c, q + 1), depth);
            r.Fail? ==> ParseItems(c, q, depth) == Fail(r.pos)
    ensures var r := ParseMember(c, q, depth);
            r.Fail? ==> ParseMembers(c, q, depth) == Fail(r.pos)
  {
    hide ParseValue, ParseMember, SkipSpace;
  }

  lemma {:induction false} DenotesIs(c: bytes, o: nat, depth: nat)
    requires Terminated(c) && o < |c|
    ensures forall v, b: nat :: Denotes(c, o, b, v, depth) <==> ParseValue(c, o, depth) == Ok(v, b)
  {
    hide Denotes, ParseValue;
    forall v, b: nat ensures Denotes(c, o, b, v, depth) <==> ParseValue(c, o, depth) == Ok(v, b) {
      ValueIff(c, o, b, v, depth);
    }
  }

  lemma {:induction false} ObjectFailsIff(c: bytes, o: nat, p: nat, depth: nat)
    requires Terminated(c) && o < |c| && c[o] == 123
    ensures ParseObject(c, o, depth) == Fail(p)
            <==> (depth >= 1000 && p == o)
                 || (depth < 1000 && !FirstIs(c, o + 1, 125) && MembersStuck(c, o + 1, p, depth + 1))
    decreases |c| - o, 2
  {
    hide ParseMembers, MembersStuck, SkipSpace, FirstIs;
    FirstIsIff(c, o + 1, 125);
    var x := SkipSpace(c, o + 1);
    MembersFailIff(c, x - 1, p, depth + 1);
    MembersStuckFrom(c, o + 1, p, depth + 1);
  }

  lemma {:induction false} MembersStuckFrom(c: bytes, x: nat, p: nat, depth: nat)
    requires Terminated(c) && x < |c|
    ensures MembersStuck(c, x, p, depth) <==> MembersStuck(c, SkipSpace(c, x), p, depth)
  {
    hide MemberDenotes, MemberStuckAt, SkipSpace, FirstVisible;
    var y := SkipSpace(c, x);
    OnlyFirst(c, x);
    forall m, b: nat | MemberDenotes(c, y, b, m, depth) ensures y < b {
      MemberInside(c, y, b, m, depth);
    }
    forall b: nat, e: nat | FirstVisible(c, b, e) ensures b <= e < |c| {
      FirstInside(c, b, e);
    }
    forall m, n: nat ensures MemberDenotes(c, x, n, m, depth) <==> MemberDenotes(c, y, n, m, depth) {
      MemberFrom(c, x, m, depth);
    }
  }

  lemma {:induction false} MembersFailIff(c: bytes, q: nat, p: nat, depth: nat)
    requires Terminated(c) && q + 1 < |c|
    ensures ParseMembers(c, q, depth) == Fail(p) <==> MembersStuck(c, q + 1, p, depth)
    decreases |c| - q, 1
  {
    hide ParseMember, ParseMembers, SkipSpace, MemberDenotes, MemberStuck, MembersStuck, FirstVisible;
    MemberFailsIff(c, q, p, depth);
    MemberDenotesIs(c, q + 1, depth);
    MemberMoves(c, q, depth);
    FailsWithFirst(c, q, depth);
    var r := ParseMember(c, q, depth);
    if r.Fail? {
      AtMember(c, q + 1, p, depth);
    } else {
      OnlyFirst(c, r.next);
      MembersStepAt(c, q, r.value, r.next, depth);
      var e := SkipSpace(c, r.next);
      AfterMember(c, q + 1, r.value, r.next, e, p, depth);
      if c[e] == 44 {
        MembersFailIff(c, e, p, depth);
      }
    }
  }

  lemma {:induction false} AtMember(c: bytes, x: nat, p: nat, depth: nat)
    requires forall m, b: nat :: !MemberDenotes(c, x, b, m, depth)
    ensures MembersStuck(c, x, p, depth) <==> MemberStuck(c, x, p, depth)
  {
    hide MemberDenotes, FirstVisible, MemberStuck;
  }

  /** Behind a member that is there. */
  lemma {:induction false} AfterMember(c: bytes, x: nat, m: Member, b: nat, e: nat, p: nat, depth: nat)
    requires x <= b <= e < |c| && !MemberStuck(c, x, p, depth)
    requires forall w, n: nat :: MemberDenotes(c, x, n, w, depth) <==> Ok(m, b) == Ok(w, n)
    requires forall k: nat :: FirstVisible(c, b, k) <==> k == e
    ensures MembersStuck(c, x, p, depth)
            <==> if c[e] == 44 then MembersStuck(c, e + 1, p, depth) else c[e] != 125 && p == e
  {
    hide MemberDenotes, FirstVisible, MemberStuck;
    assert MemberDenotes(c, x, b, m, depth) && FirstVisible(c, b, e);
  }

  lemma {:induction false} MemberDenotesIs(c: bytes, x: nat, depth: nat)
    requires Terminated(c) && 0 < x < |c|
    ensures forall m, b: nat :: MemberDenotes(c, x, b, m, depth) <==> ParseMember(c, x - 1, depth) == Ok(m, b)
  {
    hide MemberDenotes, ParseMember;
    forall m, b: nat ensures MemberDenotes(c, x, b, m, depth) <==> ParseMember(c, x - 1, depth) == Ok(m, b) {
      MemberIff(c, x - 1, b, m, depth);
    }
  }

  lemma {:induction false} MemberFailsIff(c: bytes, q: nat, p: nat, depth: nat)
    requires Terminated(c) && q + 1 < |c|
    ensures ParseMember(c, q, depth) == Fail(p) <==> MemberStuck(c, q + 1, p, depth)
    decreases |c| - q, 0
  {
    hide ParseValue, ParseString, SkipSpace, StringDenotes, LiteralStuck, ValueStuck, FirstVisible;
    var a := SkipSpace(c, q + 1);
    OnlyFirst(c, q + 1);
    StringDenotesIs(c, a);
    NoLiteral(c, a);
    assert FirstVisible(c, q + 1, a);
    if c[a] == 34 {
      StringFailsIff(c, a, p);
    }
    StringMoves(c, a);
    var r := ParseString(c, a);
    if r.Ok? {
      OnlyFirst(c, r.next);
      var m := SkipSpace(c, r.next);
      AfterKey(c, a, r.value, r.next, m, p, depth);
      if c[m] == 58 {
        NotLast(c, m, 58);
        OnlyFirst(c, m + 1);
        StuckIff(c, SkipSpace(c, m + 1), p, depth);
        ValueStuckIff(c, a, m + 1, p, depth);
      }
    }
  }

  /** Behind a key that is there. */
  lemma {:induction false} AfterKey(c: bytes, a: nat, key: bytes, k: nat, m: nat, p: nat, depth: nat)
    requires a < k <= m < |c| && c[a] == 34 && !LiteralStuck(c, a + 1, p)
    requires forall t, n: nat :: StringDenotes(c, a, n, t) <==> Ok(key, k) == Ok(t, n)
    requires forall i: nat :: FirstVisible(c, k, i) <==> i == m
    ensures MemberStuckAt(c, a, p, depth) <==> if c[m] == 58 then ValueStuck(c, a, m + 1, p, depth) else p == m
  {
    hide StringDenotes, FirstVisible, LiteralStuck, ValueStuck;
    assert StringDenotes(c, a, k, key) && FirstVisible(c, k, m);
  }

  lemma {:induction false} ValueStuckIff(c: bytes, a: nat, x: nat, p: nat, depth: nat)
    requires Terminated(c) && a < x < |c|
    ensures ValueStuck(c, a, x, p, depth) <==> Stuck(c, SkipSpace(c, x), p, depth)
  {
    hide SkipSpace, FirstVisible, Stuck;
    OnlyFirst(c, x);
  }

  lemma {:induction false} StringDenotesIs(c: bytes, o: nat)
    requires Terminated(c) && o < |c|
    ensures forall t, n: nat :: StringDenotes(c, o, n, t) <==> ParseString(c, o) == Ok(t, n)
  {
    hide StringDenotes, ParseString;
    forall t, n: nat ensures StringDenotes(c, o, n, t) <==> ParseString(c, o) == Ok(t, n) {
      ParseStringIff(c, o, n, t);
    }
  }

  lemma NoLiteral(c: bytes, o: nat)
    requires Terminated(c) && o < |c|
    ensures c[o] != 34 ==> ParseString(c, o) == Fail(o + 1)
  {
  }

  /** A text is refused, with this error position, if and only if the parser is stuck there. */
  lemma {:induction false} ParseFailsIff(s: bytes, p: nat)
    ensures Parse(s) == Fail(p) <==> exists a: nat :: FirstVisible(s + [0], Start(s), a) && Stuck(s + [0], a, p, 0)
  {
    hide ParseValue, Stuck, SkipSpace, FirstVisible;
    var c := s + [0];
    BomIff(s);
    OnlyFirst(c, Start(s));
    StuckIff(c, SkipSpace(c, Start(s)), p, 0);
  }
}
