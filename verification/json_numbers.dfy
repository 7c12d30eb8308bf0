/**
 Which numbers the parser reads (FederatedLearningServer/src/cJSON.c:304-379): of the
 bytes at its offset, `strtod` takes the longest decimal number.
 */
module JsonNumbers {
  import opened Bytes
  import opened JsonText
  import opened JsonGrammar

  // ----- runs of digits

  lemma {:induction false} DigitsReach(t: bytes, i: nat, w: bytes)
    requires At(t, i, w) && Digits(w)
    ensures i + |w| <= |t| && i + |w| <= DigitsEnd(t, i)
    decreases |w|
  {
    if w != [] {
      DigitsReach(t, i + 1, w[1..]);
    }
  }

  lemma {:induction false} DigitsStop(t: bytes, i: nat, w: bytes)
    requires At(t, i, w) && Digits(w) && i + |w| < |t| && !IsDigit(t[i + |w|])
    ensures DigitsEnd(t, i) == i + |w|
  {
    DigitsReach(t, i, w);
  }

  lemma AreDigits(t: bytes, i: nat)
    requires i <= |t|
    ensures Digits(t[i..DigitsEnd(t, i)])
  {
  }

  lemma {:induction false} SignIs(t: bytes, i: nat, sign: bytes)
    requires Sign(sign) && i <= |t| && At(t, i, sign)
    requires sign == [] && i < |t| ==> t[i] != PLUS && t[i] != MINUS
    ensures SignEnd(t, i) == i + |sign|
  {
    if sign != [] {
      AtIndex(t, i, sign, 0);
    }
  }

  // ----- the length is that of the longest numeral

  /** What comes first: sign and digits, with a point or without. */
  function Head(n: Numeral): bytes {
    n.sign + n.whole + FractionText(n.fraction)
  }

  /** Where the digits of a numeral end inside `t`. */
  function HeadEnd(t: bytes): (f: nat)
    ensures f <= |t|
  {
    var i := DigitsEnd(t, SignEnd(t, 0));
    if i < |t| && t[i] == POINT then DigitsEnd(t, i + 1) else i
  }

  function DigitsInHead(t: bytes): int {
    var s := SignEnd(t, 0);
    var i := DigitsEnd(t, s);
    if HeadEnd(t) == i then i - s else HeadEnd(t) - s - 1
  }

  lemma {:induction false} PiecesOfNumeral(t: bytes, n: Numeral)
    requires At(t, 0, Spelling(n))
    ensures var (s, i) := (|n.sign|, |n.sign| + |n.whole|);
            var f := i + |FractionText(n.fraction)|;
            && f == |Head(n)| && f + |ExponentText(n.exponent)| == |Spelling(n)| <= |t|
            && At(t, 0, n.sign) && At(t, s, n.whole) && At(t, i, FractionText(n.fraction))
            && At(t, f, ExponentText(n.exponent))
  {
    hide At;
    AtSplit(t, 0, Head(n), ExponentText(n.exponent));
    AtSplit3(t, 0, n.sign, n.whole, FractionText(n.fraction));
  }

  lemma {:induction false} SignStarts(t: bytes, n: Numeral)
    requires IsNumeral(n) && At(t, 0, Spelling(n))
    ensures SignEnd(t, 0) == |n.sign|
  {
    hide At;
    PiecesOfNumeral(t, n);
    if n.sign == [] && n.whole != [] {
      AtIndex(t, 0, n.whole, 0);
    } else if n.sign == [] {
      AtIndex(t, 0, FractionText(n.fraction), 0);
    }
    SignIs(t, 0, n.sign);
  }

  lemma MarkIsNoDigit(n: Numeral)
    requires IsNumeral(n)
    ensures n.exponent.Exponent? ==> !IsDigit(n.exponent.mark)
    ensures n.fraction.Point? ==> Digits(n.fraction.digits)
  {
  }

  /** Where the whole part ends, and what comes there. */
  lemma {:induction false} WholeIsTaken(t: bytes, n: Numeral)
    requires IsNumeral(n) && At(t, 0, Spelling(n))
    ensures var (s, i) := (|n.sign|, |n.sign| + |n.whole|);
            && i <= DigitsEnd(t, s) && i <= |t|
            && (n.fraction.Point? ==> DigitsEnd(t, s) == i < |t| && t[i] == POINT)
            && (n.fraction.NoPoint? && n.exponent.Exponent? ==> DigitsEnd(t, s) == i < |t| && t[i] == n.exponent.mark)
  {
    hide At;
    PiecesOfNumeral(t, n);
    var (s, i) := (|n.sign|, |n.sign| + |n.whole|);
    DigitsReach(t, s, n.whole);
    if n.fraction.Point? {
      AtIndex(t, i, FractionText(n.fraction), 0);
      DigitsStop(t, s, n.whole);
    } else if n.exponent.Exponent? {
      AtIndex(t, i, ExponentText(n.exponent), 0);
      DigitsStop(t, s, n.whole);
    }
  }

  lemma {:induction false} DigitsThen(t: bytes, i: nat, f: nat, digits: bytes, rest: bytes)
    requires At(t, i, digits) && Digits(digits) && f == i + |digits| && At(t, f, rest)
    requires rest != [] ==> !IsDigit(rest[0])
    ensures i <= f <= DigitsEnd(t, i)
    ensures rest != [] ==> DigitsEnd(t, i) == f < |t| && t[f] == rest[0]
  {
    hide At, Digits, DigitsEnd, IsDigit;
    DigitsReach(t, i, digits);
    if rest != [] {
      AtIndex(t, f, rest, 0);
      DigitsStop(t, i, digits);
    }
  }

  lemma {:induction false} FractionIsTaken(t: bytes, n: Numeral)
    requires IsNumeral(n) && At(t, 0, Spelling(n)) && n.fraction.Point?
    ensures var (i, f) := (|n.sign| + |n.whole|, |Head(n)|);
            && i + 1 <= f <= DigitsEnd(t, i + 1) && f == i + 1 + |n.fraction.digits|
            && (n.exponent.Exponent? ==> DigitsEnd(t, i + 1) == f < |t| && t[f] == n.exponent.mark)
  {
    hide At, Digits, DigitsEnd, IsDigit, IsNumeral, Spelling;
    PiecesOfNumeral(t, n);
    MarkIsNoDigit(n);
    var i := |n.sign| + |n.whole|;
    AtSplit(t, i, [46], n.fraction.digits);
    DigitsThen(t, i + 1, |Head(n)|, n.fraction.digits, ExponentText(n.exponent));
  }

  /** The digits of a numeral at the start are all taken, and no others if an exponent follows. */
  lemma {:induction false} HeadIsTaken(t: bytes, n: Numeral)
    requires IsNumeral(n) && At(t, 0, Spelling(n))
    ensures SignEnd(t, 0) == |n.sign| && DigitsInHead(t) > 0 && HeadEnd(t) >= |Head(n)|
    ensures n.exponent.Exponent? ==> HeadEnd(t) == |Head(n)| < |t| && t[|Head(n)|] == n.exponent.mark
  {
    hide At, DigitsEnd;
    SignStarts(t, n);
    WholeIsTaken(t, n);
    PiecesOfNumeral(t, n);
    if n.fraction.Point? {
      FractionIsTaken(t, n);
      PointCounts(t, n);
    }
  }

  lemma PointCounts(t: bytes, n: Numeral)
    requires IsNumeral(n) && n.fraction.Point?
    ensures |n.whole| + |n.fraction.digits| > 0
  {
  }

  lemma StrtodIs(t: bytes)
    ensures var f := HeadEnd(t);
            StrtodLength(t)
            == if DigitsInHead(t) == 0 then 0
               else if f < |t| && (t[f] == 101 || t[f] == 69) then
                 var x := SignEnd(t, f + 1);
                 if x < DigitsEnd(t, x) then DigitsEnd(t, x) else f
               else f
  {
  }

  lemma {:induction false} ExponentIsTaken(t: bytes, n: Numeral)
    requires IsNumeral(n) && At(t, 0, Spelling(n)) && n.exponent.Exponent?
    ensures var f := |Head(n)|;
            && f < |t|
            && SignEnd(t, f + 1) < |Spelling(n)| <= DigitsEnd(t, SignEnd(t, f + 1))
  {
    hide At, DigitsEnd, SignEnd, Spelling, Head;
    PiecesOfNumeral(t, n);
    var (f, e) := (|Head(n)|, n.exponent);
    AtSplit3(t, f, [e.mark], e.sign, e.digits);
    AtIndex(t, f + 1 + |e.sign|, e.digits, 0);
    SignIs(t, f + 1, e.sign);
    DigitsReach(t, f + 1 + |e.sign|, e.digits);
  }

  /** No numeral at the start of `t` is longer than what is taken. */
  lemma {:induction false} TakesAtLeast(t: bytes, n: Numeral)
    requires IsNumeral(n) && At(t, 0, Spelling(n))
    ensures |Spelling(n)| <= StrtodLength(t)
  {
    hide StrtodLength, HeadEnd, DigitsInHead, SignEnd, DigitsEnd, At;
    HeadIsTaken(t, n);
    PiecesOfNumeral(t, n);
    StrtodIs(t);
    if n.exponent.Exponent? {
      ExponentIsTaken(t, n);
    }
  }

  // ----- what is taken is a numeral

  function ExponentAt(t: bytes, f: nat): Exponent
    requires f <= |t|
  {
    if f < |t| && (t[f] == 101 || t[f] == 69) then
      var x := SignEnd(t, f + 1);
      var e := DigitsEnd(t, x);
      if x < e then Exponent(t[f], t[f + 1..x], t[x..e]) else NoExponent
    else NoExponent
  }

  function FractionIn(t: bytes, i: nat, f: nat): Fraction
    requires i <= f <= |t|
  {
    if f == i then NoPoint else Point(t[i + 1..f])
  }

  lemma HeadEndIs(t: bytes)
    ensures var s := SignEnd(t, 0);
            var i := DigitsEnd(t, s);
            && s <= i <= HeadEnd(t) <= |t|
            && (HeadEnd(t) > i ==> t[i] == POINT && HeadEnd(t) == DigitsEnd(t, i + 1))
  {
  }

  /** The numeral that is taken. */
  function TakenNumeral(t: bytes): Numeral {
    HeadEndIs(t);
    var s := SignEnd(t, 0);
    var i := DigitsEnd(t, s);
    var f := HeadEnd(t);
    Numeral(t[..s], t[s..i], FractionIn(t, i, f), ExponentAt(t, f))
  }

  lemma SignsAre(t: bytes, i: nat)
    requires i <= |t|
    ensures Sign(t[i..SignEnd(t, i)])
  {
  }

  lemma Cut(t: bytes, a: nat, b: nat, e: nat)
    requires a <= b <= e <= |t|
    ensures t[a..b] + t[b..e] == t[a..e]
    ensures a < b ==> t[a..b] == [t[a]] + t[a + 1..b]
  {
  }

  lemma ExponentIs(t: bytes, f: nat)
    requires f <= |t|
    ensures var e := ExponentAt(t, f);
            e.Exponent? ==> (e.mark == 69 || e.mark == 101) && Sign(e.sign) && Digits(e.digits) && e.digits != []
    ensures var e := ExponentAt(t, f);
            f + |ExponentText(e)| <= |t| && t[f..f + |ExponentText(e)|] == ExponentText(e)
  {
    hide DigitsEnd, SignEnd, Sign, Digits;
    if ExponentAt(t, f).Exponent? {
      var x := SignEnd(t, f + 1);
      SignsAre(t, f + 1);
      AreDigits(t, x);
      Cut(t, f, x, DigitsEnd(t, x));
    }
  }

  lemma FractionIs(t: bytes, i: nat, f: nat)
    requires i <= f <= |t| && (i < f ==> t[i] == POINT && f == DigitsEnd(t, i + 1))
    ensures var n := FractionIn(t, i, f);
            && FractionText(n) == t[i..f] && (n.Point? ==> Digits(n.digits) && |n.digits| == f - i - 1)
  {
    hide DigitsEnd, Digits;
    if i < f {
      AreDigits(t, i + 1);
      Cut(t, i, f, f);
    }
  }

  lemma HeadIs(t: bytes)
    requires DigitsInHead(t) != 0
    ensures var n := TakenNumeral(t);
            && Sign(n.sign) && Digits(n.whole) && (n.fraction.NoPoint? ==> n.whole != [])
            && (n.fraction.Point? ==> Digits(n.fraction.digits) && n.whole + n.fraction.digits != [])
            && Head(n) == t[..HeadEnd(t)]
  {
    hide DigitsEnd, SignEnd, Digits, Sign, HeadEnd, FractionIn, FractionText;
    HeadEndIs(t);
    var s := SignEnd(t, 0);
    var i := DigitsEnd(t, s);
    SignsAre(t, 0);
    AreDigits(t, s);
    FractionIs(t, i, HeadEnd(t));
    Cut(t, 0, s, i);
    Cut(t, 0, i, HeadEnd(t));
    Shape(t, i, HeadEnd(t));
  }

  lemma Shape(t: bytes, i: nat, f: nat)
    requires i <= f <= |t|
    ensures FractionIn(t, i, f).NoPoint? <==> f == i
  {
  }

  lemma TakesNumeral(t: bytes)
    requires StrtodLength(t) > 0
    ensures IsNumeral(TakenNumeral(t)) && Spelling(TakenNumeral(t)) == t[..StrtodLength(t)]
  {
    hide HeadEnd, SignEnd, DigitsEnd, StrtodLength, DigitsInHead, Digits, Sign, FractionText;
    var (n, f) := (TakenNumeral(t), HeadEnd(t));
    StrtodIs(t);
    HeadIs(t);
    ExponentIs(t, f);
    assert n.exponent == ExponentAt(t, f);
    LengthIs(t);
    Cut(t, 0, f, f + |ExponentText(n.exponent)|);
  }

  lemma LengthIs(t: bytes)
    requires StrtodLength(t) > 0
    ensures StrtodLength(t) == HeadEnd(t) + |ExponentText(ExponentAt(t, HeadEnd(t)))|
  {
    hide HeadEnd, DigitsInHead, StrtodLength, DigitsEnd, SignEnd;
    StrtodIs(t);
    ExponentIs(t, HeadEnd(t));
  }

  // ----- numbers inside a text

  /** A numeral stands at `o`, and no longer one of at most 63 bytes does. */
  ghost predicate LongestNumeral(c: bytes, o: nat, k: nat) {
    && k <= 63
    && (exists n :: IsNumeral(n) && At(c, o, Spelling(n)) && |Spelling(n)| == k)
    && forall n :: IsNumeral(n) && At(c, o, Spelling(n)) && |Spelling(n)| <= 63 ==> |Spelling(n)| <= k
  }

  lemma {:induction false} RunReaches(c: bytes, o: nat, w: bytes, room: nat)
    requires At(c, o, w) && NumberBytes(w) && |w| <= room
    ensures o + |w| <= |c| && o + |w| <= NumberEnd(c, o, room)
    decreases |w|
  {
    if w != [] {
      RunReaches(c, o + 1, w[1..], room - 1);
    }
  }

  lemma {:induction false} AtInside(c: bytes, o: nat, end: nat, w: bytes)
    requires o <= end <= |c|
    ensures At(c[o..end], 0, w) <==> At(c, o, w) && o + |w| <= end
  {
    AtSlice(c[o..end], 0, w);
    AtSlice(c, o, w);
    if o + |w| <= end {
      assert c[o..end][0..|w|] == c[o..o + |w|];
    }
  }

  /** Numerals of at most 63 bytes are inside the run that is copied. */
  lemma {:induction false} InRun(c: bytes, o: nat, n: Numeral)
    requires o <= |c| && IsNumeral(n) && At(c, o, Spelling(n)) && |Spelling(n)| <= 63
    ensures At(c[o..NumberEnd(c, o, 63)], 0, Spelling(n))
  {
    hide At, Spelling, IsNumeral, NumberBytes, NumberEnd;
    NumeralBytes(n);
    RunReaches(c, o, Spelling(n), 63);
    AtInside(c, o, NumberEnd(c, o, 63), Spelling(n));
  }

  /** What `strtod` takes of the run is the longest numeral. */
  lemma {:induction false} StrtodTakesLongest(c: bytes, o: nat)
    requires o <= |c|
    ensures var k := StrtodLength(c[o..NumberEnd(c, o, 63)]);
            && (k > 0 ==> LongestNumeral(c, o, k))
            && (k == 0 ==> forall n :: IsNumeral(n) && |Spelling(n)| <= 63 ==> !At(c, o, Spelling(n)))
  {
    hide At, Spelling, IsNumeral, StrtodLength, NumberEnd, TakenNumeral;
    var end := NumberEnd(c, o, 63);
    var run := c[o..end];
    var k := StrtodLength(run);
    forall n | IsNumeral(n) && At(c, o, Spelling(n)) && |Spelling(n)| <= 63 ensures 0 < |Spelling(n)| <= k {
      InRun(c, o, n);
      TakesAtLeast(run, n);
      NumeralBytes(n);
    }
    if k > 0 {
      TakesNumeral(run);
      var n := TakenNumeral(run);
      AtSlice(run, 0, Spelling(n));
      assert run[..k] == run[0..k];
      AtInside(c, o, end, Spelling(n));
    }
  }

  lemma LongestIsOne(c: bytes, o: nat, j: nat, k: nat)
    requires LongestNumeral(c, o, j) && LongestNumeral(c, o, k)
    ensures j == k
  {
  }

  /** A number is read if and only if a numeral stands at the offset; then the longest one is,
      and the offset moves behind it. */
  lemma {:induction false} ParseNumberIff(c: bytes, o: nat, v: Json, next: nat)
    requires Terminated(c) && o < |c|
    ensures ParseNumber(c, o) == Ok(v, next)
            <==> o <= next <= |c| && LongestNumeral(c, o, next - o) && v == NumberItem(c[o..next])
  {
    hide At, Spelling, IsNumeral, LongestNumeral, StrtodLength, NumberItem, ParseNumber, NumberEnd;
    var k := StrtodLength(c[o..NumberEnd(c, o, 63)]);
    ParseNumberIs(c, o);
    StrtodTakesLongest(c, o);
    if o <= next <= |c| && LongestNumeral(c, o, next - o) {
      NumeralThere(c, o, next - o);
      LongestIsOne(c, o, k, next - o);
    }
  }

  lemma ParseNumberIs(c: bytes, o: nat)
    requires Terminated(c) && o < |c|
    ensures var end := NumberEnd(c, o, 63);
            var k := StrtodLength(c[o..end]);
            && o + k <= end
            && ParseNumber(c, o) == if k == 0 then Fail(o) else Ok(NumberItem(c[o..o + k]), o + k)
  {
    hide StrtodLength, NumberItem, NumberEnd;
    var end := NumberEnd(c, o, 63);
    assert c[o..end][..StrtodLength(c[o..end])] == c[o..o + StrtodLength(c[o..end])];
  }

  lemma NumeralThere(c: bytes, o: nat, k: nat)
    requires LongestNumeral(c, o, k)
    ensures exists n :: IsNumeral(n) && |Spelling(n)| <= 63 && At(c, o, Spelling(n))
  {
  }

  /** A numeral that is followed by a byte of no number is the longest one. */
  lemma {:induction false} FollowedIsLongest(c: bytes, o: nat, n: Numeral)
    requires IsNumeral(n) && At(c, o, Spelling(n)) && |Spelling(n)| <= 63
    requires o + |Spelling(n)| < |c| ==> !IsNumberByte(c[o + |Spelling(n)|])
    ensures LongestNumeral(c, o, |Spelling(n)|)
  {
    hide At, Spelling, IsNumeral, IsNumberByte;
    var k := |Spelling(n)|;
    forall m | IsNumeral(m) && At(c, o, Spelling(m)) && |Spelling(m)| <= 63 ensures |Spelling(m)| <= k {
      NumeralBytes(m);
      if |Spelling(m)| > k {
        AtIndex(c, o, Spelling(m), k);
      }
    }
  }

  /** Every number in C's notation, of at most 63 bytes and followed by another byte, is
      read whole. */
  lemma {:induction false} NumeralIsRead(c: bytes, o: nat, n: Numeral)
    requires Terminated(c) && IsNumeral(n) && At(c, o, Spelling(n)) && |Spelling(n)| <= 63
    requires o + |Spelling(n)| < |c| && !IsNumberByte(c[o + |Spelling(n)|])
    ensures ParseNumber(c, o) == Ok(NumberItem(Spelling(n)), o + |Spelling(n)|)
  {
    hide At, Spelling, IsNumeral, NumberItem, LongestNumeral, ParseNumber, IsNumberByte;
    FollowedIsLongest(c, o, n);
    AtSlice(c, o, Spelling(n));
    ParseNumberIff(c, o, NumberItem(Spelling(n)), o + |Spelling(n)|);
  }

  // ----- what a literal is worth

  function Value(digits: bytes): (n: nat)
    requires Digits(digits)
  {
    if digits == [] then 0 else (digits[0] - 48) * Pow10(|digits| - 1) + Value(digits[1..])
  }

  lemma {:induction false} ValueAppended(t: bytes, d: byte)
    requires Digits(t) && 48 <= d <= 57
    ensures Digits(t + [d]) && Value(t + [d]) == 10 * Value(t) + (d - 48)
    decreases |t|
  {
    hide Value, Pow10;
    var u := t + [d];
    ValueUnfolds(u);
    ValueUnfolds(t);
    if t == [] {
      OneDigit(d);
      assert u == [d];
    } else {
      assert u[1..] == t[1..] + [d] && u[0] == t[0];
      ValueAppended(t[1..], d);
      TenTimes(t[0] - 48, |t| - 1);
    }
  }

  lemma ValueUnfolds(t: bytes)
    requires Digits(t)
    ensures t == [] ==> Value(t) == 0
    ensures t != [] ==> Digits(t[1..]) && Value(t) == (t[0] - 48) * Pow10(|t| - 1) + Value(t[1..])
  {
  }

  lemma OneDigit(d: byte)
    requires 48 <= d <= 57
    ensures Value([d]) == d - 48
  {
    assert Value([d][1..]) == 0;
  }

  lemma TenTimes(a: int, k: nat)
    ensures a * Pow10(k + 1) == 10 * (a * Pow10(k))
  {
  }

  /** The decimal value by place. */
  lemma {:induction false} DecValueIs(t: bytes)
    requires Digits(t)
    ensures DecValue(t) == Value(t)
  {
    if t != [] {
      var (before, d) := (t[..|t| - 1], t[|t| - 1]);
      assert t == before + [d] && Digits(before) && 48 <= d <= 57;
      DecValueIs(before);
      ValueAppended(before, d);
    }
  }

  /** The value of a numeral without point and exponent. */
  function Worth(n: Numeral): int
    requires IsNumeral(n)
  {
    var v: int := Value(n.whole);
    if n.sign == [45] then -v else v
  }

  /** A numeral becomes a 32-bit integer if it has no point and no exponent and is in range;
      any other one is kept as it is spelled. */
  lemma {:induction false} NumberItemIs(n: Numeral)
    requires IsNumeral(n)
    ensures NumberItem(Spelling(n))
         == if n.fraction.NoPoint? && n.exponent.NoExponent? && -0x8000_0000 <= Worth(n) <= 0x7FFF_FFFF
            then Int(Worth(n)) else Float(Spelling(n))
  {
    hide Value;
    var t := Spelling(n);
    WholeAt(n);
    if n.fraction.NoPoint? && n.exponent.NoExponent? {
      assert t[|n.sign|..] == n.whole;
      DecValueIs(n.whole);
    }
  }

  lemma {:induction false} WholeAt(n: Numeral)
    requires IsNumeral(n)
    ensures var t := Spelling(n);
            && t != [] && SignEnd(t, 0) == |n.sign| && (t[0] == MINUS <==> n.sign == [45])
            && (n.fraction.NoPoint? && n.exponent.NoExponent? <==> IsIntLiteral(t))
  {
    hide At;
    var t := Spelling(n);
    AtSlice(t, 0, t);
    assert t[0..|t|] == t;
    NumeralBytes(n);
    SignStarts(t, n);
    WholeIsTaken(t, n);
    PiecesOfNumeral(t, n);
    if n.sign != [] {
      AtIndex(t, 0, n.sign, 0);
    } else if n.whole != [] {
      AtIndex(t, 0, n.whole, 0);
    } else {
      AtIndex(t, 0, FractionText(n.fraction), 0);
    }
  }

  // ----- what the printer writes

  function IntNumeral(n: int): Numeral {
    Numeral(if n < 0 then [45] else [], DecText(if n < 0 then -n else n), NoPoint, NoExponent)
  }

  /** `%d` text is a numeral without leading zeros. */
  lemma IntTextIsNumeral(n: int)
    ensures IsNumeral(IntNumeral(n)) && Spelling(IntNumeral(n)) == IntText(n)
  {
    hide DecText;
  }

  /** It is the one text of its value without plus, leading zeros or minus zero. */
  lemma {:induction false} IntTextIsShortest(n: int)
    ensures var t := IntText(n);
            && (n < 0 <==> t[0] == 45)
            && (n >= 0 ==> t[0] != 43 && (t[0] == 48 ==> t == [48]))
            && (n < 0 ==> |t| > 1 && t[1] != 48)
  {
    hide DecText;
    NoLeadingZero(if n < 0 then -n else n);
  }

  lemma {:induction false} NoLeadingZero(n: nat)
    ensures DecText(n)[0] == 48 ==> n == 0 && DecText(n) == [48]
    decreases n
  {
    if n >= 10 {
      NoLeadingZero(n / 10);
    }
  }
}
