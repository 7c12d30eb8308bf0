/** Byte strings, and what it means for one text to occur inside another. */
module Bytes {

  type byte = b: int | 0 <= b < 256
  type bytes = seq<byte>

  const QUOTE: byte := 34
  const BACKSLASH: byte := 92
  const COMMA: byte := 44
  const COLON: byte := 58
  const LBRACKET: byte := 91
  const RBRACKET: byte := 93
  const LBRACE: byte := 123
  const RBRACE: byte := 125
  const TAB: byte := 9
  const NEWLINE: byte := 10
  const SPACE: byte := 32
  const MINUS: byte := 45
  const PLUS: byte := 43
  const POINT: byte := 46
  const SLASH: byte := 47
  const LOWER_U: byte := 117

  /** The text `t` occurs in `c` at position `o`. */
  ghost predicate At(c: bytes, o: nat, t: bytes) {
    o + |t| <= |c| && Matches(c, o, t)
  }

  ghost predicate Matches(c: bytes, o: nat, t: bytes)
    requires o + |t| <= |c|
    decreases |t|
  {
    t == [] || (c[o] == t[0] && Matches(c, o + 1, t[1..]))
  }

  /** A C string: no byte before the terminator is NUL. */
  predicate NoNul(t: bytes) {
    forall i :: 0 <= i < |t| ==> t[i] != 0
  }

  lemma {:induction false} AtSlice(c: bytes, o: nat, t: bytes)
    ensures At(c, o, t) <==> o + |t| <= |c| && c[o..o + |t|] == t
    decreases |t|
  {
    if t != [] {
      AtSlice(c, o + 1, t[1..]);
      if o + |t| <= |c| {
        assert c[o..o + |t|] == [c[o]] + c[o + 1..o + |t|];
        assert t == [t[0]] + t[1..];
      }
    }
  }

  lemma AtSplit(c: bytes, o: nat, a: bytes, b: bytes)
    requires At(c, o, a + b)
    ensures At(c, o, a) && At(c, o + |a|, b) && o + |a| + |b| <= |c|
  {
    var t := a + b;
    AtSlice(c, o, t);
    AtSlice(c, o, a);
    AtSlice(c, o + |a|, b);
    assert c[o..o + |a|] == t[..|a|];
    assert c[o + |a|..o + |a| + |b|] == t[|a|..];
  }

  lemma AtJoin(c: bytes, o: nat, a: bytes, b: bytes)
    requires At(c, o, a) && At(c, o + |a|, b)
    ensures At(c, o, a + b)
  {
    AtSlice(c, o, a + b);
    AtSlice(c, o, a);
    AtSlice(c, o + |a|, b);
    assert c[o..o + |a| + |b|] == c[o..o + |a|] + c[o + |a|..o + |a| + |b|];
  }

  lemma AtIndex(c: bytes, o: nat, t: bytes, i: nat)
    requires At(c, o, t) && i < |t|
    ensures o + i < |c| && c[o + i] == t[i] && o + |t| <= |c|
  {
    AtSlice(c, o, t);
    assert c[o..o + |t|][i] == c[o + i];
  }

  lemma AtFirst(c: bytes, o: nat, b: byte, t: bytes)
    requires At(c, o, [b] + t)
    ensures o < |c| && c[o] == b && At(c, o + 1, t)
  {
    AtSplit(c, o, [b], t);
    AtIndex(c, o, [b], 0);
  }

  lemma AtSplit3(c: bytes, o: nat, a: bytes, b: bytes, d: bytes)
    requires At(c, o, a + b + d)
    ensures At(c, o, a) && At(c, o + |a|, b) && At(c, o + |a| + |b|, d)
  {
    AtSplit(c, o, a + b, d);
    AtSplit(c, o, a, b);
  }

  lemma AtSplit5(c: bytes, o: nat, a: bytes, b: bytes, d: bytes, e: bytes, f: bytes)
    requires At(c, o, a + b + d + e + f)
    ensures At(c, o, a) && At(c, o + |a|, b) && At(c, o + |a| + |b|, d)
    ensures At(c, o + |a| + |b| + |d|, e) && At(c, o + |a| + |b| + |d| + |e|, f)
  {
    AtSplit3(c, o, a + b + d, e, f);
    AtSplit3(c, o, a, b, d);
  }
}
