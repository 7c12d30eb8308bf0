/**
 What printed text looks like, byte by byte
 (FederatedLearningServer/src/cJSON.c:544-612, 901-1021, 1366-1438, 1538-1598, 1713-1825).
 */
module JsonLayout {
  import opened Bytes
  import opened JsonText

  /** Parts with a separator between them. */
  function Joined(sep: bytes, parts: seq<bytes>): bytes {
    if parts == [] then []
    else if |parts| == 1 then parts[0]
    else parts[0] + sep + Joined(sep, parts[1..])
  }

  // ----- strings

  /** A string is printed byte by byte, between quotes. */
  lemma {:induction false} QuotedIs(s: bytes)
    ensures Quoted(s) == [34] + Joined([], seq(|s|, i requires 0 <= i < |s| => EscapeByte(s[i]))) + [34]
  {
    EscapedIs(s);
  }

  lemma {:induction false} EscapedIs(s: bytes)
    ensures Escaped(s) == Joined([], seq(|s|, i requires 0 <= i < |s| => EscapeByte(s[i])))
  {
    var parts := seq(|s|, i requires 0 <= i < |s| => EscapeByte(s[i]));
    if s != [] {
      EscapedIs(s[1..]);
      assert parts[1..] == seq(|s[1..]|, i requires 0 <= i < |s[1..]| => EscapeByte(s[1..][i]));
      if |s| == 1 {
        assert Escaped(s[1..]) == [];
      }
    }
  }

  /** Which bytes are escaped, and how: quote, backslash and the named controls with a letter,
      the other controls with two lower-case hexadecimal digits, nothing else. */
  lemma EscapeIs(b: byte)
    ensures var t := EscapeByte(b);
            && (b == 34 || b == 92 ==> t == [92, b])
            && (b == 8 ==> t == [92, 'b' as int]) && (b == 12 ==> t == [92, 'f' as int])
            && (b == 10 ==> t == [92, 'n' as int]) && (b == 13 ==> t == [92, 'r' as int])
            && (b == 9 ==> t == [92, 't' as int])
            && (b >= 32 && b != 34 && b != 92 ==> t == [b])
            && (b < 32 && b != 8 && b != 9 && b != 10 && b != 12 && b != 13 ==>
                  t == [92, 'u' as int, 48, 48, "0123456789abcdef"[b / 16] as int, "0123456789abcdef"[b % 16] as int])
  {
  }

  // ----- containers

  function Texts(items: seq<Json>, fmt: bool, d: nat): (ts: seq<bytes>)
    ensures |ts| == |items| && forall i :: 0 <= i < |items| ==> ts[i] == Text(items[i], fmt, d)
  {
    seq(|items|, i requires 0 <= i < |items| => Text(items[i], fmt, d))
  }

  lemma {:induction false} ItemsAreJoined(items: seq<Json>, fmt: bool, d: nat)
    ensures ItemsText(items, fmt, d) == Joined(if fmt then [44, 32] else [44], Texts(items, fmt, d))
    decreases |items|
  {
    hide Text;
    if |items| > 1 {
      ItemsAreJoined(items[1..], fmt, d);
      assert Texts(items, fmt, d)[1..] == Texts(items[1..], fmt, d);
    }
  }

  /** An array: brackets, and commas between the items, followed by a space if formatted. */
  lemma {:induction false} ArrayIs(items: seq<Json>, fmt: bool, d: nat)
    ensures Text(Arr(items), fmt, d) == [91] + Joined(if fmt then [44, 32] else [44], Texts(items, fmt, d + 1)) + [93]
  {
    hide ItemsText;
    ItemsAreJoined(items, fmt, d + 1);
  }

  function TabStops(n: nat): bytes {
    if n == 0 then [] else [9] + TabStops(n - 1)
  }

  lemma {:induction false} TabsAre(n: nat)
    ensures Tabs(n) == TabStops(n)
  {
    if n > 0 {
      TabsAre(n - 1);
      assert Tabs(n) == [9] + Tabs(n - 1);
    }
  }

  /** A member without the comma after it: formatted, on a line of its own, indented, and
      with a tab behind the colon. */
  function Entry(m: Member, fmt: bool, d: nat): bytes {
    if fmt then TabStops(d) + Quoted(m.key) + [58, 9] + Text(m.value, true, d)
    else Quoted(m.key) + [58] + Text(m.value, false, d)
  }

  function Entries(members: seq<Member>, fmt: bool, d: nat): (es: seq<bytes>)
    ensures |es| == |members| && forall i :: 0 <= i < |members| ==> es[i] == Entry(members[i], fmt, d)
  {
    seq(|members|, i requires 0 <= i < |members| => Entry(members[i], fmt, d))
  }

  lemma {:induction false} MemberIsEntry(m: Member, more: bool, fmt: bool, d: nat)
    ensures MemberText(m, more, fmt, d) == Entry(m, fmt, d) + (if more then [44] else []) + (if fmt then [10] else [])
  {
    hide Text, Quoted, Tabs;
    TabsAre(d);
  }

  lemma {:induction false} MembersAreJoined(members: seq<Member>, fmt: bool, d: nat)
    requires members != []
    ensures MembersText(members, fmt, d)
         == Joined(if fmt then [44, 10] else [44], Entries(members, fmt, d)) + (if fmt then [10] else [])
    decreases |members|
  {
    hide Entry, MemberText;
    MemberIsEntry(members[0], |members| > 1, fmt, d);
    if |members| > 1 {
      MembersAreJoined(members[1..], fmt, d);
      assert Entries(members, fmt, d)[1..] == Entries(members[1..], fmt, d);
    } else {
      NoMembers(members[1..], fmt, d);
    }
  }

  lemma NoMembers(members: seq<Member>, fmt: bool, d: nat)
    requires members == []
    ensures MembersText(members, fmt, d) == []
  {
  }

  /** An object without formatting: braces, and commas between the members. */
  lemma {:induction false} ObjectIs(members: seq<Member>, d: nat)
    ensures Text(Obj(members), false, d) == [123] + Joined([44], Entries(members, false, d + 1)) + [125]
  {
    hide MembersText;
    if members == [] {
      NoMembers(members, false, d + 1);
    } else {
      MembersAreJoined(members, false, d + 1);
    }
  }

  /** With formatting: a line break after the opening brace and after every member, and the
      closing brace indented as the line that opens it. */
  lemma {:induction false} FormattedObjectIs(members: seq<Member>, d: nat)
    ensures Text(Obj(members), true, d)
         == [123, 10] + (if members == [] then [] else Joined([44, 10], Entries(members, true, d + 1)) + [10])
            + TabStops(d) + [125]
  {
    hide MembersText, Tabs, Joined, Entries, TabStops;
    TabsAre(d);
    if members == [] {
      NoMembers(members, true, d + 1);
    } else {
      MembersAreJoined(members, true, d + 1);
    }
  }

  /** The words and the other leaves. */
  lemma LeavesAre(v: Json, fmt: bool, d: nat)
    ensures match v
            case Null => Text(v, fmt, d) == ['n' as int, 'u' as int, 'l' as int, 'l' as int]
            case Bool(true) => Text(v, fmt, d) == ['t' as int, 'r' as int, 'u' as int, 'e' as int]
            case Bool(false) => Text(v, fmt, d) == ['f' as int, 'a' as int, 'l' as int, 's' as int, 'e' as int]
            case Int(n) => Text(v, fmt, d) == IntText(n)
            case Float(t) => Text(v, fmt, d) == t
            case Str(s) => Text(v, fmt, d) == Quoted(s)
            case _ => true
  {
  }
}
