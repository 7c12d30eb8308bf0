/**
 Why a model that the client prints and sends arrives exactly once and in order, however
 the WebSocket library cuts it up, as long as no string in it contains a brace
 (FederatedLearningServer/src/websocketserver.c:110-189,
 FederatedLearningESP32/components/websocket/websocketclient.c:40-50).
 */
module Delivery {
  import opened Bytes
  import opened JsonText
  import opened JsonGrammar
  import RoundTrip = JsonRoundTrip
  import Printer = JsonPrinter
  import opened MessageQueues
  import opened Frames
  import opened Reassembly

  // ----- brace depth

  function Balance(s: bytes): int {
    Occurrences(s, LBRACE) - Occurrences(s, RBRACE)
  }

  lemma {:induction false} OccurrencesJoin(a: bytes, c: bytes, b: byte)
    ensures Occurrences(a + c, b) == Occurrences(a, b) + Occurrences(c, b)
    decreases |c|
  {
    if c == [] {
      assert a + c == a;
    } else {
      OccurrencesJoin(a, c[..|c| - 1], b);
      assert (a + c)[..|a + c| - 1] == a + c[..|c| - 1];
    }
  }

  lemma BalanceJoin(a: bytes, c: bytes)
    ensures Balance(a + c) == Balance(a) + Balance(c)
  {
    OccurrencesJoin(a, c, LBRACE);
    OccurrencesJoin(a, c, RBRACE);
  }

  /** Every prefix has at least as many opening as closing braces, and the whole as many. */
  predicate Balanced(s: bytes) {
    Balance(s) == 0 && forall k :: 0 <= k <= |s| ==> Balance(s[..k]) >= 0
  }

  lemma BalancedJoin(a: bytes, c: bytes)
    requires Balanced(a) && Balanced(c)
    ensures Balanced(a + c)
  {
    hide Balance;
    BalanceJoin(a, c);
    forall k | 0 <= k <= |a + c| ensures Balance((a + c)[..k]) >= 0 {
      if k <= |a| {
        assert (a + c)[..k] == a[..k];
      } else {
        assert (a + c)[..k] == a + c[..k - |a|];
        BalanceJoin(a, c[..k - |a|]);
      }
    }
  }

  predicate Unbraced(s: bytes) {
    forall i :: 0 <= i < |s| ==> s[i] != LBRACE && s[i] != RBRACE
  }

  lemma {:induction false} UnbracedIsFlat(s: bytes)
    requires Unbraced(s)
    ensures Occurrences(s, LBRACE) == Occurrences(s, RBRACE) == 0
    decreases |s|
  {
    if s != [] {
      UnbracedIsFlat(s[..|s| - 1]);
    }
  }

  lemma UnbracedIsBalanced(s: bytes)
    requires Unbraced(s)
    ensures Balanced(s)
  {
    UnbracedIsFlat(s);
    forall k | 0 <= k <= |s| ensures Balance(s[..k]) >= 0 {
      UnbracedIsFlat(s[..k]);
    }
  }

  /** A text whose opening brace is closed by its last byte and no earlier one. */
  predicate Enclosed(t: bytes) {
    && t != [] && t[0] == LBRACE && Balance(t) == 0
    && forall k :: 0 < k < |t| ==> Balance(t[..k]) > 0
  }

  lemma OneByte(b: byte)
    ensures Balance([b]) == if b == LBRACE then 1 else if b == RBRACE then -1 else 0
    ensures Balance([]) == 0
  {
    assert [b][..0] == [];
  }

  lemma BracesEnclose(body: bytes)
    requires Balanced(body)
    ensures Enclosed([LBRACE] + body + [RBRACE])
  {
    hide Balance;
    var t := [LBRACE] + body + [RBRACE];
    OneByte(LBRACE);
    OneByte(RBRACE);
    BalanceJoin([LBRACE], body);
    BalanceJoin([LBRACE] + body, [RBRACE]);
    forall k | 0 < k < |t| ensures Balance(t[..k]) > 0 {
      assert t[..k] == [LBRACE] + body[..k - 1];
      BalanceJoin([LBRACE], body[..k - 1]);
    }
  }

  lemma EnclosedIsBalanced(t: bytes)
    requires Enclosed(t)
    ensures Balanced(t)
  {
    forall k | 0 <= k <= |t| ensures Balance(t[..k]) >= 0 {
      if k == |t| {
        assert t[..k] == t;
      }
    }
  }

  // ----- braces of printed items

  /** No string and no key contains a brace. */
  predicate BraceFree(v: Json) {
    match v
    case Str(s) => Unbraced(s)
    case Arr(items) => forall i :: 0 <= i < |items| ==> BraceFree(items[i])
    case Obj(members) => forall i :: 0 <= i < |members| ==> Unbraced(members[i].key) && BraceFree(members[i].value)
    case _ => true
  }

  lemma {:induction false} EscapedUnbraced(s: bytes)
    requires Unbraced(s)
    ensures Unbraced(Quoted(s)) && Unbraced(Escaped(s))
    decreases |s|
  {
    if s != [] {
      EscapedUnbraced(s[1..]);
    }
  }

  lemma LeafBalanced(v: Json, fmt: bool, d: nat)
    requires Printable(v) && BraceFree(v) && !v.Arr? && !v.Obj?
    ensures Balanced(Text(v, fmt, d))
  {
    hide Balanced, Escaped, IntText, FloatLiteral;
    if v.Str? {
      EscapedUnbraced(v.s);
    } else if v.Float? {
      FloatBytes(v.literal);
    }
    UnbracedIsBalanced(Text(v, fmt, d));
  }

  lemma {:induction false} ArrayBalanced(items: seq<Json>, fmt: bool, d: nat)
    requires Balanced(ItemsText(items, fmt, d + 1))
    ensures Balanced(Text(Arr(items), fmt, d))
  {
    hide Balanced, ItemsText;
    UnbracedIsBalanced([LBRACKET]);
    UnbracedIsBalanced([RBRACKET]);
    BalancedJoin([LBRACKET], ItemsText(items, fmt, d + 1));
    BalancedJoin([LBRACKET] + ItemsText(items, fmt, d + 1), [RBRACKET]);
  }

  lemma {:induction false} ObjectBalanced(members: seq<Member>, fmt: bool, d: nat)
    requires Balanced(MembersText(members, fmt, d + 1))
    ensures Balanced(Text(Obj(members), fmt, d)) && Enclosed(Text(Obj(members), fmt, d))
  {
    hide Balanced, Enclosed, MembersText;
    ObjectEnclosed(Break(fmt), MembersText(members, fmt, d + 1), Indent(fmt, d));
  }

  lemma {:induction false} TextBalanced(v: Json, fmt: bool, d: nat)
    requires Printable(v) && BraceFree(v)
    ensures Balanced(Text(v, fmt, d)) && (v.Obj? ==> Enclosed(Text(v, fmt, d)))
    decreases v, 1
  {
    hide Balanced, Enclosed, Text, ItemsText, MembersText, FloatLiteral;
    match v
    case Arr(items) =>
      ItemsBalanced(items, fmt, d + 1);
      ArrayBalanced(items, fmt, d);
    case Obj(members) =>
      MembersBalanced(members, fmt, d + 1);
      ObjectBalanced(members, fmt, d);
    case _ =>
      LeafBalanced(v, fmt, d);
  }

  lemma ObjectEnclosed(a: bytes, body: bytes, z: bytes)
    requires Unbraced(a) && Unbraced(z) && Balanced(body)
    ensures Enclosed([LBRACE] + a + body + z + [RBRACE]) && Balanced([LBRACE] + a + body + z + [RBRACE])
  {
    hide Balanced, Enclosed;
    UnbracedIsBalanced(a);
    UnbracedIsBalanced(z);
    BalancedJoin(a, body);
    BalancedJoin(a + body, z);
    BracesEnclose(a + body + z);
    assert [LBRACE] + (a + body + z) + [RBRACE] == [LBRACE] + a + body + z + [RBRACE];
    EnclosedIsBalanced([LBRACE] + a + body + z + [RBRACE]);
  }

  lemma {:induction false} ItemsBalanced(items: seq<Json>, fmt: bool, d: nat)
    requires forall i :: 0 <= i < |items| ==> Printable(items[i]) && BraceFree(items[i])
    ensures Balanced(ItemsText(items, fmt, d))
    decreases items, 0
  {
    hide Balanced, Enclosed;
    if items == [] {
      UnbracedIsBalanced([]);
    } else {
      TextBalanced(items[0], fmt, d);
      ItemsBalanced(items[1..], fmt, d);
      UnbracedIsBalanced(Comma(fmt));
      BalancedJoin(Text(items[0], fmt, d), Comma(fmt));
      BalancedJoin(Text(items[0], fmt, d) + Comma(fmt), ItemsText(items[1..], fmt, d));
    }
  }

  lemma {:induction false} MembersBalanced(members: seq<Member>, fmt: bool, d: nat)
    requires forall i :: 0 <= i < |members| ==>
               Unbraced(members[i].key) && Printable(members[i].value) && BraceFree(members[i].value)
    ensures Balanced(MembersText(members, fmt, d))
    decreases members, 0
  {
    hide Balanced, Enclosed;
    if members == [] {
      UnbracedIsBalanced([]);
    } else {
      var m := members[0];
      TextBalanced(m.value, fmt, d);
      MembersBalanced(members[1..], fmt, d);
      MemberBalanced(Indent(fmt, d), m.key, Colon(fmt), Text(m.value, fmt, d), MemberEnd(fmt, |members| > 1));
      BalancedJoin(MemberText(m, |members| > 1, fmt, d), MembersText(members[1..], fmt, d));
    }
  }

  lemma MemberBalanced(a: bytes, key: bytes, b: bytes, value: bytes, z: bytes)
    requires Unbraced(a) && Unbraced(key) && Unbraced(b) && Balanced(value) && Unbraced(z)
    ensures Balanced(a + Quoted(key) + b + value + z)
  {
    hide Balanced;
    EscapedUnbraced(key);
    UnbracedIsBalanced(a + Quoted(key) + b);
    UnbracedIsBalanced(z);
    BalancedJoin(a + Quoted(key) + b, value);
    BalancedJoin(a + Quoted(key) + b + value, z);
  }

  // ----- any chunking delivers once

  /** All pieces of the data in order, up to the first that is refused. */
  function ReceiveAll(r: Received, chunks: seq<bytes>, ip: string): (Received, bool)
    decreases |chunks|
  {
    if chunks == [] then (r, true)
    else
      var (s, ok) := Receive(r, chunks[0], ip);
      if ok then ReceiveAll(s, chunks[1..], ip) else (s, false)
  }

  function Concat(chunks: seq<bytes>): bytes {
    if chunks == [] then [] else chunks[0] + Concat(chunks[1..])
  }

  /** A buffer is complete exactly when it is the whole of an enclosed text. */
  lemma CompleteIff(t: bytes, k: nat)
    requires Enclosed(t) && k <= |t|
    ensures Complete(t[..k]) <==> k == |t|
  {
    assert t[..|t|] == t;
    assert t[..1] == [LBRACE];
    OneByte(LBRACE);
    if k == |t| {
      OneOpens(t);
    }
  }

  lemma OneOpens(t: bytes)
    requires t != [] && t[0] == LBRACE
    ensures Occurrences(t, LBRACE) > 0
  {
    OneByte(LBRACE);
    OccurrencesJoin([LBRACE], t[1..], LBRACE);
    assert [LBRACE] + t[1..] == t;
    assert [LBRACE][..0] == [];
  }

  /** The rest of an enclosed text completes what is in the buffer, in whatever pieces it comes. */
  lemma {:induction false} RestDelivers(t: bytes, k: nat, q: seq<Message>, chunks: seq<bytes>, ip: string)
    requires Enclosed(t) && NoNul(t) && |t| <= MAX_JSON_SIZE
    requires k < |t| && Concat(chunks) == t[k..]
    ensures ReceiveAll(Received(t[..k], q), chunks, ip) == (Received([], q + [Message(t, |t|, ip)]), true)
    decreases |chunks|
  {
    hide Enclosed, Complete;
    assert chunks != [];
    var (chunk, rest) := (chunks[0], chunks[1..]);
    var n := k + |chunk|;
    assert t[k..] == chunk + Concat(rest);
    assert t[..k] + chunk == t[..n] by {
      assert t[k..][..|chunk|] == chunk;
    }
    assert Concat(rest) == t[n..] by {
      assert t[k..][|chunk|..] == Concat(rest);
    }
    CompleteIff(t, n);
    if n == |t| {
      assert t[..n] == t;
      NothingLeft(q + [Message(t, |t|, ip)], rest, ip);
    } else {
      RestDelivers(t, n, q, rest, ip);
    }
  }

  lemma {:induction false} NothingLeft(q: seq<Message>, chunks: seq<bytes>, ip: string)
    requires Concat(chunks) == []
    ensures ReceiveAll(Received([], q), chunks, ip) == (Received([], q), true)
    decreases |chunks|
  {
    if chunks != [] {
      assert chunks[0] == [] && Concat(chunks[1..]) == [];
      assert [] + chunks[0] == [];
      NothingLeft(q, chunks[1..], ip);
    }
  }

  /** A message and the pieces in which it arrives. */
  datatype Arrival = Arrival(text: bytes, chunks: seq<bytes>, ip: string)

  function ReceiveInTurn(r: Received, arrivals: seq<Arrival>): Received
    decreases |arrivals|
  {
    if arrivals == [] then r
    else ReceiveInTurn(ReceiveAll(r, arrivals[0].chunks, arrivals[0].ip).0, arrivals[1..])
  }

  predicate Deliverable(a: Arrival) {
    Enclosed(a.text) && NoNul(a.text) && |a.text| <= MAX_JSON_SIZE && Concat(a.chunks) == a.text
  }

  function Messages(arrivals: seq<Arrival>): seq<Message> {
    if arrivals == [] then []
    else [Message(arrivals[0].text, |arrivals[0].text|, arrivals[0].ip)] + Messages(arrivals[1..])
  }

  lemma OneArrives(q: seq<Message>, a: Arrival)
    requires Deliverable(a)
    ensures ReceiveAll(Received([], q), a.chunks, a.ip).0 == Received([], q + [Message(a.text, |a.text|, a.ip)])
  {
    hide Enclosed, ReceiveAll;
    NotEmpty(a.text);
    assert a.text[..0] == [] && a.text[0..] == a.text;
    RestDelivers(a.text, 0, q, a.chunks, a.ip);
  }

  /** One after the other, messages are queued exactly once each and in order. */
  lemma {:induction false} DeliveredInOrder(q: seq<Message>, arrivals: seq<Arrival>)
    requires forall i :: 0 <= i < |arrivals| ==> Deliverable(arrivals[i])
    ensures ReceiveInTurn(Received([], q), arrivals) == Received([], q + Messages(arrivals))
    decreases |arrivals|
  {
    if arrivals == [] {
      assert q + [] == q;
    } else {
      hide ReceiveAll, Deliverable, Receive, Complete, Concat;
      var (a, rest) := (arrivals[0], arrivals[1..]);
      var m := Message(a.text, |a.text|, a.ip);
      OneArrives(q, a);
      DeliveredInOrder(q + [m], rest);
      assert q + [m] + Messages(rest) == q + ([m] + Messages(rest));
    }
  }

  /** From the client's items to the server's: an object without braces in its strings is
      printed, cut into frames, received in any pieces, queued once, and parses back. */
  lemma ModelTravels(v: Json, fmt: bool, op: Opcode, size: nat, answers: seq<int>, chunks: seq<bytes>,
                     q: seq<Message>, ip: string)
    requires Printable(v) && v.Obj? && BraceFree(v) && Depth(v) <= NESTING_LIMIT
    requires |Text(v, fmt, 0)| <= MAX_JSON_SIZE && size > 0
    requires Serves(|Text(v, fmt, 0)|, op, size, answers, 0)
    requires Concat(chunks) == Payload(Sent(Text(v, fmt, 0), 0, op, op.fin, size, answers, 0).0)
    ensures var m := Message(Text(v, fmt, 0), |Text(v, fmt, 0)|, ip);
            && ReceiveAll(Received([], q), chunks, ip) == (Received([], q + [m]), true)
            && Parse(m.text[..m.length]) == Ok(v, m.length)
  {
    hide Text, Enclosed, Sent, Serves, AllWhole, Balanced, Printable, Parse;
    var t := Text(v, fmt, 0);
    TextBalanced(v, fmt, 0);
    Printer.TextNoNul(v, fmt, 0);
    NotEmpty(t);
    SentWholeIff(t, 0, op, op.fin, size, answers, 0);
    PayloadsAreTheData(t, 0, op, op.fin, size, answers, 0);
    assert t[0..] == t && t[..0] == [] && t[..|t|] == t;
    RestDelivers(t, 0, q, chunks, ip);
    RoundTrip.ParseUndoesPrint(v, fmt);
  }

  lemma NotEmpty(t: bytes)
    requires Enclosed(t)
    ensures t != []
  {
  }

  // ----- exactly which texts arrive whole

  /** However the text is cut, it is queued once and leaves the buffer empty. */
  ghost predicate AlwaysArrives(t: bytes) {
    forall q: seq<Message>, chunks: seq<bytes>, ip: string | Concat(chunks) == t ::
      ReceiveAll(Received([], q), chunks, ip) == (Received([], q + [Message(t, |t|, ip)]), true)
  }

  /** The balance moves by at most one per byte, so that it meets zero on its way down. */
  lemma {:induction false} FirstZero(t: bytes, k: nat, n: nat) returns (z: nat)
    requires k <= n <= |t| && Balance(t[..k]) > 0 && Balance(t[..n]) <= 0
    ensures k < z <= n && Balance(t[..z]) == 0
    decreases n - k
  {
    BalanceStep(t, k);
    if Balance(t[..k + 1]) <= 0 {
      z := k + 1;
    } else {
      z := FirstZero(t, k + 1, n);
    }
  }

  lemma BalanceStep(t: bytes, k: nat)
    requires k < |t|
    ensures Balance(t[..k]) - 1 <= Balance(t[..k + 1]) <= Balance(t[..k]) + 1
  {
    assert t[..k + 1][..k] == t[..k];
  }

  /** A text that begins with a brace arrives in all pieces if and only if the brace is
      closed by its last byte and no earlier one. */
  lemma ArrivesIff(t: bytes)
    requires t != [] && t[0] == LBRACE && NoNul(t) && |t| <= MAX_JSON_SIZE
    ensures AlwaysArrives(t) <==> Enclosed(t)
  {
    hide Balance, ReceiveAll;
    if Enclosed(t) {
      forall q: seq<Message>, chunks: seq<bytes>, ip: string | Concat(chunks) == t
        ensures ReceiveAll(Received([], q), chunks, ip) == (Received([], q + [Message(t, |t|, ip)]), true)
      {
        assert t[..0] == [] && t[0..] == t;
        RestDelivers(t, 0, q, chunks, ip);
      }
    } else if Balance(t) != 0 {
      StaysInBuffer(t);
      assert Concat([t]) == t;
    } else {
      var k :| 0 < k < |t| && Balance(t[..k]) <= 0;
      OneByte(LBRACE);
      assert t[..1] == [LBRACE];
      var z := FirstZero(t, 1, k);
      TakenTooEarly(t, z);
    }
  }

  lemma StaysInBuffer(t: bytes)
    requires t != [] && Balance(t) != 0 && |t| <= MAX_JSON_SIZE
    ensures Concat([t]) == t && ReceiveAll(Received([], []), [t], "a").0.buffer == t
  {
    assert [] + t == t && [t][1..] == [];
    assert Concat([]) == [] && t + [] == t;
  }

  lemma TakenTooEarly(t: bytes, z: nat)
    requires 0 < z < |t| && t[0] == LBRACE && Balance(t[..z]) == 0 && |t| <= MAX_JSON_SIZE
    ensures !AlwaysArrives(t)
  {
    hide Balance, Concat, Receive, ReceiveAll, Complete, CString;
    var (a, b) := (t[..z], t[z..]);
    TakenAtOnce(a);
    TwoPieces(a, b);
    assert a + b == t;
    AfterFirst(a, b, Received([], [Message(CString(a), z, "a")]));
    assert [] + [Message(t, |t|, "a")] == [Message(t, |t|, "a")];
  }

  lemma TakenAtOnce(a: bytes)
    requires a != [] && a[0] == LBRACE && Balance(a) == 0 && |a| <= MAX_JSON_SIZE
    ensures Receive(Received([], []), a, "a") == (Received([], [Message(CString(a), |a|, "a")]), true)
  {
    OneOpens(a);
    assert [] + a == a && Complete(a) by { BalanceIs(a); }
    assert [] + [Message(CString(a), |a|, "a")] == [Message(CString(a), |a|, "a")];
  }

  lemma BalanceIs(s: bytes)
    ensures Balance(s) == Occurrences(s, LBRACE) - Occurrences(s, RBRACE)
  {
  }

  lemma TwoPieces(a: bytes, b: bytes)
    ensures Concat([a, b]) == a + b
  {
    assert [a, b][1..] == [b] && [b][1..] == [];
    assert Concat([b]) == b + Concat([]) == b;
  }

  lemma AfterFirst(a: bytes, b: bytes, r: Received)
    requires Receive(Received([], []), a, "a") == (r, true) && r.queue != []
    ensures ReceiveAll(Received([], []), [a, b], "a").0.queue != []
    ensures ReceiveAll(Received([], []), [a, b], "a").0.queue[0] == r.queue[0]
  {
    hide Complete;
    assert [a, b][1..] == [b] && [b][1..] == [];
    var s := Receive(r, b, "a");
    assert ReceiveAll(r, [b], "a") == if s.1 then ReceiveAll(s.0, [], "a") else (s.0, false);
  }

  /** Of the printed objects, exactly the enclosed ones arrive in all pieces. */
  lemma ObjectArrivesIff(v: Json, fmt: bool)
    requires Printable(v) && v.Obj? && |Text(v, fmt, 0)| <= MAX_JSON_SIZE
    ensures AlwaysArrives(Text(v, fmt, 0)) <==> Enclosed(Text(v, fmt, 0))
  {
    hide Printable, Enclosed, AlwaysArrives;
    Printer.TextNoNul(v, fmt, 0);
    ArrivesIff(Text(v, fmt, 0));
  }

  // ----- what is queued of any arrivals

  /** How much of a text is taken before a piece of it is refused, `k` bytes being there. */
  function Kept(k: nat, chunks: seq<bytes>): nat
    decreases |chunks|
  {
    if chunks == [] || k + |chunks[0]| > MAX_JSON_SIZE then k else Kept(k + |chunks[0]|, chunks[1..])
  }

  /** With an unclosed brace in the buffer nothing is queued, and it stays unclosed. */
  lemma {:induction false} LeftoverBlocks(left: bytes, t: bytes, k: nat, q: seq<Message>, chunks: seq<bytes>,
                                          ip: string)
    requires Balance(left) > 0 && Balanced(t) && k <= |t| && Concat(chunks) == t[k..]
    ensures var r := ReceiveAll(Received(left + t[..k], q), chunks, ip).0;
            r.queue == q && Balance(r.buffer) > 0
    decreases |chunks|
  {
    hide Balanced;
    BalanceJoin(left, t[..k]);
    PrefixOfBalanced(t, k);
    if chunks != [] {
      var (chunk, rest) := (chunks[0], chunks[1..]);
      var n := k + |chunk|;
      assert t[k..] == chunk + Concat(rest);
      assert t[..k] + chunk == t[..n] by {
        assert t[k..][..|chunk|] == chunk;
      }
      assert left + t[..k] + chunk == left + t[..n];
      assert Concat(rest) == t[n..] by {
        assert t[k..][|chunk|..] == Concat(rest);
      }
      BalanceJoin(left, t[..n]);
      PrefixOfBalanced(t, n);
      LeftoverBlocks(left, t, n, q, rest, ip);
    }
  }

  lemma PrefixOfBalanced(t: bytes, k: nat)
    requires Balanced(t) && k <= |t|
    ensures Balance(t[..k]) >= 0
  {
  }

  predicate Proper(a: Arrival) {
    Enclosed(a.text) && NoNul(a.text) && Concat(a.chunks) == a.text
  }

  /** Whatever follows an unclosed brace is lost, for good. */
  lemma {:induction false} BlockedForGood(left: bytes, q: seq<Message>, arrivals: seq<Arrival>)
    requires Balance(left) > 0 && forall i :: 0 <= i < |arrivals| ==> Proper(arrivals[i])
    ensures ReceiveInTurn(Received(left, q), arrivals).queue == q
    decreases |arrivals|
  {
    if arrivals != [] {
      hide ReceiveAll, Enclosed, Balance, Concat;
      var (a, rest) := (arrivals[0], arrivals[1..]);
      assert Proper(a);
      EnclosedIsBalanced(a.text);
      assert a.text[..0] == [] && a.text[0..] == a.text && left + a.text[..0] == left;
      LeftoverBlocks(left, a.text, 0, q, a.chunks, a.ip);
      BlockedForGood(ReceiveAll(Received(left, q), a.chunks, a.ip).0.buffer, q, rest);
    }
  }

  /** A text that is too long is refused, and what was taken of it stays in the buffer. */
  lemma {:induction false} TooLongIsRefused(t: bytes, k: nat, q: seq<Message>, chunks: seq<bytes>, ip: string)
    requires Enclosed(t) && |t| > MAX_JSON_SIZE && k <= MAX_JSON_SIZE && Concat(chunks) == t[k..]
    ensures k <= Kept(k, chunks) <= MAX_JSON_SIZE
    ensures ReceiveAll(Received(t[..k], q), chunks, ip) == (Received(t[..Kept(k, chunks)], q), false)
    decreases |chunks|
  {
    hide Enclosed, Complete;
    assert chunks != [];
    var (chunk, rest) := (chunks[0], chunks[1..]);
    var n := k + |chunk|;
    assert t[k..] == chunk + Concat(rest);
    assert t[..k] + chunk == t[..n] by {
      assert t[k..][..|chunk|] == chunk;
    }
    assert Concat(rest) == t[n..] by {
      assert t[k..][|chunk|..] == Concat(rest);
    }
    CompleteIff(t, n);
    if n <= MAX_JSON_SIZE {
      TooLongIsRefused(t, n, q, rest, ip);
    }
  }

  /** The messages that are queued, starting from an empty buffer: a text that is too long
      is lost, and if any byte of it was taken so is everything after it. */
  function Queued(arrivals: seq<Arrival>): seq<Message> {
    if arrivals == [] then []
    else
      var a := arrivals[0];
      if |a.text| <= MAX_JSON_SIZE then [Message(a.text, |a.text|, a.ip)] + Queued(arrivals[1..])
      else if Kept(0, a.chunks) == 0 then Queued(arrivals[1..])
      else []
  }

  lemma PrefixIsOpen(t: bytes, k: nat)
    requires Enclosed(t) && 0 < k < |t|
    ensures Balance(t[..k]) > 0
  {
  }

  lemma OneIsLost(q: seq<Message>, a: Arrival)
    requires Proper(a) && |a.text| > MAX_JSON_SIZE
    ensures var k := Kept(0, a.chunks);
            && k < |a.text| && ReceiveAll(Received([], q), a.chunks, a.ip).0 == Received(a.text[..k], q)
            && (k > 0 ==> Balance(a.text[..k]) > 0)
  {
    hide Enclosed, ReceiveAll, Balance;
    assert a.text[..0] == [] && a.text[0..] == a.text;
    TooLongIsRefused(a.text, 0, q, a.chunks, a.ip);
    if Kept(0, a.chunks) > 0 {
      PrefixIsOpen(a.text, Kept(0, a.chunks));
    }
  }

  /** What becomes of any messages, in any pieces and of any lengths. */
  lemma {:induction false} ExactlyQueued(q: seq<Message>, arrivals: seq<Arrival>)
    requires forall i :: 0 <= i < |arrivals| ==> Proper(arrivals[i])
    ensures ReceiveInTurn(Received([], q), arrivals).queue == q + Queued(arrivals)
    decreases |arrivals|
  {
    hide ReceiveAll, Proper, Kept;
    if arrivals == [] {
      assert q + [] == q;
    } else {
      var (a, rest) := (arrivals[0], arrivals[1..]);
      var m := Message(a.text, |a.text|, a.ip);
      assert Proper(a) && forall i :: 0 <= i < |rest| ==> rest[i] == arrivals[i + 1];
      if |a.text| <= MAX_JSON_SIZE {
        OneFits(q, a);
        ExactlyQueued(q + [m], rest);
        assert q + [m] + Queued(rest) == q + ([m] + Queued(rest));
      } else {
        OneIsLost(q, a);
        if Kept(0, a.chunks) == 0 {
          ExactlyQueued(q, rest);
        } else {
          BlockedForGood(a.text[..Kept(0, a.chunks)], q, rest);
        }
      }
    }
  }

  lemma OneFits(q: seq<Message>, a: Arrival)
    requires Proper(a) && |a.text| <= MAX_JSON_SIZE
    ensures ReceiveAll(Received([], q), a.chunks, a.ip).0 == Received([], q + [Message(a.text, |a.text|, a.ip)])
  {
    OneArrives(q, a);
  }

  lemma {:induction false} QueuedIff(arrivals: seq<Arrival>)
    ensures |Queued(arrivals)| <= |arrivals|
    ensures Queued(arrivals) == Messages(arrivals)
            <==> forall i :: 0 <= i < |arrivals| ==> |arrivals[i].text| <= MAX_JSON_SIZE
    decreases |arrivals|
  {
    if arrivals != [] {
      var rest := arrivals[1..];
      QueuedIff(rest);
      MessagesLength(rest);
      MessagesLength(arrivals);
      assert forall i :: 0 <= i < |rest| ==> rest[i] == arrivals[i + 1];
      if |arrivals[0].text| <= MAX_JSON_SIZE {
        assert Queued(arrivals)[1..] == Queued(rest) && Messages(arrivals)[1..] == Messages(rest);
        assert forall i :: 1 <= i < |arrivals| ==> arrivals[i] == rest[i - 1];
      }
    }
  }

  lemma {:induction false} MessagesLength(arrivals: seq<Arrival>)
    ensures |Messages(arrivals)| == |arrivals|
  {
    if arrivals != [] {
      MessagesLength(arrivals[1..]);
    }
  }

  /** All messages are queued, once each and in order, if and only if all of them fit. */
  lemma AllQueuedIff(q: seq<Message>, arrivals: seq<Arrival>)
    requires forall i :: 0 <= i < |arrivals| ==> Proper(arrivals[i])
    ensures ReceiveInTurn(Received([], q), arrivals).queue == q + Messages(arrivals)
            <==> forall i :: 0 <= i < |arrivals| ==> |arrivals[i].text| <= 16384
  {
    hide ReceiveInTurn, Proper;
    ExactlyQueued(q, arrivals);
    QueuedIff(arrivals);
    var (a, b) := (Queued(arrivals), Messages(arrivals));
    assert (q + a)[|q|..] == a && (q + b)[|q|..] == b;
  }

  // ----- when the buffer is not empty

  /** Whatever has arrived, the buffer holds no complete text. */
  lemma {:induction false} StaysOpen(r: Received, chunks: seq<bytes>, ip: string)
    requires !Complete(r.buffer)
    ensures !Complete(ReceiveAll(r, chunks, ip).0.buffer)
    decreases |chunks|
  {
    if chunks != [] {
      StaysOpen(Receive(r, chunks[0], ip).0, chunks[1..], ip);
    }
  }

  lemma {:induction false} NeverComplete(r: Received, arrivals: seq<Arrival>)
    requires !Complete(r.buffer)
    ensures !Complete(ReceiveInTurn(r, arrivals).buffer)
    decreases |arrivals|
  {
    hide Complete, ReceiveAll;
    if arrivals != [] {
      StaysOpen(r, arrivals[0].chunks, arrivals[0].ip);
      NeverComplete(ReceiveAll(r, arrivals[0].chunks, arrivals[0].ip).0, arrivals[1..]);
    }
  }

  /** The first message queued consists of what was in the buffer and some of the text. */
  lemma {:induction false} FirstQueued(left: bytes, t: bytes, k: nat, q: seq<Message>, chunks: seq<bytes>, ip: string)
    requires k <= |t| && Concat(chunks) == t[k..]
    ensures var r := ReceiveAll(Received(left + t[..k], q), chunks, ip).0;
            && |q| <= |r.queue| && r.queue[..|q|] == q
            && (|r.queue| > |q| ==>
                  exists n :: k <= n <= |t| && Complete(left + t[..n])
                              && r.queue[|q|] == Message(CString(left + t[..n]), |left| + n, ip))
    decreases |chunks|
  {
    hide Complete;
    if chunks != [] {
      var (chunk, rest) := (chunks[0], chunks[1..]);
      var n := k + |chunk|;
      assert t[k..] == chunk + Concat(rest);
      assert t[..k] + chunk == t[..n] by {
        assert t[k..][..|chunk|] == chunk;
      }
      assert left + t[..k] + chunk == left + t[..n];
      assert Concat(rest) == t[n..] by {
        assert t[k..][|chunk|..] == Concat(rest);
      }
      var (s, ok) := Receive(Received(left + t[..k], q), chunk, ip);
      if ok && Complete(left + t[..n]) {
        QueueGrows(s, rest, ip);
      } else if ok {
        FirstQueued(left, t, n, q, rest, ip);
      }
    }
  }

  lemma {:induction false} QueueGrows(r: Received, chunks: seq<bytes>, ip: string)
    ensures var s := ReceiveAll(r, chunks, ip).0;
            |r.queue| <= |s.queue| && s.queue[..|r.queue|] == r.queue
    decreases |chunks|
  {
    hide Complete;
    if chunks != [] {
      QueueGrows(Receive(r, chunks[0], ip).0, chunks[1..], ip);
    }
  }

  /** A message is queued as it is if and only if it fits and finds the buffer empty. */
  lemma DeliveredIff(left: bytes, t: bytes, q: seq<Message>, chunks: seq<bytes>, ip: string)
    requires !Complete(left)
    requires Enclosed(t) && NoNul(t) && Concat(chunks) == t
    ensures ReceiveAll(Received(left, q), chunks, ip).0.queue == q + [Message(t, |t|, ip)]
            <==> left == [] && |t| <= 16384
  {
    hide Enclosed, Balanced, Balance, Complete, ReceiveAll, CString;
    assert t[..0] == [] && t[0..] == t && left + t[..0] == left;
    NotEmpty(t);
    if left == [] && |t| <= MAX_JSON_SIZE {
      RestDelivers(t, 0, q, chunks, ip);
    } else if left == [] {
      TooLongIsRefused(t, 0, q, chunks, ip);
    } else {
      FirstQueued(left, t, 0, q, chunks, ip);
      var r := ReceiveAll(Received(left, q), chunks, ip).0;
      assert (q + [Message(t, |t|, ip)])[|q|] == Message(t, |t|, ip);
      if |r.queue| > |q| {
        var n :| 0 <= n <= |t| && Complete(left + t[..n])
                 && r.queue[|q|] == Message(CString(left + t[..n]), |left| + n, ip);
        WholeCString(left + t[..n]);
        LeftIsNoPrefix(left, t, n);
      }
    }
  }

  /** After any history, of whatever texts and pieces, a message is queued as it is if and
      only if it fits and nothing was left over. */
  lemma {:induction false} DeliveredAfterIff(q: seq<Message>, earlier: seq<Arrival>, t: bytes, chunks: seq<bytes>,
                                             ip: string)
    requires Enclosed(t) && NoNul(t) && Concat(chunks) == t
    ensures var r := ReceiveInTurn(Received([], q), earlier);
            ReceiveAll(r, chunks, ip).0.queue == r.queue + [Message(t, |t|, ip)]
            <==> r.buffer == [] && |t| <= MAX_JSON_SIZE
  {
    hide Enclosed, ReceiveAll, ReceiveInTurn;
    NeverComplete(Received([], q), earlier);
    var r := ReceiveInTurn(Received([], q), earlier);
    DeliveredIff(r.buffer, t, r.queue, chunks, ip);
  }

  lemma {:induction false} WholeCString(s: bytes)
    ensures |CString(s)| <= |s| && (|CString(s)| == |s| ==> CString(s) == s)
  {
    if s != [] && s[0] != 0 {
      WholeCString(s[1..]);
    }
  }

  /** Bytes that are left over, with a part of the next text, never make up that text. */
  lemma LeftIsNoPrefix(left: bytes, t: bytes, n: nat)
    requires left != [] && !Complete(left) && Enclosed(t) && n <= |t|
    ensures left + t[..n] != t
  {
    hide Balance, Complete;
    if 0 < |left| < |t| && left == t[..|left|] {
      PrefixIsOpen(t, |left|);
      EnclosedIsBalanced(t);
      if n > 0 {
        BalanceJoin(left, t[..n]);
        if n < |t| {
          PrefixIsOpen(t, n);
        }
      }
    } else if left == t {
      CompleteIff(t, |t|);
      assert t[..|t|] == t;
    } else {
      assert |left| <= |t| ==> (left + t[..n])[..|left|] == left;
    }
  }

  const SAMPLE: Json := Obj([Member([RBRACE], Null)])
  const SAMPLE_TEXT: bytes := [LBRACE, QUOTE, RBRACE, QUOTE, COLON, 110, 117, 108, 108, RBRACE]

  lemma SampleMember()
    ensures MemberText(SAMPLE.members[0], false, false, 1) == [QUOTE, RBRACE, QUOTE, COLON, 110, 117, 108, 108]
  {
    assert Escaped([RBRACE]) == [RBRACE] + Escaped([]);
    assert Quoted([RBRACE]) == [QUOTE, RBRACE, QUOTE];
  }

  lemma SampleText()
    ensures Printable(SAMPLE) && Text(SAMPLE, false, 0) == SAMPLE_TEXT
  {
    hide MemberText, Quoted;
    SampleMember();
    var m := SAMPLE.members[0];
    assert MembersText(SAMPLE.members, false, 1) == MemberText(m, false, false, 1) + MembersText([], false, 1);
  }

  /** Why strings must not contain braces: this object is taken for complete at the brace
      in its string, and its rest stays in the buffer. */
  lemma BraceInStringBreaks()
    ensures Printable(SAMPLE) && Text(SAMPLE, false, 0) == SAMPLE_TEXT
    ensures ReceiveAll(Received([], []), [SAMPLE_TEXT[..3], SAMPLE_TEXT[3..]], "a").0
         == Received(SAMPLE_TEXT[3..], [Message(SAMPLE_TEXT[..3], 3, "a")])
  {
    hide Occurrences;
    SampleText();
    var (a, z) := (SAMPLE_TEXT[..3], SAMPLE_TEXT[3..]);
    assert a == [LBRACE] + [QUOTE] + [RBRACE];
    assert z == [QUOTE, COLON, 110, 117, 108, 108] + [RBRACE];
    UnbracedIsFlat([QUOTE]);
    UnbracedIsFlat([QUOTE, COLON, 110, 117, 108, 108]);
    CountOne(LBRACE);
    CountOne(RBRACE);
    OccurrencesJoin([LBRACE], [QUOTE], LBRACE);
    OccurrencesJoin([LBRACE], [QUOTE], RBRACE);
    OccurrencesJoin([LBRACE] + [QUOTE], [RBRACE], LBRACE);
    OccurrencesJoin([LBRACE] + [QUOTE], [RBRACE], RBRACE);
    OccurrencesJoin([QUOTE, COLON, 110, 117, 108, 108], [RBRACE], LBRACE);
    assert [] + a == a && [] + z == z;
    assert Complete(a) && NoNul(a) && CString(a) == a;
    assert [] + [Message(a, 3, "a")] == [Message(a, 3, "a")];
    assert Receive(Received([], []), a, "a") == (Received([], [Message(a, 3, "a")]), true);
    assert Receive(Received([], [Message(a, 3, "a")]), z, "a") == (Received(z, [Message(a, 3, "a")]), true);
    TwoChunks(Received([], []), a, z, "a");
  }

  lemma CountOne(b: byte)
    ensures Occurrences([b], b) == 1 && forall c: byte :: c != b ==> Occurrences([b], c) == 0
  {
    assert [b][..0] == [];
  }

  lemma TwoChunks(r: Received, a: bytes, z: bytes, ip: string)
    requires Receive(r, a, ip).1 && Receive(Receive(r, a, ip).0, z, ip).1
    ensures ReceiveAll(r, [a, z], ip) == Receive(Receive(r, a, ip).0, z, ip)
  {
    hide Receive;
    assert [a, z][1..] == [z] && [z][1..] == [];
    var s := Receive(r, a, ip).0;
    assert ReceiveAll(s, [z], ip) == ReceiveAll(Receive(s, z, ip).0, [], ip);
  }
}
