/**
 All sessions share one receive buffer; what is kept for each of them is only its address
 (FederatedLearningServer/src/websocketserver.c:126-169). Two clients that send at the
 same time are both heard exactly if neither interrupts the other.
 */
module Interleaving {
  import opened Bytes
  import opened Delivery
  import opened MessageQueues
  import opened Reassembly

  /** A piece that arrives, and from whom. */
  datatype Piece = Piece(ip: string, chunk: bytes)

  /** Pieces of any sessions, in the order in which they arrive. */
  function TakeAll(r: Received, ps: seq<Piece>): Received
    decreases |ps|
  {
    if ps == [] then r else TakeAll(Receive(r, ps[0].chunk, ps[0].ip).0, ps[1..])
  }

  /** What one client has sent. */
  function From(ps: seq<Piece>, ip: string): bytes {
    if ps == [] then [] else (if ps[0].ip == ip then ps[0].chunk else []) + From(ps[1..], ip)
  }

  /** Everything from the one arrives before anything from the other. */
  ghost predicate Before(ps: seq<Piece>, a: string, b: string) {
    exists n :: 0 <= n <= |ps| && From(ps[..n], b) == [] && From(ps[n..], a) == []
  }

  predicate OfTwo(ps: seq<Piece>, a: string, b: string) {
    forall i :: 0 <= i < |ps| ==> ps[i].ip == a || ps[i].ip == b
  }

  predicate Sendable(t: bytes) {
    Enclosed(t) && NoNul(t)
  }

  // ----- pieces

  lemma {:induction false} NothingMore(q: seq<Message>, ps: seq<Piece>, a: string, b: string)
    requires OfTwo(ps, a, b) && From(ps, a) == From(ps, b) == []
    ensures TakeAll(Received([], q), ps) == Received([], q)
    decreases |ps|
  {
    if ps != [] {
      assert ps[0].chunk == [] && [] + ps[0].chunk == [];
      NothingMore(q, ps[1..], a, b);
    }
  }

  /** The next piece of a text of which `k` bytes have come. */
  lemma NextPiece(t: bytes, k: nat, ps: seq<Piece>, ip: string)
    requires k <= |t| && ps != [] && ps[0].ip == ip && From(ps, ip) == t[k..]
    ensures var n := k + |ps[0].chunk|;
            && n <= |t| && t[..k] + ps[0].chunk == t[..n] && From(ps[1..], ip) == t[n..]
            && Balance(t[..n]) == Balance(t[..k]) + Balance(ps[0].chunk)
  {
    hide Balance;
    var chunk := ps[0].chunk;
    assert t[k..][..|chunk|] == chunk;
    assert t[k..][|chunk|..] == From(ps[1..], ip);
    BalanceJoin(t[..k], chunk);
  }

  lemma DepthAt(t: bytes, k: nat)
    requires Enclosed(t) && 0 < k <= |t|
    ensures Balance(t[..k]) >= 0 && (Balance(t[..k]) == 0 <==> k == |t|)
  {
    assert t[..|t|] == t;
  }

  // ----- two texts mixed up

  /** The buffer holds `k` bytes of one text and `l` of another, in some order. */
  predicate Mixture(buf: bytes, s: bytes, k: nat, t: bytes, l: nat) {
    && 0 < k <= |s| && 0 < l <= |t| && |buf| == k + l && Occurrences(buf, LBRACE) > 0
    && Balance(buf) == Balance(s[..k]) + Balance(t[..l])
  }

  lemma MixtureGrows(buf: bytes, s: bytes, k: nat, t: bytes, l: nat, ps: seq<Piece>, a: string)
    requires Mixture(buf, s, k, t, l) && ps != [] && ps[0].ip == a && From(ps, a) == s[k..]
    ensures Mixture(buf + ps[0].chunk, s, k + |ps[0].chunk|, t, l)
  {
    NextPiece(s, k, ps, a);
    BalanceJoin(buf, ps[0].chunk);
    OccurrencesJoin(buf, ps[0].chunk, LBRACE);
  }

  lemma MixtureComplete(buf: bytes, s: bytes, k: nat, t: bytes, l: nat)
    requires Mixture(buf, s, k, t, l) && Enclosed(s) && Enclosed(t)
    ensures Complete(buf) <==> k == |s| && l == |t|
  {
    hide Enclosed;
    DepthAt(s, k);
    DepthAt(t, l);
  }

  /** A queue to which one message of the joint length was added. */
  predicate OneJointMessage(r: Received, q: seq<Message>, length: nat) {
    r.buffer == [] && |r.queue| == |q| + 1 && r.queue[..|q|] == q && r.queue[|q|].length == length
  }

  lemma {:induction false} MixtureIsOneMessage(buf: bytes, q: seq<Message>, ps: seq<Piece>, a: string, s: bytes, k: nat,
                                               b: string, t: bytes, l: nat)
    requires Mixture(buf, s, k, t, l) && Enclosed(s) && Enclosed(t) && |s| + |t| <= MAX_JSON_SIZE
    requires a != b && OfTwo(ps, a, b) && From(ps, a) == s[k..] && From(ps, b) == t[l..]
    requires k <= |s| && l <= |t| && k + l < |s| + |t|
    ensures OneJointMessage(TakeAll(Received(buf, q), ps), q, |s| + |t|)
    decreases |ps|, if ps != [] && ps[0].ip == a then 0 else 1
  {
    hide Mixture, Enclosed, Complete, CString;
    assert ps != [];
    if ps[0].ip == a {
      var (chunk, rest) := (ps[0].chunk, ps[1..]);
      NextPiece(s, k, ps, a);
      MixtureGrows(buf, s, k, t, l, ps, a);
      MixtureComplete(buf + chunk, s, k + |chunk|, t, l);
      assert |buf + chunk| == k + |chunk| + l by {
        assert Mixture(buf + chunk, s, k + |chunk|, t, l);
      }
      if k + |chunk| == |s| && l == |t| {
        NothingMore(q + [Message(CString(buf + chunk), |s| + |t|, a)], rest, a, b);
      } else {
        MixtureIsOneMessage(buf + chunk, q, rest, a, s, k + |chunk|, b, t, l);
      }
    } else {
      MixtureTurned(buf, s, k, t, l);
      MixtureIsOneMessage(buf, q, ps, b, t, l, a, s, k);
    }
  }

  lemma MixtureTurned(buf: bytes, s: bytes, k: nat, t: bytes, l: nat)
    requires Mixture(buf, s, k, t, l)
    ensures Mixture(buf, t, l, s, k)
  {
  }

  // ----- one text after the other

  lemma {:induction false} BeforeNow(ps: seq<Piece>, a: string, b: string)
    requires From(ps, a) == []
    ensures Before(ps, a, b)
  {
    assert ps[..0] == [] && ps[0..] == ps;
  }

  lemma {:induction false} CutLater(ps: seq<Piece>, n: nat, ip: string)
    requires 0 < n <= |ps|
    ensures From(ps[..n], ip) == (if ps[0].ip == ip then ps[0].chunk else []) + From(ps[1..][..n - 1], ip)
    ensures ps[n..] == ps[1..][n - 1..]
  {
    assert ps[..n][1..] == ps[1..][..n - 1];
  }

  lemma {:induction false} BeforeLater(ps: seq<Piece>, a: string, b: string)
    requires ps != [] && From(ps, a) != []
    ensures Before(ps, a, b) <==> (ps[0].ip == b ==> ps[0].chunk == []) && Before(ps[1..], a, b)
  {
    hide From;
    assert ps[0..] == ps;
    if Before(ps, a, b) {
      var n :| 0 <= n <= |ps| && From(ps[..n], b) == [] && From(ps[n..], a) == [];
      CutLater(ps, n, b);
    }
    if (ps[0].ip == b ==> ps[0].chunk == []) && Before(ps[1..], a, b) {
      var n :| 0 <= n <= |ps[1..]| && From(ps[1..][..n], b) == [] && From(ps[1..][n..], a) == [];
      CutLater(ps, n + 1, b);
    }
  }

  lemma {:induction false} OnlyOne(q: seq<Message>, ps: seq<Piece>, a: string, b: string, t: bytes, k: nat)
    requires Sendable(t) && |t| <= MAX_JSON_SIZE && a != b && OfTwo(ps, a, b)
    requires k < |t| && From(ps, a) == [] && From(ps, b) == t[k..]
    ensures TakeAll(Received(t[..k], q), ps) == Received([], q + [Message(t, |t|, b)])
    decreases |ps|
  {
    hide Enclosed, Complete, Balance;
    assert ps != [];
    var (chunk, rest) := (ps[0].chunk, ps[1..]);
    if ps[0].ip == a {
      assert t[..k] + chunk == t[..k];
      CompleteIff(t, k);
      OnlyOne(q, rest, a, b, t, k);
    } else {
      NextPiece(t, k, ps, b);
      CompleteIff(t, k + |chunk|);
      if k + |chunk| == |t| {
        assert t[..|t|] == t;
        NothingMore(q + [Message(t, |t|, b)], rest, a, b);
      } else {
        OnlyOne(q, rest, a, b, t, k + |chunk|);
      }
    }
  }

  /** The rest, when one text has been queued. */
  lemma {:induction false} Finished(q: seq<Message>, ps: seq<Piece>, a: string, s: bytes, b: string, t: bytes)
    requires Sendable(s) && Sendable(t) && |t| <= MAX_JSON_SIZE && a != b && OfTwo(ps, a, b)
    requires From(ps, a) == [] && From(ps, b) == t
    ensures s[..|s|] == s
    ensures TakeAll(Received([], q + [Message(s, |s|, a)]), ps)
         == Received([], q + [Message(s, |s|, a), Message(t, |t|, b)])
  {
    hide TakeAll;
    assert t[..0] == [] && t[0..] == t;
    OnlyOne(q + [Message(s, |s|, a)], ps, a, b, t, 0);
    assert q + [Message(s, |s|, a)] + [Message(t, |t|, b)] == q + [Message(s, |s|, a), Message(t, |t|, b)];
  }

  /** `b` begins before `a` has ended. */
  lemma {:induction false} Interrupted(q: seq<Message>, ps: seq<Piece>, a: string, s: bytes, k: nat, b: string,
                                       t: bytes)
    requires Sendable(s) && Sendable(t) && |s| + |t| <= MAX_JSON_SIZE && a != b && OfTwo(ps, a, b)
    requires 0 < k < |s| && From(ps, a) == s[k..] && From(ps, b) == t
    requires ps != [] && ps[0].ip == b && ps[0].chunk != []
    ensures OneJointMessage(TakeAll(Received(s[..k], q), ps), q, |s| + |t|)
  {
    hide Complete, Balance, OneJointMessage;
    var chunk := ps[0].chunk;
    assert t[..0] == [] && t[0..] == t;
    NextPiece(t, 0, ps, b);
    assert [] + chunk == chunk;
    BalanceJoin(s[..k], chunk);
    OneOpens(s[..k]);
    OccurrencesJoin(s[..k], chunk, LBRACE);
    MixtureComplete(s[..k] + chunk, s, k, t, |chunk|);
    MixtureIsOneMessage(s[..k] + chunk, q, ps[1..], a, s, k, b, t, |chunk|);
  }

  /** `a` has begun; `b` has not. */
  lemma {:induction false} Begun(q: seq<Message>, ps: seq<Piece>, a: string, s: bytes, k: nat, b: string, t: bytes)
    requires Sendable(s) && Sendable(t) && |s| + |t| <= MAX_JSON_SIZE && a != b && OfTwo(ps, a, b)
    requires 0 < k < |s| && From(ps, a) == s[k..] && From(ps, b) == t
    ensures var r := TakeAll(Received(s[..k], q), ps);
            if Before(ps, a, b) then r == Received([], q + [Message(s, |s|, a), Message(t, |t|, b)])
            else OneJointMessage(r, q, |s| + |t|)
    decreases |ps|
  {
    hide Enclosed, Complete, Balance, Before, OneJointMessage, Mixture;
    NotEmpty(t);
    BeforeLater(ps, a, b);
    if ps[0].ip == a {
      var (chunk, rest) := (ps[0].chunk, ps[1..]);
      NextPiece(s, k, ps, a);
      CompleteIff(s, k + |chunk|);
      if k + |chunk| == |s| {
        BeforeNow(rest, a, b);
        Finished(q, rest, a, s, b, t);
      } else {
        Begun(q, rest, a, s, k + |chunk|, b, t);
      }
    } else if ps[0].chunk == [] {
      assert s[..k] + ps[0].chunk == s[..k];
      CompleteIff(s, k);
      Begun(q, ps[1..], a, s, k, b, t);
    } else {
      Interrupted(q, ps, a, s, k, b, t);
    }
  }

  /** Both clients' texts are queued, in the order in which they began, if neither
      interrupts the other; otherwise one message of their joint length is. */
  lemma {:induction false} TwoAtOnce(q: seq<Message>, ps: seq<Piece>, a: string, s: bytes, b: string, t: bytes)
    requires Sendable(s) && Sendable(t) && |s| + |t| <= MAX_JSON_SIZE && a != b && OfTwo(ps, a, b)
    requires From(ps, a) == s && From(ps, b) == t
    ensures var r := TakeAll(Received([], q), ps);
            if Before(ps, a, b) then r == Received([], q + [Message(s, |s|, a), Message(t, |t|, b)])
            else if Before(ps, b, a) then r == Received([], q + [Message(t, |t|, b), Message(s, |s|, a)])
            else OneJointMessage(r, q, |s| + |t|)
    decreases |ps|, if ps != [] && ps[0].ip == a then 0 else 1
  {
    hide Enclosed, Complete, Balance, Before, OneJointMessage;
    NotEmpty(s);
    NotEmpty(t);
    BeforeLater(ps, a, b);
    BeforeLater(ps, b, a);
    var (chunk, rest) := (ps[0].chunk, ps[1..]);
    assert [] + chunk == chunk && s[..0] == [] && s[0..] == s;
    if chunk == [] {
      CompleteIff(s, 0);
      TwoAtOnce(q, rest, a, s, b, t);
    } else if ps[0].ip == a {
      NextPiece(s, 0, ps, a);
      CompleteIff(s, |chunk|);
      if |chunk| == |s| {
        BeforeNow(rest, a, b);
        Finished(q, rest, a, s, b, t);
      } else {
        Begun(q, rest, a, s, |chunk|, b, t);
      }
    } else {
      NotBoth(ps, a, b);
      TwoAtOnce(q, ps, b, t, a, s);
    }
  }

  /** Both texts are queued as they are if and only if neither client interrupts the other. */
  lemma {:induction false} BothHeardIff(q: seq<Message>, ps: seq<Piece>, a: string, s: bytes, b: string, t: bytes)
    requires Sendable(s) && Sendable(t) && |s| + |t| <= MAX_JSON_SIZE && a != b && OfTwo(ps, a, b)
    requires From(ps, a) == s && From(ps, b) == t
    ensures var heard := TakeAll(Received([], q), ps).queue;
            && (heard == q + [Message(s, |s|, a), Message(t, |t|, b)]
                || heard == q + [Message(t, |t|, b), Message(s, |s|, a)]
                <==> Before(ps, a, b) || Before(ps, b, a))
  {
    hide Sendable, Before, TakeAll, From;
    TwoAtOnce(q, ps, a, s, b, t);
  }

  lemma {:induction false} NotBoth(ps: seq<Piece>, a: string, b: string)
    requires a != b && OfTwo(ps, a, b) && From(ps, a) != [] && From(ps, b) != []
    ensures !(Before(ps, a, b) && Before(ps, b, a))
    decreases |ps|
  {
    hide Before;
    assert ps != [];
    BeforeLater(ps, a, b);
    BeforeLater(ps, b, a);
    if ps[0].chunk == [] {
      NotBoth(ps[1..], a, b);
    }
  }
}
