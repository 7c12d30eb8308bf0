/**
 The client's sending loop, which cuts a message into WebSocket frames
 (FederatedLearningESP32/components/espwebsocketclient/esp_websocket_client.c:548-587;
 section 5.4 of RFC 6455).
 */
module Frames {
  import opened Bytes

  /** The opcode byte: its bit 0x80, and the bits below it. */
  datatype Opcode = Opcode(fin: bool, code: nat)

  const NO_OPCODE := Opcode(false, 0)

  /** What one call of `esp_transport_ws_send_raw` puts on the wire: the flags it is
      given, the number of bytes announced and the bytes that were really written. */
  datatype Frame = Frame(flags: Opcode, announced: nat, payload: bytes)

  /** The transport's answer to a call: at most what was asked for, negative on errors. */
  function Answer(answers: seq<int>, k: nat, asked: nat): (n: int)
    ensures n <= asked
  {
    if k < |answers| && answers[k] < asked then answers[k] else asked
  }

  predicate IsError(n: int, asked: nat) {
    n < 0 || (n == 0 && asked != 0)
  }

  function Chunk(left: nat, size: nat): nat {
    if left > size then size else left
  }

  function Flags(opcode: Opcode, fin: bool, left: nat, size: nat): Opcode {
    if left > size then opcode.(fin := false)
    else if fin then opcode.(fin := true)
    else opcode
  }

  /** The frames sent from `data` on, `k` calls having been made, and the final answer. */
  function Sent(data: bytes, at: nat, opcode: Opcode, fin: bool, size: nat, answers: seq<int>, k: nat)
    : (seq<Frame>, int)
    requires at <= |data| && size > 0
    decreases |data| - at, if opcode == NO_OPCODE then 0 else 1
  {
    if at == |data| && opcode == NO_OPCODE then ([], at)
    else
      var asked := Chunk(|data| - at, size);
      var wrote := Answer(answers, k, asked);
      if IsError(wrote, asked) then ([], wrote)
      else
        var (rest, ret) := Sent(data, at + wrote, NO_OPCODE, fin, size, answers, k + 1);
        ([Frame(Flags(opcode, fin, |data| - at, size), asked, data[at..at + wrote])] + rest, ret)
  }

  /** One turn of the loop. */
  lemma SentIs(data: bytes, at: nat, opcode: Opcode, fin: bool, size: nat, answers: seq<int>, k: nat)
    requires at <= |data| && size > 0
    ensures var now := Sent(data, at, opcode, fin, size, answers, k);
            var asked := Chunk(|data| - at, size);
            var wrote := Answer(answers, k, asked);
            if at == |data| && opcode == NO_OPCODE then now == ([], at)
            else if IsError(wrote, asked) then now == ([], wrote)
            else
              var rest := Sent(data, at + wrote, NO_OPCODE, fin, size, answers, k + 1);
              now == ([Frame(Flags(opcode, fin, |data| - at, size), asked, data[at..at + wrote])] + rest.0, rest.1)
  {
  }

  /** `all` is what was sent and what is still ahead. */
  ghost predicate Ahead(all: (seq<Frame>, int), sent: seq<Frame>, rest: (seq<Frame>, int)) {
    all == (sent + rest.0, rest.1)
  }

  lemma AheadFirst(all: (seq<Frame>, int))
    ensures Ahead(all, [], all)
  {
    assert [] + all.0 == all.0;
  }

  lemma AheadNext(all: (seq<Frame>, int), sent: seq<Frame>, f: Frame, rest: (seq<Frame>, int))
    requires Ahead(all, sent, ([f] + rest.0, rest.1))
    ensures Ahead(all, sent + [f], rest)
  {
    assert sent + ([f] + rest.0) == sent + [f] + rest.0;
  }

  lemma AheadLast(all: (seq<Frame>, int), sent: seq<Frame>, ret: int)
    requires Ahead(all, sent, ([], ret))
    ensures all == (sent, ret)
  {
    assert sent + [] == sent;
  }

  function Payload(frames: seq<Frame>): bytes {
    if frames == [] then [] else frames[0].payload + Payload(frames[1..])
  }

  class WebSocketClient {
    const bufferSize: nat
    const txBuffer: array<byte>
    var answers: seq<int>
    var calls: nat
    var wire: seq<Frame>

    constructor (size: nat, answers: seq<int>)
      ensures bufferSize == size == txBuffer.Length && this.answers == answers && calls == 0 && wire == []
      ensures fresh(txBuffer)
    {
      bufferSize := size;
      txBuffer := new byte[size];
      this.answers := answers;
      calls := 0;
      wire := [];
    }

    /** `esp_transport_ws_send_raw`: only its answer and what it wrote are modelled. */
    method SendRaw(flags: Opcode, n: nat) returns (wrote: int)
      requires n <= txBuffer.Length
      modifies this`calls, this`wire
      ensures calls == old(calls) + 1 && wrote == Answer(answers, old(calls), n)
      ensures wire == if IsError(wrote, n) then old(wire) else old(wire) + [Frame(flags, n, txBuffer[..wrote])]
    {
      wrote := Answer(answers, calls, n);
      calls := calls + 1;
      if !IsError(wrote, n) {
        wire := wire + [Frame(flags, n, txBuffer[..wrote])];
      }
    }

    /** The `memcpy` into the send buffer. */
    method Fill(data: bytes, at: nat, n: nat)
      requires at + n <= |data| && n <= txBuffer.Length
      modifies txBuffer
      ensures txBuffer[..n] == data[at..at + n]
    {
      var i := 0;
      while i < n
        invariant 0 <= i <= n
        invariant txBuffer[..i] == data[at..at + i]
      {
        txBuffer[i] := data[at + i];
        i := i + 1;
      }
    }

    /** The `memcpy` of a part of the data and the call that sends it. */
    method SendPart(flags: Opcode, data: bytes, at: nat, n: nat) returns (wrote: int)
      requires at + n <= |data| && n <= txBuffer.Length
      modifies this`calls, this`wire, txBuffer
      ensures calls == old(calls) + 1 && wrote == Answer(answers, old(calls), n)
      ensures wire == if IsError(wrote, n) then old(wire) else old(wire) + [Frame(flags, n, data[at..at + wrote])]
    {
      Fill(data, at, n);
      wrote := SendRaw(flags, n);
      if !IsError(wrote, n) {
        assert txBuffer[..wrote] == txBuffer[..n][..wrote] == data[at..at + wrote];
      }
    }

    method SendWithExactOpcode(op: Opcode, data: bytes) returns (ret: int)
      requires bufferSize > 0 && txBuffer.Length == bufferSize
      modifies this`calls, this`wire, txBuffer
      ensures (wire, ret) == (old(wire) + Sent(data, 0, op, op.fin, bufferSize, answers, old(calls)).0,
                              Sent(data, 0, op, op.fin, bufferSize, answers, old(calls)).1)
    {
      hide Sent, Ahead, IsError, Answer;
      var opcode := op;
      var needWrite := |data|;
      var widx := 0;
      var containedFin := opcode.fin;
      ghost var all := Sent(data, 0, op, containedFin, bufferSize, answers, calls);
      AheadFirst(all);
      ghost var sent: seq<Frame> := [];
      while widx < |data| || opcode != NO_OPCODE
        invariant 0 <= widx <= |data| && needWrite == |data| - widx
        invariant wire == old(wire) + sent
        invariant Ahead(all, sent, Sent(data, widx, opcode, containedFin, bufferSize, answers, calls))
        decreases |data| - widx, if opcode == NO_OPCODE then 0 else 1
      {
        SentIs(data, widx, opcode, containedFin, bufferSize, answers, calls);
        if needWrite > bufferSize {
          needWrite := bufferSize;
          opcode := opcode.(fin := false);
        } else if containedFin {
          opcode := opcode.(fin := true);
        }
        var wlen := SendPart(opcode, data, widx, needWrite);
        if IsError(wlen, needWrite) {
          AheadLast(all, sent, wlen);
          return wlen;
        }
        Progress(wlen, needWrite);
        ghost var frame := Frame(opcode, needWrite, data[widx..widx + wlen]);
        AheadNext(all, sent, frame, Sent(data, widx + wlen, NO_OPCODE, containedFin, bufferSize, answers, calls));
        sent := sent + [frame];
        assert wire == old(wire) + sent;
        opcode := NO_OPCODE;
        widx := widx + wlen;
        needWrite := |data| - widx;
      }
      SentIs(data, widx, opcode, containedFin, bufferSize, answers, calls);
      AheadLast(all, sent, widx);
      return widx;
    }
  }

  lemma Progress(n: int, asked: nat)
    requires !IsError(n, asked)
    ensures n >= 0 && (n == 0 ==> asked == 0)
  {
  }

  // ----- what reaches the other end

  lemma PayloadOf(f: Frame, rest: seq<Frame>)
    ensures Payload([f] + rest) == f.payload + Payload(rest)
  {
    assert ([f] + rest)[1..] == rest;
  }

  lemma JoinedSlices(data: bytes, at: nat, mid: nat, rest: bytes)
    requires at <= mid && mid + |rest| <= |data| && rest == data[mid..mid + |rest|]
    ensures data[at..mid] + rest == data[at..mid + |rest|]
  {
  }

  lemma {:induction false} PayloadsArePrefix(data: bytes, at: nat, opcode: Opcode, fin: bool, size: nat,
                                             answers: seq<int>, k: nat)
    requires at <= |data| && size > 0
    ensures var sent := Payload(Sent(data, at, opcode, fin, size, answers, k).0);
            at + |sent| <= |data| && sent == data[at..at + |sent|]
    decreases |data| - at, if opcode == NO_OPCODE then 0 else 1
  {
    hide Sent, Payload, Flags;
    var asked := Chunk(|data| - at, size);
    var wrote := Answer(answers, k, asked);
    SentIs(data, at, opcode, fin, size, answers, k);
    NoPayload();
    if (at < |data| || opcode != NO_OPCODE) && !IsError(wrote, asked) {
      PayloadsArePrefix(data, at + wrote, NO_OPCODE, fin, size, answers, k + 1);
      var next := Sent(data, at + wrote, NO_OPCODE, fin, size, answers, k + 1);
      PayloadOf(Frame(Flags(opcode, fin, |data| - at, size), asked, data[at..at + wrote]), next.0);
      JoinedSlices(data, at, at + wrote, Payload(next.0));
    }
  }

  lemma NoPayload()
    ensures Payload([]) == []
  {
  }

  /** The length is returned if and only if as many bytes were handed over, and no other
      positive number ever is. */
  lemma {:induction false} ReturnTells(data: bytes, at: nat, opcode: Opcode, fin: bool, size: nat,
                                       answers: seq<int>, k: nat)
    requires at <= |data| && size > 0
    ensures var (frames, ret) := Sent(data, at, opcode, fin, size, answers, k);
            && (at < |data| ==> (ret == |data| <==> |Payload(frames)| == |data| - at))
            && (ret != |data| ==> ret <= 0)
    decreases |data| - at, if opcode == NO_OPCODE then 0 else 1
  {
    hide Sent, Payload, Flags;
    var asked := Chunk(|data| - at, size);
    var wrote := Answer(answers, k, asked);
    SentIs(data, at, opcode, fin, size, answers, k);
    NoPayload();
    if (at < |data| || opcode != NO_OPCODE) && !IsError(wrote, asked) {
      ReturnTells(data, at + wrote, NO_OPCODE, fin, size, answers, k + 1);
      PayloadsArePrefix(data, at + wrote, NO_OPCODE, fin, size, answers, k + 1);
      PayloadOf(Frame(Flags(opcode, fin, |data| - at, size), asked, data[at..at + wrote]),
                Sent(data, at + wrote, NO_OPCODE, fin, size, answers, k + 1).0);
      SentIs(data, at + wrote, NO_OPCODE, fin, size, answers, k + 1);
    }
  }

  /** Whatever the transport answers, the payloads are a prefix of the data in order, and
      they are all of the data if and only if the call returns its length. */
  lemma PayloadsAreTheData(data: bytes, at: nat, opcode: Opcode, fin: bool, size: nat, answers: seq<int>, k: nat)
    requires at <= |data| && size > 0
    ensures var (frames, ret) := Sent(data, at, opcode, fin, size, answers, k);
            && at + |Payload(frames)| <= |data|
            && Payload(frames) == data[at..at + |Payload(frames)|]
            && (at < |data| ==> (ret == |data| <==> Payload(frames) == data[at..]))
            && (ret != |data| ==> ret <= 0)
  {
    hide Sent, Payload;
    PayloadsArePrefix(data, at, opcode, fin, size, answers, k);
    ReturnTells(data, at, opcode, fin, size, answers, k);
  }

  /** Every call asks for all that is left, up to the size of the buffer. */
  lemma {:induction false} AnnouncesWhatIsLeft(data: bytes, at: nat, opcode: Opcode, fin: bool, size: nat,
                                               answers: seq<int>, k: nat, i: nat)
    requires at <= |data| && size > 0
    ensures var frames := Sent(data, at, opcode, fin, size, answers, k).0;
            i < |frames| ==>
              var left := |data| - at - |Payload(frames[..i])|;
              frames[i].announced == if left > size then size else left
    decreases i
  {
    hide Sent, Payload, Flags;
    var asked := Chunk(|data| - at, size);
    var wrote := Answer(answers, k, asked);
    SentIs(data, at, opcode, fin, size, answers, k);
    NoPayload();
    if (at < |data| || opcode != NO_OPCODE) && !IsError(wrote, asked) {
      var all := Sent(data, at, opcode, fin, size, answers, k).0;
      var rest := Sent(data, at + wrote, NO_OPCODE, fin, size, answers, k + 1).0;
      if i == 0 {
        assert all[..0] == [];
      } else if i < |all| {
        AnnouncesWhatIsLeft(data, at + wrote, NO_OPCODE, fin, size, answers, k + 1, i - 1);
        assert all[..i] == [all[0]] + rest[..i - 1];
        PayloadOf(all[0], rest[..i - 1]);
      }
    }
  }

  /** The loop stops at the first error, one call after the last frame, and hands it on. */
  lemma {:induction false} ErrorIsReturned(data: bytes, at: nat, opcode: Opcode, fin: bool, size: nat,
                                           answers: seq<int>, k: nat)
    requires at <= |data| && size > 0
    ensures var (frames, ret) := Sent(data, at, opcode, fin, size, answers, k);
            ret != |data| ==> k + |frames| < |answers| && ret == answers[k + |frames|] <= 0
    decreases |data| - at, if opcode == NO_OPCODE then 0 else 1
  {
    hide Sent, Flags;
    var asked := Chunk(|data| - at, size);
    var wrote := Answer(answers, k, asked);
    SentIs(data, at, opcode, fin, size, answers, k);
    if (at < |data| || opcode != NO_OPCODE) && !IsError(wrote, asked) {
      ErrorIsReturned(data, at + wrote, NO_OPCODE, fin, size, answers, k + 1);
    }
  }

  predicate Whole(f: Frame) {
    f.announced == |f.payload|
  }

  predicate AllWhole(frames: seq<Frame>) {
    forall i :: 0 <= i < |frames| ==> Whole(frames[i])
  }

  lemma AllWholePrepended(f: Frame, rest: seq<Frame>)
    ensures AllWhole([f] + rest) <==> Whole(f) && AllWhole(rest)
  {
    var all := [f] + rest;
    assert all[0] == f;
    assert forall i :: 0 <= i < |rest| ==> all[i + 1] == rest[i];
    assert forall i :: 1 <= i < |all| ==> all[i] == rest[i - 1];
  }

  /** Until one of them fails, the calls for `left` bytes are given all that they ask for. */
  predicate NoneInPart(left: nat, opcode: Opcode, size: nat, answers: seq<int>, k: nat)
    requires size > 0
    decreases left, if opcode == NO_OPCODE then 0 else 1
  {
    var asked := Chunk(left, size);
    var wrote := Answer(answers, k, asked);
    || (left == 0 && opcode == NO_OPCODE)
    || IsError(wrote, asked)
    || (wrote == asked && NoneInPart(left - asked, NO_OPCODE, size, answers, k + 1))
  }

  /** Every frame carries the bytes it announces if and only if no call before the first
      error is answered with a part of what it asks for. */
  lemma {:induction false} AllWholeIff(data: bytes, at: nat, opcode: Opcode, fin: bool, size: nat,
                                       answers: seq<int>, k: nat)
    requires at <= |data| && size > 0
    ensures AllWhole(Sent(data, at, opcode, fin, size, answers, k).0)
            <==> NoneInPart(|data| - at, opcode, size, answers, k)
    decreases |data| - at, if opcode == NO_OPCODE then 0 else 1
  {
    hide AllWhole;
    var asked := Chunk(|data| - at, size);
    var wrote := Answer(answers, k, asked);
    NothingIsWhole();
    if (at < |data| || opcode != NO_OPCODE) && !IsError(wrote, asked) {
      AllWholeIff(data, at + wrote, NO_OPCODE, fin, size, answers, k + 1);
      AllWholePrepended(Frame(Flags(opcode, fin, |data| - at, size), asked, data[at..at + wrote]),
                        Sent(data, at + wrote, NO_OPCODE, fin, size, answers, k + 1).0);
    }
  }

  lemma NothingIsWhole()
    ensures AllWhole([])
  {
  }

  /** Every call for `left` bytes is given all that it asks for. */
  predicate Serves(left: nat, opcode: Opcode, size: nat, answers: seq<int>, k: nat)
    requires size > 0
    decreases left, if opcode == NO_OPCODE then 0 else 1
  {
    var asked := Chunk(left, size);
    || (left == 0 && opcode == NO_OPCODE)
    || (Answer(answers, k, asked) == asked && Serves(left - asked, NO_OPCODE, size, answers, k + 1))
  }

  /** The data is sent completely in frames that carry what they announce if and only if
      the transport serves every call. */
  lemma {:induction false} SentWholeIff(data: bytes, at: nat, opcode: Opcode, fin: bool, size: nat,
                                        answers: seq<int>, k: nat)
    requires at <= |data| && size > 0
    ensures Sent(data, at, opcode, fin, size, answers, k).1 == |data|
            && AllWhole(Sent(data, at, opcode, fin, size, answers, k).0)
            <==> Serves(|data| - at, opcode, size, answers, k)
    decreases |data| - at, if opcode == NO_OPCODE then 0 else 1
  {
    hide AllWhole;
    var asked := Chunk(|data| - at, size);
    var wrote := Answer(answers, k, asked);
    NothingIsWhole();
    if (at < |data| || opcode != NO_OPCODE) && !IsError(wrote, asked) {
      SentWholeIff(data, at + wrote, NO_OPCODE, fin, size, answers, k + 1);
      AllWholePrepended(Frame(Flags(opcode, fin, |data| - at, size), asked, data[at..at + wrote]),
                        Sent(data, at + wrote, NO_OPCODE, fin, size, answers, k + 1).0);
    }
  }

  /** Only the first frame carries the opcode, and no frame is larger than the buffer. */
  lemma {:induction false} OnlyFirstCarriesOpcode(data: bytes, at: nat, opcode: Opcode, fin: bool, size: nat,
                                                  answers: seq<int>, k: nat, i: nat)
    requires at <= |data| && size > 0 && i < |Sent(data, at, opcode, fin, size, answers, k).0|
    ensures var f := Sent(data, at, opcode, fin, size, answers, k).0[i];
            && f.flags.code == (if i == 0 then opcode.code else 0)
            && |f.payload| <= f.announced <= size
    decreases i
  {
    if i > 0 {
      var wrote := Answer(answers, k, Chunk(|data| - at, size));
      OnlyFirstCarriesOpcode(data, at + wrote, NO_OPCODE, fin, size, answers, k + 1, i - 1);
    }
  }

  predicate FinIsLast(frames: seq<Frame>, fin: bool) {
    forall i :: 0 <= i < |frames| ==> (frames[i].flags.fin <==> fin && i == |frames| - 1)
  }

  lemma PrependFrame(f: Frame, rest: seq<Frame>, fin: bool)
    ensures FinIsLast([f] + rest, fin) <==> (f.flags.fin <==> fin && rest == []) && FinIsLast(rest, fin)
  {
    var all := [f] + rest;
    assert all[0] == f;
    assert forall i :: 0 <= i < |rest| ==> all[i + 1] == rest[i];
    assert forall i :: 1 <= i < |all| ==> all[i] == rest[i - 1];
  }

  /** The first call that asks for all the bytes left: its number and what it asks for. */
  function FinalCall(left: nat, size: nat, answers: seq<int>, k: nat): (nat, nat)
    requires size > 0
  {
    var wrote := Answer(answers, k, size);
    if left <= size || wrote <= 0 then (k, left) else FinalCall(left - wrote, size, answers, k + 1)
  }

  /** A message that was sent completely ends with its only FIN frame if and only if the
      transport takes all bytes of the first call that asks for the rest of them. */
  lemma {:induction false} OnlyLastCarriesFinIff(data: bytes, at: nat, opcode: Opcode, fin: bool, size: nat,
                                                 answers: seq<int>, k: nat)
    requires at <= |data| && size > 0 && (opcode == NO_OPCODE || opcode.fin == fin)
    requires at < |data| || opcode != NO_OPCODE
    requires Sent(data, at, opcode, fin, size, answers, k).1 == |data|
    ensures var frames := Sent(data, at, opcode, fin, size, answers, k).0;
            var (n, asked) := FinalCall(|data| - at, size, answers, k);
            frames != [] && (FinIsLast(frames, fin) <==> fin ==> n >= |answers| || answers[n] >= asked)
    decreases |data| - at
  {
    var asked := Chunk(|data| - at, size);
    var wrote := Answer(answers, k, asked);
    if !IsError(wrote, asked) {
      var f := Frame(Flags(opcode, fin, |data| - at, size), asked, data[at..at + wrote]);
      var rest := Sent(data, at + wrote, NO_OPCODE, fin, size, answers, k + 1).0;
      PrependFrame(f, rest, fin);
      if at + wrote < |data| {
        OnlyLastCarriesFinIff(data, at + wrote, NO_OPCODE, fin, size, answers, k + 1);
      }
    }
  }

  /** Two bytes of which the transport first takes one: FIN is sent twice, and the first
      frame announces a byte that it does not carry. */
  lemma PartialWriteRepeatsFin(a: byte, b: byte)
    ensures var op := Opcode(true, 1);
            var frames := Sent([a, b], 0, op, true, 2, [1], 0).0;
            && frames == [Frame(op, 2, [a]), Frame(Opcode(true, 0), 1, [b])]
            && Sent([a, b], 0, op, true, 2, [1], 0).1 == 2
            && !FinIsLast(frames, true) && !Whole(frames[0])
  {
    var (op, data) := (Opcode(true, 1), [a, b]);
    assert data[0..1] == [a] && data[1..2] == [b];
    SentIs(data, 0, op, true, 2, [1], 0);
    SentIs(data, 1, NO_OPCODE, true, 2, [1], 1);
    SentIs(data, 2, NO_OPCODE, true, 2, [1], 2);
    var frames := Sent(data, 0, op, true, 2, [1], 0).0;
    assert frames == [Frame(op, 2, [a])] + ([Frame(Opcode(true, 0), 1, [b])] + []);
    assert frames[0].flags.fin && |frames[0].payload| == 1;
  }
}
