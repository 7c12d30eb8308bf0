/**
 How the server puts a message together again from whatever pieces the WebSocket
 library delivers (FederatedLearningServer/src/websocketserver.c:110-189), and why a
 model that the client prints and sends arrives exactly once.
 */
module Reassembly {
  import opened Bytes
  import opened MessageQueues

  const MAX_JSON_SIZE: nat := 16384

  // ----- counting braces

  function Occurrences(s: bytes, b: byte): (n: nat)
    ensures n <= |s|
  {
    if s == [] then 0
    else Occurrences(s[..|s| - 1], b) + if s[|s| - 1] == b then 1 else 0
  }

  predicate Complete(s: bytes) {
    Occurrences(s, LBRACE) == Occurrences(s, RBRACE) > 0
  }

  /** The C string a buffer holds: what precedes the first NUL. */
  function CString(s: bytes): (t: bytes)
    ensures NoNul(s) ==> t == s
  {
    if s == [] || s[0] == 0 then [] else [s[0]] + CString(s[1..])
  }

  datatype Received = Received(buffer: bytes, queue: seq<Message>)

  /** The receive branch of `callback_echo`; false when it returns -1. */
  function Receive(r: Received, chunk: bytes, ip: string): (Received, bool) {
    var b := r.buffer + chunk;
    if |b| > MAX_JSON_SIZE then (r, false)
    else if Complete(b) then (Received([], r.queue + [Message(CString(b), |b|, ip)]), true)
    else (Received(b, r.queue), true)
  }

  class Receiver {
    const receivedJson: array<byte>
    var receivedJsonLen: nat
    const queue: MessageBuffer

    constructor (queue: MessageBuffer)
      ensures this.queue == queue && receivedJson.Length == MAX_JSON_SIZE + 1 && receivedJsonLen == 0
      ensures fresh(receivedJson)
    {
      receivedJson := new byte[MAX_JSON_SIZE + 1];
      receivedJsonLen := 0;
      this.queue := queue;
    }

    ghost predicate Valid()
      reads this, queue, queue.nodes
    {
      receivedJson.Length == MAX_JSON_SIZE + 1 && receivedJsonLen <= MAX_JSON_SIZE && queue.Valid()
    }

    ghost function State(): Received
      requires Valid()
      reads this, receivedJson, queue, queue.nodes
    {
      Received(receivedJson[..receivedJsonLen], queue.Contents())
    }

    /** The `memcpy` behind the bytes received so far. */
    method Append(chunk: bytes)
      requires receivedJsonLen + |chunk| <= receivedJson.Length
      modifies receivedJson
      ensures receivedJson[..receivedJsonLen + |chunk|] == old(receivedJson[..receivedJsonLen]) + chunk
    {
      var i := 0;
      while i < |chunk|
        invariant 0 <= i <= |chunk|
        invariant receivedJson[..receivedJsonLen + i] == old(receivedJson[..receivedJsonLen]) + chunk[..i]
      {
        receivedJson[receivedJsonLen + i] := chunk[i];
        i := i + 1;
      }
    }

    method IsCompleteJson(len: nat) returns (complete: bool)
      requires len <= receivedJson.Length
      ensures complete == Complete(receivedJson[..len])
    {
      var open := 0;
      var close := 0;
      var i := 0;
      while i < len
        invariant 0 <= i <= len
        invariant open == Occurrences(receivedJson[..i], LBRACE)
        invariant close == Occurrences(receivedJson[..i], RBRACE)
      {
        assert receivedJson[..i + 1][..i] == receivedJson[..i];
        if receivedJson[i] == LBRACE {
          open := open + 1;
        } else if receivedJson[i] == RBRACE {
          close := close + 1;
        }
        i := i + 1;
      }
      complete := open == close && open > 0;
    }

    /** A complete text is terminated and handed to the queue, and the buffer is empty. */
    method QueueText(ip: string)
      requires Valid()
      modifies this`receivedJsonLen, receivedJson, queue`first, queue`last, queue`nodes, queue.nodes
      ensures Valid()
      ensures var r := old(State());
              State() == Received([], r.queue + [Message(CString(r.buffer), |r.buffer|, ip)])
    {
      hide CString;
      ghost var text := receivedJson[..receivedJsonLen];
      receivedJson[receivedJsonLen] := 0;
      assert receivedJson[..receivedJsonLen] == text;
      queue.Insert(Message(CString(receivedJson[..receivedJsonLen]), receivedJsonLen, ip));
      receivedJsonLen := 0;
    }

    method OnReceive(chunk: bytes, ip: string) returns (ok: bool)
      requires Valid()
      modifies this`receivedJsonLen, receivedJson, queue`first, queue`last, queue`nodes, queue.nodes
      ensures Valid() && (State(), ok) == Receive(old(State()), chunk, ip)
    {
      hide Complete, CString;
      if receivedJsonLen + |chunk| > MAX_JSON_SIZE {
        return false;
      }
      Append(chunk);
      receivedJsonLen := receivedJsonLen + |chunk|;
      assert State() == Received(old(State()).buffer + chunk, old(State()).queue);
      var complete := IsCompleteJson(receivedJsonLen);
      if complete {
        QueueText(ip);
      }
      return true;
    }
  }
}
