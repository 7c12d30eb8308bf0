/**
 The server's linked queue of complete messages
 (FederatedLearningServer/src/websocketserver.c:12-108).
 */
module MessageQueues {
  import opened Bytes

  /** What the handler is given: the copied C string, the length and the sender. */
  datatype Message = Message(text: bytes, length: nat, ip: string)

  class ClientMessage {
    const message: bytes
    const length: nat
    const ip: string
    var previous: ClientMessage?
    var next: ClientMessage?

    constructor (m: Message)
      ensures Value() == m && previous == null && next == null
    {
      message := m.text;
      length := m.length;
      ip := m.ip;
      previous := null;
      next := null;
    }

    function Value(): Message {
      Message(message, length, ip)
    }
  }

  class MessageBuffer {
    var first: ClientMessage?
    var last: ClientMessage?
    /** The messages handed to `handle_clint_model_message`, in order. */
    var handled: seq<Message>
    ghost var nodes: seq<ClientMessage>

    ghost predicate Valid()
      reads this, nodes
    {
      && (forall i, j :: 0 <= i < j < |nodes| ==> nodes[i] != nodes[j])
      && (if nodes == [] then first == null && last == null
          else first == nodes[0] && last == nodes[|nodes| - 1] && nodes[0].previous == null
               && nodes[|nodes| - 1].next == null)
      && (forall i :: 0 <= i < |nodes| - 1 ==> nodes[i].next == nodes[i + 1] && nodes[i + 1].previous == nodes[i])
    }

    ghost function Contents(): seq<Message>
      reads this
    {
      seq(|nodes|, i requires 0 <= i < |nodes| reads this => nodes[i].Value())
    }

    constructor ()
      ensures Valid() && nodes == [] && handled == []
    {
      first := null;
      last := null;
      handled := [];
      nodes := [];
    }

    predicate IsEmpty()
      reads this
    {
      last == null
    }

    method Insert(m: Message)
      requires Valid()
      modifies this`first, this`last, this`nodes, nodes
      ensures Valid() && Contents() == old(Contents()) + [m] && fresh(set n | n in nodes && n !in old(nodes))
    {
      var message := new ClientMessage(m);
      if IsEmpty() {
        first := message;
        last := message;
        message.next := null;
        message.previous := null;
      } else {
        last.next := message;
        message.previous := last;
        message.next := null;
        last := message;
      }
      nodes := nodes + [message];
    }

    /** Hands the first message over and unlinks it. */
    method Remove()
      requires Valid()
      modifies this, nodes
      ensures Valid()
      ensures old(Contents()) == [] ==> Contents() == [] && handled == old(handled)
      ensures old(Contents()) != [] ==>
                Contents() == old(Contents())[1..] && handled == old(handled) + [old(Contents())[0]]
      ensures nodes == if old(nodes) == [] then [] else old(nodes)[1..]
    {
      if IsEmpty() {
        return;
      }
      handled := handled + [first.Value()];
      if first == last {
        assert |nodes| == 1;
        first := null;
        last := null;
      } else {
        assert |nodes| > 1 && nodes[0].next == nodes[1];
        first := first.next;
        first.previous := null;
      }
      nodes := nodes[1..];
    }

    lemma EmptyIs()
      requires Valid()
      ensures IsEmpty() <==> Contents() == []
      ensures |Contents()| == |nodes|
    {
    }

    /** `handle_message` empties the queue: what was inserted first is handled first. */
    method HandleMessages()
      requires Valid()
      modifies this, nodes
      ensures Valid() && Contents() == [] && handled == old(handled) + old(Contents())
    {
      hide Valid, Contents, IsEmpty;
      EmptyIs();
      while !IsEmpty()
        invariant Valid() && handled + Contents() == old(handled) + old(Contents())
        invariant |nodes| <= |old(nodes)| && nodes == old(nodes)[|old(nodes)| - |nodes|..]
        decreases |nodes|
      {
        EmptyIs();
        ghost var before := Contents();
        assert before == [before[0]] + before[1..];
        Remove();
      }
      EmptyIs();
    }
  }
}
