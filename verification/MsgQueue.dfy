/**
 The message queue: a doubly linked list between two sentinels, as one thread at a time sees it.
 */
module MsgQueue {

  datatype Message<Peer> = Message(raw: seq<bv8>, kind: bv8, peer: Peer)

  /** msgnode_t; a sentinel carries no message. */
  class Node<Peer(0)> {
    var next: Node?<Peer>
    var prev: Node?<Peer>
    var size: nat
    var raw: seq<bv8>
    var kind: bv8
    var peer: Peer

    constructor ()
      ensures next == null && prev == null
    {
      next, prev, size, raw, kind, peer := null, null, 0, [], *, *;
    }

    /** A node for a copy of the message. */
    constructor Of(raw: seq<bv8>, kind: bv8, peer: Peer)
      ensures this.raw == raw && size == |raw| && this.kind == kind && this.peer == peer
    {
      next, prev, size, this.raw, this.kind, this.peer := null, null, |raw|, raw, kind, peer;
    }
  }

  /** uint32_t arithmetic */
  function Wrap(x: int): (r: nat)
    ensures r < 0x1_0000_0000
  {
    x % 0x1_0000_0000
  }

  /** The nodes are distinct, and next and prev are mutual inverses along them. */
  ghost predicate Linked<Peer(0)>(chain: seq<Node<Peer>>)
    reads chain
  {
    && (forall i, j :: 0 <= i < j < |chain| ==> chain[i] != chain[j])
    && (forall i :: 0 <= i < |chain| - 1 ==> chain[i].next == chain[i + 1])
    && (forall i :: 0 < i < |chain| ==> chain[i].prev == chain[i - 1])
  }

  /** Every node's size is that of its message. */
  ghost predicate Sized<Peer(0)>(nodes: seq<Node<Peer>>)
    reads nodes`size, nodes`raw
  {
    forall i :: 0 <= i < |nodes| ==> nodes[i].size == |nodes[i].raw|
  }

  ghost function MessageOf<Peer(0)>(n: Node<Peer>): (r: Message<Peer>)
    reads n`raw, n`kind, n`peer
  {
    Message(n.raw, n.kind, n.peer)
  }

  /** The messages of nodes listed newest first, oldest first. */
  ghost function Messages<Peer(0)>(nodes: seq<Node<Peer>>): (s: seq<Message<Peer>>)
    reads nodes`raw, nodes`kind, nodes`peer
    ensures |s| == |nodes|
  {
    if |nodes| == 0 then [] else Messages(nodes[1..]) + [MessageOf(nodes[0])]
  }

  lemma {:induction false} OldestFirst<Peer(0)>(nodes: seq<Node<Peer>>)
    requires |nodes| > 0
    ensures Messages(nodes) == [MessageOf(nodes[|nodes| - 1])] + Messages(nodes[..|nodes| - 1])
  {
    if |nodes| > 1 {
      OldestFirst(nodes[1..]);
      assert nodes[..|nodes| - 1][1..] == nodes[1..][..|nodes| - 2];
    }
  }

  lemma NewestLast<Peer(0)>(msg: Node<Peer>, nodes: seq<Node<Peer>>)
    ensures Messages([msg] + nodes) == Messages(nodes) + [Message(msg.raw, msg.kind, msg.peer)]
    ensures Sized(nodes) && msg.size == |msg.raw| ==> Sized([msg] + nodes)
  {
    assert ([msg] + nodes)[1..] == nodes;
  }

  lemma LastNode<Peer(0)>(chain: seq<Node<Peer>>)
    requires |chain| >= 2 && Linked(chain)
    ensures chain[|chain| - 1].prev == chain[|chain| - 2]
  {
  }

  /** The nodes between the sentinels, after one more was linked behind the head. */
  lemma InnerNodes<Peer(0)>(before: seq<Node<Peer>>, after: seq<Node<Peer>>, head: Node<Peer>, msg: Node<Peer>)
    requires |before| >= 2 && after == [head, msg] + before[1..]
    ensures |after| == |before| + 1 && after[0] == head && after[1] == msg
    ensures after[1..|after| - 1] == [msg] + before[1..|before| - 1] && after[2..] == before[1..]
    ensures after[|after| - 1] == before[|before| - 1]
  {
  }

  lemma WrapStep(n: nat, length: nat)
    requires length == Wrap(n)
    ensures Wrap(length + 1) == Wrap(n + 1) && (n > 0 ==> Wrap(length - 1) == Wrap(n - 1))
  {
  }

  /** msgqueue_t */
  class Queue<Peer(0)> {
    var head: Node<Peer>
    var tail: Node<Peer>
    var length: nat
    ghost var chain: seq<Node<Peer>> // from head to tail, newest message first

    /** One chain from sentinel to sentinel. */
    ghost predicate Chained()
      reads this`head, this`tail, this`chain, chain
    {
      && |chain| >= 2 && head == chain[0] && tail == chain[|chain| - 1]
      && Linked(chain) && chain[0].prev == null && chain[|chain| - 1].next == null
      && Sized(chain[1..|chain| - 1])
    }

    /** And length counts the nodes between the sentinels. */
    ghost predicate Valid()
      reads this, chain
    {
      Chained() && length == Wrap(|chain| - 2)
    }

    /** The waiting messages, oldest first. */
    ghost function Contents(): (s: seq<Message<Peer>>)
      requires |chain| >= 2
      reads this`chain, chain
      ensures |s| == |chain| - 2
    {
      Messages(chain[1..|chain| - 1])
    }

    /** The node before tail is head exactly when the list is empty, and only head has none before it. */
    lemma Ends()
      requires Chained()
      ensures tail.prev != null && (tail.prev.prev == null <==> |chain| == 2)
      ensures |chain| == 2 ==> tail.prev == head
    {
      LastNode(chain);
      assert |chain| > 2 ==> chain[|chain| - 2].prev == chain[|chain| - 3];
    }

    /** msgqueue_init */
    constructor ()
      ensures Valid() && Contents() == [] && fresh(chain)
    {
      var h := new Node<Peer>();
      var t := new Node<Peer>();
      h.next := t;
      t.prev := h;
      head, tail, length, chain := h, t, 0, [h, t];
    }

    /** The four pointer writes of msgqueue_enqueue. */
    method LinkAfterHead(msg: Node<Peer>)
      requires |chain| >= 2 && head == chain[0] && Linked(chain) && msg !in chain
      requires chain[0].prev == null && chain[|chain| - 1].next == null
      modifies this`chain, chain`next, chain`prev, msg`next, msg`prev
      ensures chain == [head, msg] + old(chain[1..]) && Linked(chain)
      ensures chain[0].prev == null && chain[|chain| - 1].next == null
    {
      ghost var before := chain;
      assert before[0].next == before[1];
      msg.next := head.next;
      msg.prev := head;
      head.next.prev := msg;
      head.next := msg;
      chain := [head, msg] + before[1..];
      assert forall i :: 2 <= i < |chain| ==> chain[i] == before[i - 1];
    }

    /** A message linked in: it becomes the last of the contents. */
    method Link(msg: Node<Peer>)
      requires Chained() && msg !in chain && msg.size == |msg.raw|
      modifies this`chain, chain`next, chain`prev, msg`next, msg`prev
      ensures Chained() && |chain| == |old(chain)| + 1 && chain == [head, msg] + old(chain[1..])
      ensures Contents() == old(Contents()) + [Message(msg.raw, msg.kind, msg.peer)]
    {
      hide Linked, Messages, Sized, MessageOf;
      ghost var before, nodes := chain, chain[1..|chain| - 1];
      LinkAfterHead(msg);
      InnerNodes(before, chain, head, msg);
      NewestLast(msg, nodes);
    }

    /** msgqueue_enqueue, between lock and unlock. */
    method Enqueue(raw: array<bv8>, size: nat, kind: bv8, peer: Peer) returns (newLength: nat)
      requires Valid() && size <= raw.Length
      modifies this, chain
      ensures Valid() && head == old(head) && tail == old(tail)
      ensures Contents() == old(Contents()) + [Message(raw[..size], kind, peer)]
      ensures newLength == Wrap(|chain| - 2) && fresh(chain[1]) && chain[2..] == old(chain[1..])
    {
      hide Linked, Messages, Wrap, Sized, Chained, Contents;
      var msg := new Node<Peer>.Of(raw[..size], kind, peer);
      ChainedLength();
      WrapStep(|chain| - 2, length);
      Link(msg);
      length := Wrap(length + 1);
      newLength := length;
    }

    lemma ChainedLength()
      requires Chained()
      ensures |chain| >= 2
    {
      hide Linked, Sized;
    }

    /** The two pointer writes of msgqueue_dequeue. */
    method UnlinkBeforeTail()
      requires |chain| > 2 && tail == chain[|chain| - 1] && Linked(chain)
      requires chain[0].prev == null && chain[|chain| - 1].next == null
      modifies this`chain, chain`next, chain`prev
      ensures chain == old(chain[..|chain| - 2]) + [tail] && Linked(chain)
      ensures chain[0].prev == null && chain[|chain| - 1].next == null
    {
      ghost var before, k := chain, |chain| - 2;
      var msg := tail.prev;
      assert msg == before[k] && msg.prev == before[k - 1];
      msg.prev.next := tail;
      tail.prev := msg.prev;
      chain := before[..k] + [tail];
      assert forall i :: 0 <= i < k ==> chain[i] == before[i];
    }

    /** The oldest message's node unlinked. */
    method Unlink() returns (msg: Node<Peer>)
      requires Chained() && |chain| > 2
      modifies this`chain, chain`next, chain`prev
      ensures Chained() && chain == old(chain[..|chain| - 2]) + [tail] && msg.size == |msg.raw|
      ensures old(Contents()) == [Message(msg.raw, msg.kind, msg.peer)] + Contents()
    {
      hide Linked, Messages;
      ghost var before, k := chain, |chain| - 2;
      ghost var nodes := chain[1..k + 1];
      OldestFirst(nodes);
      LastNode(chain);
      msg := tail.prev;
      assert nodes[k - 1] == msg;
      UnlinkBeforeTail();
      assert chain[1..|chain| - 1] == nodes[..k - 1];
    }

    /** msgqueue_dequeue, between lock and unlock, when a message is waiting. */
    method Dequeue() returns (raw: seq<bv8>, size: nat, kind: bv8, peer: Peer, newLength: nat)
      requires Valid() && |chain| > 2
      modifies this, chain
      ensures Valid() && head == old(head) && tail == old(tail)
      ensures Message(raw, kind, peer) == old(Contents()[0]) && size == |raw|
      ensures Contents() == old(Contents())[1..]
      ensures newLength == Wrap(|chain| - 2) && chain == old(chain[..|chain| - 2]) + [tail]
    {
      hide Linked, Messages, Wrap, Sized, Chained, Contents;
      WrapStep(|chain| - 2, length);
      var msg := Unlink();
      size := msg.size;
      raw := msg.raw;
      kind := msg.kind;
      peer := msg.peer;
      length := Wrap(length - 1);
      newLength := length;
    }

    /** msgqueue_peek_size; a queue of 2^32 messages would read as empty. */
    method PeekSize() returns (size: nat)
      requires Valid()
      ensures size == if length == 0 then 0 else |Contents()[0].raw|
      ensures |chain| - 2 < 0x1_0000_0000 ==> (length == 0 <==> Contents() == [])
    {
      if length == 0 {
        return 0;
      }
      LastNode(chain);
      OldestFirst(chain[1..|chain| - 1]);
      size := tail.prev.size;
    }
  }
}
