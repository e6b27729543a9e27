/** A price level: the doubly linked FIFO of resting orders at one price, with a running total. */
module PriceLevel {
  import opened PriceTime
  import opened Sequences

  /** One place of the order arena. */
  class OrderSlot {
    var o: Order<nat>
    ghost const idx: nat

    constructor (o: Order<nat>, ghost idx: nat)
      ensures this.o == o && this.idx == idx
    {
      this.o := o;
      this.idx := idx;
    }
  }

  /** One place of the node pool. */
  class Node {
    var order: OrderSlot?
    var prev: Node?
    var next: Node?
    ghost const idx: nat

    constructor (ghost idx: nat)
      ensures this.idx == idx
    {
      order, prev, next := null, null, null;
      this.idx := idx;
    }
  }

  function EntryOf(o: Order<nat>): Entry<nat> {
    Entry(o.id, o.price, o.Remaining())
  }

  function Total(queue: seq<Entry<nat>>): int {
    if queue == [] then 0 else queue[0].rem + Total(queue[1..])
  }

  lemma {:induction false} TotalConcat(a: seq<Entry<nat>>, b: seq<Entry<nat>>)
    ensures Total(a + b) == Total(a) + Total(b)
  {
    if a == [] {
      assert a + b == b;
    } else {
      TotalConcat(a[1..], b);
      assert (a + b)[1..] == a[1..] + b;
    }
  }

  function Without<T>(s: seq<T>, k: nat): seq<T>
    requires k < |s|
  {
    s[..k] + s[k+1..]
  }

  lemma WithoutAt<T>(s: seq<T>, k: nat)
    requires k < |s|
    ensures |Without(s, k)| == |s| - 1
    ensures forall i :: 0 <= i < |s| - 1 ==> Without(s, k)[i] == s[if i < k then i else i + 1]
    ensures Distinct(s) ==> Distinct(Without(s, k))
  {
  }

  lemma TotalWithout(queue: seq<Entry<nat>>, k: nat)
    requires k < |queue|
    ensures Total(Without(queue, k)) == Total(queue) - queue[k].rem
  {
    TotalConcat(queue[..k], queue[k+1..]);
    TotalConcat(queue[..k], queue[k..]);
    assert queue == queue[..k] + queue[k..];
  }

  class Level {
    const price: int
    var head: Node?
    var tail: Node?
    var total: int

    ghost const side: Side
    ghost var nodes: seq<Node>
    ghost var slots: seq<OrderSlot>
    ghost var queue: seq<Entry<nat>>

    /** Head, tail, next and prev all describe the one sequence `nodes`. */
    ghost predicate Linked()
      reads `nodes, `head, `tail, nodes`prev, nodes`next
    {
      && (nodes == [] ==> head == null && tail == null)
      && (nodes != [] ==>
          && head == nodes[0] && nodes[0].prev == null
          && tail == nodes[|nodes| - 1] && nodes[|nodes| - 1].next == null)
      && (forall i {:trigger nodes[i].next} :: 0 <= i < |nodes| - 1 ==> nodes[i].next == nodes[i + 1])
      && (forall i {:trigger nodes[i].prev} :: 0 < i < |nodes| ==> nodes[i].prev == nodes[i - 1])
      && Distinct(nodes)
    }

    /** Node `n` carries the order in `s`, which is live, belongs to this level and reads as `e`. */
    ghost predicate Carries(n: Node, s: OrderSlot, e: Entry<nat>)
      reads n`order, s`o
    {
      n.order == s && EntryOf(s.o) == e && s.o.side == side && e.price == price && e.rem > 0
    }

    ghost predicate AllCarry()
      reads `nodes, `slots, `queue, nodes`order, slots`o
    {
      && |nodes| == |slots| == |queue|
      && (forall i :: 0 <= i < |nodes| ==> Carries(nodes[i], slots[i], queue[i]))
      && Distinct(slots)
    }

    ghost predicate Valid()
      reads this, nodes, slots
    {
      Linked() && AllCarry() && total == Total(queue)
    }

    lemma Facts()
      requires Valid()
      ensures |nodes| == |slots| == |queue|
      ensures head == null <==> queue == []
      ensures forall i :: 0 <= i < |queue| ==> queue[i].price == price && queue[i].rem > 0
    {
      assert forall i :: 0 <= i < |nodes| ==> Carries(nodes[i], slots[i], queue[i]);
    }

    constructor (price: int, ghost side: Side)
      ensures this.price == price && this.side == side
      ensures Valid() && nodes == [] && slots == [] && queue == []
    {
      this.price, this.side := price, side;
      head, tail, total := null, null, 0;
      nodes, slots, queue := [], [], [];
    }

    /** Append a node to the tail. */
    method Push(n: Node)
      requires Valid() && n !in nodes && n.prev == null && n.next == null
      requires n.order != null && n.order !in slots
      requires n.order.o.side == side && n.order.o.price == price && n.order.o.Remaining() > 0
      modifies this, n`prev, nodes`next
      ensures Valid()
      ensures nodes == old(nodes) + [n] && slots == old(slots) + [n.order]
      ensures queue == old(queue) + [EntryOf(n.order.o)]
    {
      hide Linked, Distinct, Carries;
      ghost var ns, ss, qs := nodes, slots, queue;
      NewCarries(n);
      Link(n);
      CarryMore(ns, ss, qs, n, n.order);
      total := total + n.order.o.Remaining();
      TotalConcat(queue, [EntryOf(n.order.o)]);
      slots, queue := slots + [n.order], queue + [EntryOf(n.order.o)];
    }

    lemma NewCarries(n: Node)
      requires n.order != null && n.order.o.side == side && n.order.o.price == price && n.order.o.Remaining() > 0
      ensures Carries(n, n.order, EntryOf(n.order.o))
    {
    }

    lemma CarryMore(ns: seq<Node>, ss: seq<OrderSlot>, qs: seq<Entry<nat>>, n: Node, slot: OrderSlot)
      requires |ns| == |ss| == |qs| && Distinct(ss) && slot !in ss
      requires forall i :: 0 <= i < |ns| ==> Carries(ns[i], ss[i], qs[i])
      requires Carries(n, slot, EntryOf(slot.o))
      ensures var ns', ss', qs' := ns + [n], ss + [slot], qs + [EntryOf(slot.o)];
        Distinct(ss') && forall i :: 0 <= i < |ns'| ==> Carries(ns'[i], ss'[i], qs'[i])
    {
      hide Carries;
    }

    method Link(n: Node)
      requires Linked() && n !in nodes && n.prev == null && n.next == null
      modifies `head, `tail, `nodes, n`prev, nodes`next
      ensures Linked() && nodes == old(nodes) + [n]
    {
      if tail == null {
        head := n;
        tail := n;
      } else {
        n.prev := tail;
        tail.next := n;
        tail := n;
      }
      nodes := nodes + [n];
    }

    /** Unlink a node in constant time. */
    method Remove(n: Node, ghost k: nat)
      requires Valid() && k < |nodes| && nodes[k] == n
      modifies this, nodes`prev, nodes`next
      ensures Valid()
      ensures nodes == Without(old(nodes), k) && slots == Without(old(slots), k) && queue == Without(old(queue), k)
    {
      hide Without, Total, Distinct, Linked;
      ghost var ns, ss, qs := nodes, slots, queue;
      assert Carries(n, ss[k], qs[k]);
      Unlink(n, k);
      total := total - n.order.o.Remaining();
      TotalWithout(qs, k);
      CarryWithout(ns, ss, qs, k);
      slots, queue := Without(ss, k), Without(qs, k);
    }

    lemma CarryWithout(ns: seq<Node>, ss: seq<OrderSlot>, qs: seq<Entry<nat>>, k: nat)
      requires k < |ns| == |ss| == |qs| && Distinct(ss)
      requires forall i :: 0 <= i < |ns| ==> Carries(ns[i], ss[i], qs[i])
      ensures |Without(ns, k)| == |Without(ss, k)| == |Without(qs, k)| && Distinct(Without(ss, k))
      ensures forall i :: 0 <= i < |Without(ns, k)| ==> Carries(Without(ns, k)[i], Without(ss, k)[i], Without(qs, k)[i])
    {
      WithoutAt(ns, k);
      WithoutAt(ss, k);
      WithoutAt(qs, k);
    }

    method Unlink(n: Node, ghost k: nat)
      requires Linked() && k < |nodes| && nodes[k] == n
      modifies `head, `tail, `nodes, nodes`prev, nodes`next
      ensures Linked() && nodes == Without(old(nodes), k)
    {
      hide Without;
      ghost var ns := nodes;
      if n.prev != null {
        n.prev.next := n.next;
      } else {
        head := n.next;
      }
      if n.next != null {
        n.next.prev := n.prev;
      } else {
        tail := n.prev;
      }
      n.prev := null;
      n.next := null;
      WithoutAt(ns, k);
      nodes := Without(ns, k);
    }

    /** Fill `qty` of the oldest order; unlink it when nothing of it remains. */
    method TakeHead(qty: int) returns (done: bool)
      requires Valid() && nodes != [] && 0 < qty <= queue[0].rem
      modifies this, nodes`prev, slots`o
      ensures Valid()
      ensures done <==> qty == old(queue[0].rem)
      ensures done ==> nodes == old(nodes)[1..] && slots == old(slots)[1..] && queue == old(queue)[1..]
      ensures !done ==> nodes == old(nodes) && slots == old(slots)
      ensures !done ==> queue == old(queue)[0 := old(queue[0]).(rem := old(queue[0].rem) - qty)]
    {
      hide Linked, Distinct;
      ghost var ns, ss, qs := nodes, slots, queue;
      assert Carries(ns[0], ss[0], qs[0]);
      HeadIsFirst();
      var maker := head.order;
      maker.o := maker.o.(filled := maker.o.filled + qty);
      total := total - qty;
      if maker.o.Remaining() == 0 {
        done := true;
        PopHead();
        DistinctTail(ss);
        slots, queue := ss[1..], qs[1..];
      } else {
        done := false;
        queue := qs[0 := qs[0].(rem := qs[0].rem - qty)];
        assert queue[1..] == qs[1..];
        DistinctAt(ss, 0);
      }
    }

    lemma HeadFacts()
      requires Valid() && nodes != []
      ensures |slots| == |queue| == |nodes| && head != null && head.order == slots[0]
      ensures EntryOf(slots[0].o) == queue[0] && queue[0].rem > 0
    {
      assert Carries(nodes[0], slots[0], queue[0]);
    }

    lemma HeadIsFirst()
      requires Linked() && nodes != []
      ensures head == nodes[0]
    {
    }

    method PopHead()
      requires Linked() && nodes != []
      modifies `head, `tail, `nodes, nodes`prev
      ensures Linked() && nodes == old(nodes)[1..]
    {
      head := head.next;
      if head != null {
        head.prev := null;
      } else {
        tail := null;
      }
      nodes := nodes[1..];
    }

    predicate Empty()
      reads this
    {
      head == null
    }
  }
}
