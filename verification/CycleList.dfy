/** The sentinel-based intrusive list of lib/cycle_list.cc. */
module CycleLists {

  class Elem {
    var prev: Elem?
    var next: Elem?
  }

  /** The cyclic successor of position `k`. */
  function CyclicNext<T>(s: seq<T>, k: nat): T
    requires k < |s|
  {
    if k + 1 == |s| then s[0] else s[k + 1]
  }

  class CycleList {
    const head: Elem
    const tail: Elem
    /** The elements between the sentinels. */
    ghost var nodes: seq<Elem>

    ghost predicate Valid()
      reads this, head, tail, nodes
    {
      && head != tail && head !in nodes && tail !in nodes
      && head.prev == null && tail.next == null
      && (forall i, j :: 0 <= i < j < |nodes| ==> nodes[i] != nodes[j])
      && (|nodes| == 0 ==> head.next == tail && tail.prev == head)
      && (|nodes| > 0 ==>
            && head.next == nodes[0] && nodes[0].prev == head
            && tail.prev == nodes[|nodes| - 1] && nodes[|nodes| - 1].next == tail)
      && (forall i {:trigger nodes[i].next} :: 0 <= i < |nodes| - 1 ==> nodes[i].next == nodes[i + 1])
      && (forall i {:trigger nodes[i].prev} :: 0 < i < |nodes| ==> nodes[i].prev == nodes[i - 1])
    }

    ghost function Footprint(): set<Elem>
      reads this
    {
      {head, tail} + set e | e in nodes
    }

    constructor ()
      ensures Valid() && nodes == [] && fresh(head) && fresh(tail)
    {
      var h := new Elem;
      var t := new Elem;
      head, tail := h, t;
      nodes := [];
      h.prev, t.next := null, null;
      h.next, t.prev := t, h;
    }

    method Append(elem: Elem)
      requires Valid() && elem !in Footprint()
      modifies this, elem, tail, tail.prev
      ensures Valid() && nodes == old(nodes) + [elem]
    {
      elem.prev := tail.prev;
      elem.next := tail;
      tail.prev.next := elem;
      tail.prev := elem;
      nodes := nodes + [elem];
    }

    method Push(elem: Elem)
      requires Valid() && elem !in Footprint()
      modifies this, elem, head, head.next
      ensures Valid() && nodes == [elem] + old(nodes)
    {
      elem.prev := head;
      elem.next := head.next;
      head.next.prev := elem;
      head.next := elem;
      nodes := [elem] + nodes;
    }

    /** Unlinks `nodes[k]`; the removed element keeps its own, now stale, pointers. */
    method Remove(elem: Elem, ghost k: nat)
      requires Valid() && k < |nodes| && nodes[k] == elem
      modifies this, elem.prev, elem.next
      ensures Valid() && nodes == old(nodes)[..k] + old(nodes)[k + 1..]
      ensures elem.next == old(elem.next) && elem.prev == old(elem.prev)
    {
      elem.next.prev := elem.prev;
      elem.prev.next := elem.next;
      nodes := nodes[..k] + nodes[k + 1..];
    }

    /** The source pops without a test for emptiness: callers must know an element is there. */
    method Pop() returns (elem: Elem)
      requires Valid() && |nodes| > 0
      modifies this, head, head.next, head.next.next
      ensures Valid() && elem == old(nodes)[0] && nodes == old(nodes)[1..]
    {
      elem := head.next;
      Remove(elem, 0);
    }

    method IsEmpty() returns (b: bool)
      requires Valid()
      ensures b <==> nodes == []
    {
      b := head.next == tail;
    }

    method GetLength() returns (i: nat)
      requires Valid()
      ensures i == |nodes|
    {
      i := 0;
      var elem := head.next;
      while elem != tail
        invariant i <= |nodes|
        invariant elem == if i < |nodes| then nodes[i] else tail
        decreases |nodes| - i
      {
        elem := elem.next;
        i := i + 1;
      }
    }

    /** The loop of get_elem never advances: every index in range yields the first element. */
    method GetElem(idx: int) returns (elem: Elem?)
      requires Valid()
      ensures elem == if idx > |nodes| - 1 then null else if nodes == [] then tail else nodes[0]
    {
      var l: int := GetLength();
      if idx > l - 1 {
        return null;
      }
      elem := head.next;
    }

    method NextElem(cur: Elem) returns (elem: Elem?)
      requires Valid()
      ensures cur in nodes ==>
        exists k :: 0 <= k < |nodes| && nodes[k] == cur && elem == CyclicNext(nodes, k)
      ensures elem == if cur.next == tail then head.next else cur.next
    {
      if cur in nodes {
        ghost var k :| 0 <= k < |nodes| && nodes[k] == cur;
      }
      if cur.next == tail {
        elem := head.next;
      } else {
        elem := cur.next;
      }
    }

    /** What schedule does when the current process has just unlinked itself: the stale pointer still
        leads to the cyclic successor the element had, as long as another element is left. */
    method RemoveThenNext(elem: Elem, ghost k: nat) returns (succ: Elem?)
      requires Valid() && k < |nodes| && nodes[k] == elem
      modifies this, elem.prev, elem.next
      ensures Valid() && nodes == old(nodes)[..k] + old(nodes)[k + 1..]
      ensures |nodes| > 0 ==> succ == CyclicNext(old(nodes), k) && succ in nodes
      ensures |nodes| == 0 ==> succ == tail
    {
      ghost var was := nodes;
      Remove(elem, k);
      succ := NextElem(elem);
      if |nodes| > 0 {
        if k + 1 == |was| {
          assert nodes[0] == was[0];
        } else {
          assert nodes[k] == was[k + 1];
        }
      }
    }
  }

  /** Moving an element between two lists changes nothing else of either, as the slab allocator and the ready
      queues rely on. */
  method Move(from: CycleList, to: CycleList, elem: Elem, ghost k: nat)
    requires from.Valid() && to.Valid() && from != to && from.Footprint() !! to.Footprint()
    requires k < |from.nodes| && from.nodes[k] == elem
    modifies from, to, from.Footprint(), to.Footprint()
    ensures from.Valid() && from.nodes == old(from.nodes)[..k] + old(from.nodes)[k + 1..]
    ensures to.Valid() && to.nodes == old(to.nodes) + [elem]
  {
    assert elem.prev in from.Footprint() && elem.next in from.Footprint();
    from.Remove(elem, k);
    assert to.Valid();
    assert elem !in from.nodes;
    assert to.tail.prev in to.Footprint();
    to.Append(elem);
  }
}
