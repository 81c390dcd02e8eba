/** The ring of packet buffers of lib/indirect_ring_buffer.cc, shared by one producer and one consumer. */
module RingBuffers {
  import opened Options

  const LEN := 10

  datatype Call = Produce | Consume

  /** Head and tail as the source keeps them. */
  datatype Ring = Ring(head: nat, tail: nat)

  /** One call: the new ring and the slot handed out, if any. */
  function Step(r: Ring, c: Call): (Ring, Option<nat>) {
    match c
    case Produce =>
      if r.tail == (r.head + 1) % LEN then (r, None)
      else (Ring((r.head + 1) % LEN, r.tail), Some(r.head))
    case Consume =>
      if r.tail == r.head then (r, None)
      else (Ring(r.head, (r.tail + 1) % LEN), Some(r.tail))
  }

  /** A run of calls in any interleaving: the final ring and the slots handed to each side, oldest first. */
  datatype Trace = Trace(ring: Ring, produced: seq<nat>, consumed: seq<nat>)

  function Run(calls: seq<Call>): Trace {
    if calls == [] then Trace(Ring(0, 0), [], [])
    else
      var t, c := Run(calls[..|calls| - 1]), calls[|calls| - 1];
      var (ring, slot) := Step(t.ring, c);
      if slot == None then Trace(ring, t.produced, t.consumed)
      else if c == Produce then Trace(ring, t.produced + [slot.value], t.consumed)
      else Trace(ring, t.produced, t.consumed + [slot.value])
  }

  ghost predicate Cyclic(s: seq<nat>) {
    forall k :: 0 <= k < |s| ==> s[k] == k % LEN
  }

  /** Two counters less than LEN apart are told apart by their residues. */
  lemma Residues(p: nat, c: nat)
    requires c <= p <= c + LEN - 1
    ensures p % LEN == c % LEN <==> p == c
    ensures (p % LEN + 1) % LEN == c % LEN <==> p == c + LEN - 1
    ensures (p % LEN + 1) % LEN == (p + 1) % LEN && (c % LEN + 1) % LEN == (c + 1) % LEN
  {}

  /** The k-th slot handed to either side is slot k modulo LEN, and the counters are less than LEN apart. */
  ghost predicate Shape(t: Trace) {
    && Cyclic(t.produced) && Cyclic(t.consumed)
    && t.ring == Ring(|t.produced| % LEN, |t.consumed| % LEN)
    && |t.consumed| <= |t.produced| <= |t.consumed| + LEN - 1
  }

  lemma {:induction false} RunShape(calls: seq<Call>)
    ensures Shape(Run(calls))
  {
    if calls != [] {
      RunShape(calls[..|calls| - 1]);
      var t := Run(calls[..|calls| - 1]);
      Residues(|t.produced|, |t.consumed|);
    }
  }

  /** In every interleaving buffers come back in the order they went out and at most nine are outstanding. */
  lemma FirstInFirstOut(calls: seq<Call>)
    ensures var t := Run(calls); t.consumed <= t.produced && |t.produced| - |t.consumed| <= 9
  {
    RunShape(calls);
  }

  /** After `t` only the producer went on, up to `u`. */
  ghost predicate ProducerOnly(t: Trace, u: Trace) {
    u.consumed == t.consumed && t.produced <= u.produced
  }

  lemma {:induction false} ProducingKeeps(calls: seq<Call>, later: seq<Call>)
    requires forall k :: 0 <= k < |later| ==> later[k] == Produce
    ensures ProducerOnly(Run(calls), Run(calls + later))
  {
    if later == [] {
      assert calls + later == calls;
    } else {
      var n := |later| - 1;
      ProducingKeeps(calls, later[..n]);
      assert (calls + later)[..|calls + later| - 1] == calls + later[..n];
    }
  }

  lemma Apart(a: nat, b: nat)
    requires a < b < a + LEN
    ensures a % LEN != b % LEN
  {}

  /** `slot` has not been handed to the producer between `t` and `u`, nor would the next call hand it out. */
  ghost predicate Spared(t: Trace, u: Trace, slot: nat) {
    && (forall k :: |t.produced| <= k < |u.produced| ==> u.produced[k] != slot)
    && Step(u.ring, Produce).1 != Some(slot)
  }

  lemma LastIsSpared(t: Trace, u: Trace)
    requires Shape(t) && Shape(u) && ProducerOnly(t, u) && |t.consumed| > 0
    ensures Spared(t, u, t.consumed[|t.consumed| - 1])
  {
    var last := |t.consumed| - 1;
    forall k | |t.produced| <= k < |u.produced| ensures u.produced[k] != t.consumed[last] {
      Apart(last, k);
    }
    Residues(|u.produced|, |u.consumed|);
    if |u.produced| < last + LEN {
      Apart(last, |u.produced|);
    }
  }

  /** The slot the consumer got last is never handed to the producer before the consumer asks again, although
      tail has already moved past it. */
  lemma ConsumersSlotIsSafe(calls: seq<Call>, later: seq<Call>)
    requires |Run(calls).consumed| > 0
    requires forall k :: 0 <= k < |later| ==> later[k] == Produce
    ensures Spared(Run(calls), Run(calls + later), Run(calls).consumed[|Run(calls).consumed| - 1])
  {
    ProducingKeeps(calls, later);
    RunShape(calls);
    RunShape(calls + later);
    LastIsSpared(Run(calls), Run(calls + later));
  }

  class IndirectRingBuffer<T> {
    const buf: array<T>
    var head: nat
    var tail: nat

    ghost predicate Valid()
      reads this
    {
      buf.Length == LEN && head < LEN && tail < LEN
    }

    constructor (buffers: array<T>)
      requires buffers.Length == LEN
      ensures Valid() && head == 0 && tail == 0 && buf == buffers
    {
      head, tail, buf := 0, 0, buffers;
    }

    method GetFirstFreeBuffer() returns (r: Option<T>)
      requires Valid()
      modifies this
      ensures Valid()
      ensures var (ring, slot) := Step(Ring(old(head), old(tail)), Produce);
        head == ring.head && tail == ring.tail && r == if slot == None then None else Some(buf[slot.value])
    {
      if tail == (head + 1) % LEN {
        return None;
      }
      r := Some(buf[head]);
      head := (head + 1) % LEN;
    }

    method GetFirstUsedBuffer() returns (r: Option<T>)
      requires Valid()
      modifies this
      ensures Valid()
      ensures var (ring, slot) := Step(Ring(old(head), old(tail)), Consume);
        head == ring.head && tail == ring.tail && r == if slot == None then None else Some(buf[slot.value])
    {
      if tail == head {
        return None;
      }
      r := Some(buf[tail]);
      tail := (tail + 1) % LEN;
    }
  }
}
