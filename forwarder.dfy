/** Message forwarders: `F` hands every message to one publisher; `Balancing`
    hands each message to the next publisher of a list, round robin. */
module Forwarder {
  import opened Wrappers
  import opened Primitives

  /** An `IPublisher`, recording what it was handed. */
  class Publisher<M> {
    var published: seq<M>

    constructor ()
      ensures published == []
    {
      published := [];
    }

    method Publish(message: M)
      modifies this
      ensures published == old(published) + [message]
    {
      published := published + [message];
    }
  }

  /** `Forwarder.F`: publishes everything on one destination. */
  class F<M> {
    const to: Publisher<M>

    constructor (to: Publisher<M>)
      ensures this.to == to
    {
      this.to := to;
    }

    method Handle(message: M)
      modifies to
      ensures to.published == old(to.published) + [message]
    {
      to.Publish(message);
    }
  }

  /** The cursor step of `Balancing.Handle`: back to 0 after the last index,
      else one further (wrapping around as an `int` does). */
  function Next(last: int32, count: int32): (next: int32)
    ensures 0 <= last < count ==> 0 <= next < count && next == WrapOnce(last + 1, count)
  {
    if last == count - 1 then 0 else WrapToInt32(last + 1)
  }

  /** Indexing the publisher list outside its bounds. */
  datatype ForwardError = ArgumentOutOfRange

  /** `Forwarder.Balancing`. The publisher list is read-only; its length is an
      `int` `Count`. */
  class Balancing<M> {
    const to: seq<Publisher<M>>
    var last: int32

    /** With a non-empty list the cursor always indexes it. */
    predicate Valid()
      reads this
    {
      |to| <= Int32Max && (|to| > 0 ==> 0 <= last < |to|)
    }

    constructor (to: seq<Publisher<M>>)
      requires |to| <= Int32Max
      ensures this.to == to && last == 0
      ensures Valid()
    {
      this.to := to;
      last := 0;
    }

    /** `Balancing.Handle`: advances the cursor, then publishes to the
        publisher it names; an empty list makes the indexer throw, after the
        cursor has moved. */
    method Handle(message: M) returns (r: Outcome<ForwardError>)
      requires Valid()
      modifies this, set i | 0 <= i < |to| :: to[i]
      ensures Valid()
      ensures last == Next(old(last), |to|)
      ensures r.Pass? <==> |to| > 0
      ensures r.Pass? ==> var target := to[last]; target.published == old(target.published) + [message]
      ensures forall p :: p in to && p != to[last] ==> p.published == old(p.published)
    {
      last := Next(last, |to|);
      if last < 0 || last >= |to| {
        return Fail(ArgumentOutOfRange);
      }
      to[last].Publish(message);
      return Pass;
    }
  }

  /** The indexes the next `n` messages go to, from cursor `last`. */
  function Targets(last: int32, count: int32, n: nat): (ts: seq<int32>)
    requires 0 <= last < count
    ensures |ts| == n
    ensures forall k :: 0 <= k < n ==> 0 <= ts[k] < count
    decreases n
  {
    if n == 0 then [] else
      var next := Next(last, count);
      [next] + Targets(next, count, n - 1)
  }

  /** `x mod count` for `0 <= x < 2 * count`. */
  function WrapOnce(x: int, count: int): int {
    if x >= count then x - count else x
  }

  /** Within `count` messages, the `k`-th next message goes to index
      `(last + 1 + k) mod count`. */
  lemma {:induction false} TargetsAreConsecutive(last: int32, count: int32, n: nat)
    requires 0 <= last < count && n <= count
    ensures forall k :: 0 <= k < n ==> Targets(last, count, n)[k] == WrapOnce(last + 1 + k, count)
    decreases n
  {
    if n > 0 {
      var next := Next(last, count);
      TargetsAreConsecutive(next, count, n - 1);
      forall k | 1 <= k < n
        ensures Targets(last, count, n)[k] == WrapOnce(last + 1 + k, count)
      {
        assert Targets(last, count, n)[k] == Targets(next, count, n - 1)[k - 1];
      }
    }
  }

  /** Over any `count` consecutive messages every publisher receives exactly
      one: the targets are distinct and cover every index. */
  lemma EachTargetOnce(last: int32, count: int32)
    requires 0 <= last < count
    ensures var ts := Targets(last, count, count);
      && (forall j, k :: 0 <= j < k < count ==> ts[j] != ts[k])
      && (forall i :: 0 <= i < count ==> i in ts)
  {
    var ts := Targets(last, count, count);
    TargetsAreConsecutive(last, count, count);
    forall i | 0 <= i < count
      ensures i in ts
    {
      var k := if i > last then i - last - 1 else i + count - last - 1;
      assert ts[k] == i;
    }
  }

  /** The cursor starts at 0, so with two or more publishers the first
      message goes to the second one. */
  lemma FirstMessageGoesToSecond(count: int32)
    requires count > 1
    ensures Targets(0, count, 1) == [1]
  {
  }
}
