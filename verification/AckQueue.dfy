/**
 The per-partition acknowledgement queue. Messages finish in any order; the offset stored with the
 consumer must only move past messages that are all acknowledged.
 */
module AckQueue {
  import opened Wrappers

  /** One partition's queue: offsets delivered and not acknowledged, and the last one delivered. */
  datatype Partition = Partition(waiting: seq<int>, last: int)

  const NewPartition := Partition([], 0)

  function Added(p: Partition, offset: int): Partition {
    Partition(p.waiting + [offset], offset)
  }

  function RemoveFirst(s: seq<int>, x: int): seq<int> {
    if s == [] then [] else if s[0] == x then s[1..] else [s[0]] + RemoveFirst(s[1..], x)
  }

  function Acked(p: Partition, offset: int): Partition
    requires offset in p.waiting
  {
    p.(waiting := RemoveFirst(p.waiting, offset))
  }

  /** The offset an acknowledgement stores: none unless it takes the front of the queue. */
  function StoredBy(p: Partition, offset: int): Option<int>
    requires offset in p.waiting
  {
    var rest := p.waiting[1..];
    if p.waiting[0] != offset then None
    else if rest != [] then Some(rest[0] - 1)
    else Some(if p.last < offset then offset else p.last)
  }

  lemma {:induction false} RemoveFirstAt(s: seq<int>, i: nat)
    requires i < |s| && s[i] !in s[..i]
    ensures RemoveFirst(s, s[i]) == s[..i] + s[i + 1..]
  {
    if i > 0 {
      assert s[1..][i - 1] == s[i];
      assert s[1..][..i - 1] == s[1..i];
      assert forall x :: x in s[1..i] ==> x in s[..i];
      RemoveFirstAt(s[1..], i - 1);
      assert s[..i] == [s[0]] + s[1..i];
      assert s[1..][i..] == s[i + 1..];
    }
  }

  ghost predicate Distinct(s: seq<int>) {
    forall i, j :: 0 <= i < j < |s| ==> s[i] != s[j]
  }

  lemma {:induction false} RemoveFirstDistinct(s: seq<int>, x: int)
    requires Distinct(s) && x in s
    ensures forall y :: y in RemoveFirst(s, x) <==> y in s && y != x
    ensures Distinct(RemoveFirst(s, x))
  {
    var rest := s[1..];
    assert forall y :: y in s <==> y == s[0] || y in rest;
    if s[0] != x {
      RemoveFirstDistinct(rest, x);
      assert s[0] !in rest;
    }
  }

  /** The consumer's side of `store_offsets`. */
  class OffsetStore {
    var offsets: map<int, int>

    constructor ()
      ensures offsets == map[]
    {
      offsets := map[];
    }
  }

  class KafkaPartitionAckQueue {
    var waitingList: seq<int>
    var lastOffset: int
    const partition: int

    function State(): Partition
      reads this
    {
      Partition(waitingList, lastOffset)
    }

    constructor (partition: int)
      ensures State() == NewPartition && this.partition == partition
    {
      this.partition := partition;
      waitingList, lastOffset := [], 0;
    }

    method Add(offset: int)
      modifies this
      ensures State() == Added(old(State()), offset)
    {
      waitingList := waitingList + [offset];
      lastOffset := offset;
    }

    /** Only waiting offsets may be acknowledged: `front().unwrap()` panics on an empty list, and the
        cursor, which wraps around the list, never finds an absent offset. */
    method Ack(offset: int, consumer: OffsetStore)
      requires offset in waitingList
      modifies this, consumer
      ensures State() == Acked(old(State()), offset)
      ensures consumer.offsets ==
              match StoredBy(old(State()), offset)
              case None => old(consumer.offsets)
              case Some(o) => old(consumer.offsets)[partition := o]
    {
      if waitingList[0] == offset {
        waitingList := waitingList[1..];
        var toStore :=
          if waitingList == [] then (if lastOffset < offset then offset else lastOffset)
          else waitingList[0] - 1;
        consumer.offsets := consumer.offsets[partition := toStore];
      } else {
        var item := 0;
        while true
          invariant 0 <= item < |waitingList|
          invariant waitingList == old(waitingList)
          invariant offset !in waitingList[..item + 1]
          decreases |waitingList| - item
        {
          item := item + 1;
          assert waitingList[..item + 1] == waitingList[..item] + [waitingList[item]];
          if waitingList[item] == offset {
            break;
          }
        }
        RemoveFirstAt(waitingList, item);
        waitingList := waitingList[..item] + waitingList[item + 1..];
      }
    }
  }

  type Partitions = map<int, Partition>

  function PartitionOf(ps: Partitions, partition: int): Partition {
    if partition in ps then ps[partition] else NewPartition
  }

  /** One queue per partition, made on a partition's first message. */
  class KafkaAckQueue {
    var queue: map<int, KafkaPartitionAckQueue>
    ghost var view: Partitions  // the queues by partition, as values

    ghost predicate Valid()
      reads this, queue.Values
    {
      && view.Keys == queue.Keys
      && forall p <- queue :: queue[p].partition == p && queue[p].State() == view[p]
    }

    constructor ()
      ensures Valid() && view == map[] && queue == map[]
    {
      queue, view := map[], map[];
    }

    /** `entry(partition).or_insert_with(...)`. */
    method Entry(partition: int)
      requires Valid()
      modifies this
      ensures Valid() && partition in queue && fresh(queue.Values - old(queue.Values))
      ensures view == old(view)[partition := PartitionOf(old(view), partition)]
    {
      if partition !in queue {
        var q := new KafkaPartitionAckQueue(partition);
        queue, view := queue[partition := q], view[partition := NewPartition];
      }
    }

    method Add(partition: int, offset: int)
      requires Valid()
      modifies this, queue.Values
      ensures Valid() && fresh(queue.Values - old(queue.Values))
      ensures view == old(view)[partition := Added(PartitionOf(old(view), partition), offset)]
    {
      Entry(partition);
      var partitionQueue := queue[partition];
      partitionQueue.Add(offset);
      view := view[partition := partitionQueue.State()];
    }

    /** Only a waiting message of a known partition may be acknowledged. */
    method Ack(partition: int, offset: int, consumer: OffsetStore)
      requires Valid() && partition in view && offset in view[partition].waiting
      modifies this, queue.Values, consumer
      ensures Valid() && queue == old(queue)
      ensures view == old(view)[partition := Acked(old(view)[partition], offset)]
      ensures consumer.offsets ==
              match StoredBy(old(view)[partition], offset)
              case None => old(consumer.offsets)
              case Some(o) => old(consumer.offsets)[partition := o]
    {
      var partitionQueue := queue[partition];
      partitionQueue.Ack(offset, consumer);
      view := view[partition := partitionQueue.State()];
    }
  }
}
