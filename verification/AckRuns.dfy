/**
 Runs of one partition's acknowledgement queue: deliveries in offset order, acknowledgements in any order.
 */
module AckRuns {
  import opened Wrappers
  import opened AckQueue

  datatype Event = Deliver(offset: int) | Ack(offset: int)

  /** The offsets handed to the queue, in order. */
  ghost function Delivered(h: seq<Event>): seq<int> {
    if h == [] then [] else
      var n := |h| - 1;
      Delivered(h[..n]) + if h[n].Deliver? then [h[n].offset] else []
  }

  ghost function Acks(h: seq<Event>): set<int> {
    if h == [] then {} else
      var n := |h| - 1;
      Acks(h[..n]) + if h[n].Ack? then {h[n].offset} else {}
  }

  /** Deliveries have increasing offsets; each acknowledgement is for a delivered message, once. */
  ghost predicate Legal(h: seq<Event>) {
    h == [] ||
    var n := |h| - 1;
    && Legal(h[..n])
    && match h[n]
       case Deliver(o) => forall d <- Delivered(h[..n]) :: d < o
       case Ack(o) => o in Delivered(h[..n]) && o !in Acks(h[..n])
  }

  ghost predicate Increasing(s: seq<int>) {
    forall i, j :: 0 <= i < j < |s| ==> s[i] < s[j]
  }

  ghost function Without(s: seq<int>, gone: set<int>): seq<int> {
    if s == [] then []
    else if s[0] in gone then Without(s[1..], gone)
    else [s[0]] + Without(s[1..], gone)
  }

  /** The length of the longest fully acknowledged prefix. */
  ghost function AckedPrefix(s: seq<int>, acks: set<int>): (n: nat)
    ensures n <= |s|
    ensures forall i :: 0 <= i < n ==> s[i] in acks
    ensures n < |s| ==> s[n] !in acks
  {
    if s == [] || s[0] !in acks then 0 else 1 + AckedPrefix(s[1..], acks)
  }

  /** The queue and the successive offsets stored. Acknowledging an offset that is not waiting
      panics on an empty list and otherwise never leaves the cursor loop. */
  datatype Outcome = Running(queue: Partition, stored: seq<int>) | Stuck

  ghost function After(r: Outcome, e: Event): Outcome {
    if r.Stuck? then Stuck else
      match e
      case Deliver(o) => r.(queue := Added(r.queue, o))
      case Ack(o) =>
        if o !in r.queue.waiting then Stuck
        else Running(Acked(r.queue, o),
                     r.stored + match StoredBy(r.queue, o) case None => [] case Some(x) => [x])
  }

  ghost function Run(h: seq<Event>): Outcome {
    if h == [] then Running(NewPartition, [])
    else After(Run(h[..|h| - 1]), h[|h| - 1])
  }

  /** The queue `r` agrees with the messages delivered and acknowledged so far. */
  ghost predicate Tracks(r: Outcome, d: seq<int>, a: set<int>) {
    && r.Running?
    && Increasing(d)
    && (forall o <- a :: o in d)
    && r.queue.waiting == Without(d, a)
    && (d != [] ==> r.queue.last == d[|d| - 1])
    && Increasing(r.stored)
    && Watermark(d, a, r.stored)
  }

  /** The delivered offsets at or below the last stored one are the longest fully acknowledged prefix. */
  ghost predicate Watermark(d: seq<int>, a: set<int>, s: seq<int>) {
    var n := AckedPrefix(d, a);
    if s == [] then n == 0
    else n > 0 && s[|s| - 1] <= d[|d| - 1]
         && forall i :: 0 <= i < |d| ==> (d[i] <= s[|s| - 1] <==> i < n)
  }

  lemma {:induction false} WithoutMembers(s: seq<int>, gone: set<int>)
    ensures forall x :: x in Without(s, gone) <==> x in s && x !in gone
  {
    if s != [] {
      WithoutMembers(s[1..], gone);
      assert forall x :: x in s <==> x == s[0] || x in s[1..];
    }
  }

  lemma {:induction false} WithoutAppend(s: seq<int>, x: int, gone: set<int>)
    requires x !in gone
    ensures Without(s + [x], gone) == Without(s, gone) + [x]
  {
    if s != [] {
      assert (s + [x])[1..] == s[1..] + [x];
      WithoutAppend(s[1..], x, gone);
    }
  }

  /** The fully acknowledged prefix is gone from the queue, whose front comes right after it. */
  lemma {:induction false} WithoutFront(s: seq<int>, gone: set<int>)
    ensures Without(s, gone) == Without(s[AckedPrefix(s, gone)..], gone)
  {
    if s != [] && s[0] in gone {
      WithoutFront(s[1..], gone);
      assert s[1..][AckedPrefix(s[1..], gone)..] == s[AckedPrefix(s, gone)..];
    } else {
      assert s[0..] == s;
    }
  }

  lemma FrontOf(s: seq<int>, gone: set<int>)
    ensures Without(s, gone) == [] <==> AckedPrefix(s, gone) == |s|
    ensures Without(s, gone) != [] ==> Without(s, gone)[0] == s[AckedPrefix(s, gone)]
  {
    WithoutFront(s, gone);
  }

  lemma {:induction false} WithoutOneMore(s: seq<int>, gone: set<int>, x: int)
    requires Increasing(s) && x in s && x !in gone
    ensures Without(s, gone + {x}) == RemoveFirst(Without(s, gone), x)
  {
    var rest := s[1..];
    if s[0] == x {
      assert x !in rest;
      WithoutIrrelevant(rest, gone, x);
    } else {
      assert x in rest;
      WithoutOneMore(rest, gone, x);
      if s[0] !in gone {
        assert Without(s, gone)[1..] == Without(rest, gone);
      }
    }
  }

  lemma {:induction false} WithoutIrrelevant(s: seq<int>, gone: set<int>, x: int)
    requires x !in s
    ensures Without(s, gone + {x}) == Without(s, gone)
  {
    if s != [] {
      WithoutIrrelevant(s[1..], gone, x);
    }
  }

  lemma {:induction false} AckedPrefixUnique(s: seq<int>, acks: set<int>, n: nat)
    requires n <= |s| && forall i :: 0 <= i < n ==> s[i] in acks
    requires n < |s| ==> s[n] !in acks
    ensures AckedPrefix(s, acks) == n
  {
  }

  lemma IncreasingAppend(d: seq<int>, o: int)
    requires Increasing(d) && forall x <- d :: x < o
    ensures Increasing(d + [o])
  {
    var d' := d + [o];
    forall i, j | 0 <= i < j < |d'| ensures d'[i] < d'[j] {
      assert d[i] in d;
    }
  }

  /** A new delivery is above the watermark. */
  lemma WatermarkAppend(d: seq<int>, a: set<int>, s: seq<int>, o: int)
    requires Watermark(d, a, s) && o !in a && forall x <- d :: x < o
    ensures Watermark(d + [o], a, s)
  {
    AckedPrefixUnique(d + [o], a, AckedPrefix(d, a));
    if s != [] {
      assert d[|d| - 1] in d;
    }
  }

  lemma DeliverTracks(r: Outcome, d: seq<int>, a: set<int>, o: int)
    requires Tracks(r, d, a) && forall x <- d :: x < o
    ensures Tracks(After(r, Deliver(o)), d + [o], a)
  {
    WithoutAppend(d, o, a);
    IncreasingAppend(d, o);
    WatermarkAppend(d, a, r.stored, o);
  }

  lemma AckRemoves(p: Partition, d: seq<int>, a: set<int>, o: int)
    requires Increasing(d) && o in d && o !in a && p.waiting == Without(d, a)
    ensures o in p.waiting && Acked(p, o).waiting == Without(d, a + {o})
    ensures var n := AckedPrefix(d, a); n < |d| && p.waiting[0] == d[n]
  {
    WithoutMembers(d, a);
    WithoutOneMore(d, a, o);
    FrontOf(d, a);
  }

  /** What an acknowledgement stores, in terms of the delivered messages. */
  lemma StoredByFront(p: Partition, d: seq<int>, a: set<int>, o: int)
    requires Increasing(d) && o in d && o !in a
    requires p.waiting == Without(d, a) && p.last == d[|d| - 1]
    ensures o in p.waiting
    ensures var n, m := AckedPrefix(d, a), AckedPrefix(d, a + {o});
            && n < |d|
            && (d[n] != o ==> StoredBy(p, o) == None && n == m)
            && (d[n] == o ==> n < m && StoredBy(p, o) == Some(if m == |d| then d[|d| - 1] else d[m] - 1))
  {
    AckRemoves(p, d, a, o);
    var n, m := AckedPrefix(d, a), AckedPrefix(d, a + {o});
    if d[n] != o {
      AckedPrefixUnique(d, a + {o}, n);
    } else {
      FrontOf(d, a + {o});
      var rest := p.waiting[1..];
      assert rest == Without(d, a + {o});
      assert d[m - 1] in a + {o};
    }
  }

  lemma AckTracks(r: Outcome, d: seq<int>, a: set<int>, o: int)
    requires Tracks(r, d, a) && o in d && o !in a
    ensures Tracks(After(r, Ack(o)), d, a + {o})
  {
    AckRemoves(r.queue, d, a, o);
    StoredByFront(r.queue, d, a, o);
  }

  /** Every legal run keeps the queue in step with what was delivered and acknowledged. */
  lemma {:induction false} RunTracks(h: seq<Event>)
    requires Legal(h)
    ensures Tracks(Run(h), Delivered(h), Acks(h))
  {
    if h != [] {
      var n := |h| - 1;
      RunTracks(h[..n]);
      match h[n]
      case Deliver(o) =>
        DeliverTracks(Run(h[..n]), Delivered(h[..n]), Acks(h[..n]), o);
        assert Acks(h) == Acks(h[..n]);
      case Ack(o) =>
        AckTracks(Run(h[..n]), Delivered(h[..n]), Acks(h[..n]), o);
        assert Delivered(h) == Delivered(h[..n]);
    }
  }

  /** No legal run gets stuck; the queue is the sorted delivered-minus-acknowledged sequence. */
  lemma WaitingExact(h: seq<Event>)
    requires Legal(h)
    ensures Run(h).Running? && Run(h).queue.waiting == Without(Delivered(h), Acks(h))
    ensures Increasing(Run(h).queue.waiting)
  {
    RunTracks(h);
    WithoutIncreasing(Delivered(h), Acks(h));
  }

  lemma {:induction false} WithoutIncreasing(s: seq<int>, gone: set<int>)
    requires Increasing(s)
    ensures Increasing(Without(s, gone))
  {
    if s != [] {
      WithoutIncreasing(s[1..], gone);
      WithoutMembers(s[1..], gone);
      var w := Without(s[1..], gone);
      forall i | 0 <= i < |w| ensures s[0] < w[i] {
        assert w[i] in w;
      }
    }
  }

  /** At every moment the delivered offsets at or below the last stored offset are exactly the longest
      fully acknowledged prefix of what was delivered, and successive stored offsets strictly increase. */
  lemma ExactWatermark(h: seq<Event>)
    requires Legal(h)
    ensures Run(h).Running? && Increasing(Run(h).stored)
    ensures Watermark(Delivered(h), Acks(h), Run(h).stored)
  {
    RunTracks(h);
  }

  /** The last offsets of `s` and `t` divide the deliveries alike, and are the last delivery if all are acknowledged. */
  ghost predicate SameWatermark(d: seq<int>, a: set<int>, s: seq<int>, t: seq<int>) {
    && (s == [] <==> t == [])
    && (s != [] ==> forall o <- d :: o <= s[|s| - 1] <==> o <= t[|t| - 1])
    && (d != [] && (forall o <- d :: o in a) ==> s != [] && s[|s| - 1] == d[|d| - 1])
  }

  /** Whatever the order of acknowledgements and their interleaving with deliveries, two runs with the
      same deliveries and acknowledgements end with the same queue and the same watermark, and once
      everything is acknowledged the last delivered offset is the one stored. */
  lemma AckOrderConfluence(h: seq<Event>, k: seq<Event>)
    requires Legal(h) && Legal(k) && Delivered(h) == Delivered(k) && Acks(h) == Acks(k)
    ensures Run(h).Running? && Run(k).Running? && Run(h).queue == Run(k).queue
    ensures SameWatermark(Delivered(h), Acks(h), Run(h).stored, Run(k).stored)
  {
    SameQueue(h, k);
    ExactWatermark(h);
    ExactWatermark(k);
    WatermarksAgree(Delivered(h), Acks(h), Run(h).stored, Run(k).stored);
  }

  lemma SameQueue(h: seq<Event>, k: seq<Event>)
    requires Legal(h) && Legal(k) && Delivered(h) == Delivered(k) && Acks(h) == Acks(k)
    ensures Run(h).Running? && Run(k).Running? && Run(h).queue == Run(k).queue
  {
    RunTracks(h);
    RunTracks(k);
    if Delivered(h) == [] {
      SomethingDelivered(h);
      SomethingDelivered(k);
    }
  }

  lemma SomethingDelivered(h: seq<Event>)
    requires Legal(h)
    ensures h != [] ==> Delivered(h) != []
  {
  }

  /** Two watermarks over the same deliveries and acknowledgements divide the deliveries alike. */
  lemma WatermarksAgree(d: seq<int>, a: set<int>, s: seq<int>, t: seq<int>)
    requires Watermark(d, a, s) && Watermark(d, a, t)
    ensures SameWatermark(d, a, s, t)
  {
    if s != [] {
      forall o | o in d ensures o <= s[|s| - 1] <==> o <= t[|t| - 1] {
        var i :| 0 <= i < |d| && d[i] == o;
      }
    }
    if d != [] && forall o <- d :: o in a {
      AckedPrefixUnique(d, a, |d|);
      assert d[|d| - 1] <= s[|s| - 1];
    }
  }
}
