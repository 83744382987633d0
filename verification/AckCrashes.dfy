/**
 One partition's log read by a consumer that may crash: a crash empties the queue, and reading
 resumes at the offset committed last, or at the earliest message if there is none.
 Stored offsets are committed in the background, so the committed offset may lag behind.
 */
module AckCrashes {
  import opened Wrappers
  import opened AckQueue
  import opened AckRuns

  datatype State = State(
    log: seq<int>,              // offsets in the partition's log
    next: nat,                  // position in the log of the next delivery
    queue: Partition,
    stored: Option<int>,
    committed: Option<int>,
    acked: set<int>)            // offsets acknowledged at least once, in any lifetime

  datatype Step =
    | Produce(offset: int)
    | DeliverNext
    | AckOne(offset: int)
    | CommitStored
    | Crash

  const Initial := State([], 0, NewPartition, None, None, {})

  ghost predicate Enabled(s: State, step: Step) {
    match step
    case Produce(o) => s.log != [] ==> s.log[|s.log| - 1] < o
    case DeliverNext => s.next < |s.log|
    case AckOne(o) => o in s.queue.waiting
    case CommitStored | Crash => true
  }

  /** Where reading resumes: the first message at or after the committed offset. */
  ghost function Resume(log: seq<int>, committed: Option<int>): (i: nat)
    ensures i <= |log|
    ensures forall j :: 0 <= j < i ==> committed.Some? && log[j] < committed.value
    ensures i < |log| && committed.Some? ==> committed.value <= log[i]
  {
    if committed.None? || log == [] || committed.value <= log[0] then 0
    else 1 + Resume(log[1..], committed)
  }

  ghost function Next(s: State, step: Step): State
    requires Enabled(s, step)
  {
    match step
    case Produce(o) => s.(log := s.log + [o])
    case DeliverNext => s.(queue := Added(s.queue, s.log[s.next]), next := s.next + 1)
    case AckOne(o) =>
      s.(queue := Acked(s.queue, o),
         stored := if StoredBy(s.queue, o).Some? then StoredBy(s.queue, o) else s.stored,
         acked := s.acked + {o})
    case CommitStored => s.(committed := s.stored)
    case Crash => s.(queue := NewPartition, next := Resume(s.log, s.committed), stored := s.committed)
  }

  /** `None` is before every offset. */
  ghost predicate AtMost(a: Option<int>, b: Option<int>) {
    a.Some? ==> b.Some? && a.value <= b.value
  }

  ghost predicate Acknowledged(s: State, upTo: Option<int>) {
    upTo.Some? ==> forall o <- s.log :: o <= upTo.value ==> o in s.acked
  }

  ghost predicate Inv(s: State) {
    && Increasing(s.log) && Increasing(s.queue.waiting)
    && s.next <= |s.log|
    && (forall i :: 0 <= i < s.next ==> s.log[i] in s.acked || s.log[i] in s.queue.waiting)
    && (forall w <- s.queue.waiting :: w in s.log[..s.next])
    && (s.queue.waiting != [] ==> s.next > 0 && s.queue.last == s.log[s.next - 1])
    && (s.stored.Some? ==>
          && s.log != [] && s.stored.value <= s.log[|s.log| - 1]
          && (forall w <- s.queue.waiting :: s.stored.value <= w)
          && (forall i :: s.next <= i < |s.log| ==> s.stored.value <= s.log[i]))
    && Acknowledged(s, s.stored)
    && AtMost(s.committed, s.stored)
  }

  lemma {:induction false} RemoveFirstMembers(s: seq<int>, x: int)
    requires Increasing(s) && x in s
    ensures forall y :: y in RemoveFirst(s, x) <==> y in s && y != x
    ensures Increasing(RemoveFirst(s, x))
    ensures RemoveFirst(s, x) != [] && s[0] == x ==> RemoveFirst(s, x) == s[1..]
  {
    var rest := s[1..];
    assert forall y :: y in s <==> y == s[0] || y in rest;
    if s[0] != x {
      RemoveFirstMembers(rest, x);
      var r := RemoveFirst(rest, x);
      forall i | 0 <= i < |r| ensures s[0] < r[i] {
        assert r[i] in rest;
      }
    }
  }

  lemma ProduceKeepsInv(s: State, o: int)
    requires Inv(s) && Enabled(s, Produce(o))
    ensures Inv(Next(s, Produce(o)))
  {
    var s' := Next(s, Produce(o));
    assert s'.log[..s.next] == s.log[..s.next];
  }

  lemma DeliverKeepsInv(s: State)
    requires Inv(s) && Enabled(s, DeliverNext)
    ensures Inv(Next(s, DeliverNext))
  {
    var s' := Next(s, DeliverNext);
    assert s.log[..s.next + 1] == s.log[..s.next] + [s.log[s.next]];
    var w := s'.queue.waiting;
    assert w[|w| - 1] == s.log[s.next];
    forall i, j | 0 <= i < j < |w| ensures w[i] < w[j] {
      assert w[i] in s.queue.waiting;
    }
  }

  /** What an acknowledgement stores lies above every message done and at or below every message pending. */
  lemma StoredByBounds(s: State, o: int)
    requires Inv(s) && o in s.queue.waiting
    ensures var x := StoredBy(s.queue, o);
            x.Some? ==>
              && o <= x.value && s.log != [] && x.value <= s.log[|s.log| - 1]
              && (s.stored.Some? ==> s.stored.value <= x.value)
              && (forall w <- Acked(s.queue, o).waiting :: x.value < w)
              && (forall i :: s.next <= i < |s.log| ==> x.value < s.log[i])
  {
    var q := s.queue.waiting;
    assert q[0] in q;
    RemoveFirstMembers(q, o);
    if q[0] == o && |q| > 1 {
      assert q[1] in s.log[..s.next];
      var i :| 0 <= i < s.next && s.log[i] == q[1];
    } else if q[0] == o {
      var i :| 0 <= i < s.next && s.log[i] == o;
    }
  }

  lemma AckKeepsInv(s: State, o: int)
    requires Inv(s) && Enabled(s, AckOne(o))
    ensures Inv(Next(s, AckOne(o))) && AtMost(s.stored, Next(s, AckOne(o)).stored)
  {
    var s' := Next(s, AckOne(o));
    StoredByBounds(s, o);
    RemoveFirstMembers(s.queue.waiting, o);
    var x := StoredBy(s.queue, o);
    if x.Some? {
      forall m | m in s.log && m <= x.value ensures m in s'.acked {
        var i :| 0 <= i < |s.log| && s.log[i] == m;
      }
    }
  }

  lemma CrashKeepsInv(s: State)
    requires Inv(s)
    ensures Inv(Next(s, Crash))
  {
    var s' := Next(s, Crash);
    forall i | 0 <= i < s'.next ensures s'.log[i] in s'.acked {
      assert s.log[i] in s.log;
    }
    if s.committed.Some? {
      forall i | s'.next <= i < |s.log| ensures s.committed.value <= s.log[i] {
      }
    }
  }

  lemma StepKeepsInv(s: State, step: Step)
    requires Inv(s) && Enabled(s, step)
    ensures Inv(Next(s, step))
    ensures AtMost(s.committed, Next(s, step).committed)
    ensures step.Crash? || AtMost(s.stored, Next(s, step).stored)
  {
    match step
    case Produce(o) => ProduceKeepsInv(s, o);
    case DeliverNext => DeliverKeepsInv(s);
    case AckOne(o) => AckKeepsInv(s, o);
    case CommitStored =>
    case Crash => CrashKeepsInv(s);
  }

  ghost predicate Legal(s: State, steps: seq<Step>)
    decreases |steps|
  {
    steps == [] || (Enabled(s, steps[0]) && Legal(Next(s, steps[0]), steps[1..]))
  }

  ghost function Run(s: State, steps: seq<Step>): State
    requires Legal(s, steps)
    decreases |steps|
  {
    if steps == [] then s else Run(Next(s, steps[0]), steps[1..])
  }

  lemma {:induction false} RunKeepsInv(s: State, steps: seq<Step>)
    requires Inv(s) && Legal(s, steps)
    ensures Inv(Run(s, steps))
    ensures AtMost(s.committed, Run(s, steps).committed)
    ensures Crash !in steps ==> AtMost(s.stored, Run(s, steps).stored)
    decreases |steps|
  {
    if steps != [] {
      StepKeepsInv(s, steps[0]);
      RunKeepsInv(Next(s, steps[0]), steps[1..]);
    }
  }

  /** Through any crashes, every log message at or below the stored or the committed offset has been
      acknowledged at least once; nothing below them is ever skipped. */
  lemma AtLeastOnce(steps: seq<Step>)
    requires Legal(Initial, steps)
    ensures var s := Run(Initial, steps);
            Acknowledged(s, s.stored) && Acknowledged(s, s.committed)
  {
    RunKeepsInv(Initial, steps);
  }

  /** Going on from any reachable state, the committed offset never decreases, and neither does the stored
      one within a lifetime, or over a crash whose offset was already committed. */
  lemma OffsetsNeverDecrease(steps: seq<Step>, more: seq<Step>)
    requires Legal(Initial, steps) && Legal(Run(Initial, steps), more)
    ensures var s := Run(Initial, steps);
            var t := Run(s, more);
            && AtMost(s.committed, t.committed)
            && AtMost(s.committed, t.stored)
            && (Crash !in more || s.committed == s.stored ==> AtMost(s.stored, t.stored))
  {
    RunKeepsInv(Initial, steps);
    RunKeepsInv(Run(Initial, steps), more);
  }

  /** A crash lowers the stored offset unless it had been committed. */
  lemma CrashKeepsStoredIff(s: State)
    requires Inv(s)
    ensures AtMost(s.stored, Next(s, Crash).stored) <==> s.committed == s.stored
  {
  }

  /** The stored offset never falls along the run. */
  ghost predicate NeverFalls(s: State, steps: seq<Step>)
    requires Legal(s, steps)
    decreases |steps|
  {
    steps == [] || (AtMost(s.stored, Next(s, steps[0]).stored) && NeverFalls(Next(s, steps[0]), steps[1..]))
  }

  /** Every crash of the run finds the stored offset committed. */
  ghost predicate CrashesCommitted(s: State, steps: seq<Step>)
    requires Legal(s, steps)
    decreases |steps|
  {
    steps == [] ||
    ((steps[0].Crash? ==> s.committed == s.stored) && CrashesCommitted(Next(s, steps[0]), steps[1..]))
  }

  /** Over any run the stored offset never falls exactly when no crash loses an uncommitted one. */
  lemma {:induction false} NeverFallsIff(s: State, steps: seq<Step>)
    requires Inv(s) && Legal(s, steps)
    ensures NeverFalls(s, steps) <==> CrashesCommitted(s, steps)
    decreases |steps|
  {
    if steps != [] {
      StepKeepsInv(s, steps[0]);
      CrashKeepsStoredIff(s);
      NeverFallsIff(Next(s, steps[0]), steps[1..]);
    }
  }

  lemma RunCons(s: State, step: Step, rest: seq<Step>)
    requires Enabled(s, step) && Legal(Next(s, step), rest)
    ensures Legal(s, [step] + rest) && Run(s, [step] + rest) == Run(Next(s, step), rest)
  {
    assert ([step] + rest)[1..] == rest;
  }

  /** A run of one message: acknowledged, its offset stored and not yet committed, and then a crash or not. */
  lemma CrashLosesStored(o: int)
    ensures var steps := [Produce(o)] + ([DeliverNext] + [AckOne(o)]);
            Legal(Initial, steps) && Run(Initial, steps).stored == Some(o)
    ensures var steps := [Produce(o)] + ([DeliverNext] + ([AckOne(o)] + [Crash]));
            Legal(Initial, steps) && Run(Initial, steps).stored == None
  {
    var s1 := Next(Initial, Produce(o));
    var s2 := Next(s1, DeliverNext);
    assert s1.log == [o] && s2.queue == Partition([o], o);
    var s3 := Next(s2, AckOne(o));
    assert s3.stored == Some(o) && s3.committed == None;
    RunCons(s3, Crash, []);
    assert [Crash] + [] == [Crash] && [AckOne(o)] + [] == [AckOne(o)];
    RunCons(s2, AckOne(o), []);
    RunCons(s2, AckOne(o), [Crash]);
    RunCons(s1, DeliverNext, [AckOne(o)]);
    RunCons(s1, DeliverNext, [AckOne(o)] + [Crash]);
    RunCons(Initial, Produce(o), [DeliverNext] + [AckOne(o)]);
    RunCons(Initial, Produce(o), [DeliverNext] + ([AckOne(o)] + [Crash]));
  }

  /** The stored offset is that of a message already done: reading resumes at that very message, which is
      delivered again, exactly when the committed offset is the offset of a message. */
  lemma RestartRedelivers(s: State, c: int)
    requires Inv(s) && s.committed == Some(c)
    ensures var s' := Next(s, Crash);
            && (s'.next < |s.log| && s.log[s'.next] == c <==> c in s.log)
            && (c in s.log ==> c in s'.acked)
  {
  }
}
