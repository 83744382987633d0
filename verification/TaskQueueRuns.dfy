/**
 Every interleaving of tasks acquiring, receiving, cancelling and dropping guards on the per-key lock.
 */
module TaskQueueRuns {
  import opened Wrappers
  import opened TaskQueue

  /** The lock's state, with the arrivals and the grants of every key in the order they happened. */
  datatype State = State(locks: Locks, tasks: Tasks, arrived: seq<(Key, Task)>, granted: seq<(Key, Task)>)

  const Initial := State(map[], map[], [], [])

  datatype Step =
    | Acquire(key: Key, task: Task)
    | Receive(task: Task)        // the permit arrives and the guard is made
    | CancelWaiting(task: Task)  // the receiver is dropped before the permit is sent
    | CancelGranted(task: Task)  // the receiver is dropped with the permit in it
    | Drop(task: Task)           // the guard is dropped

  ghost predicate Is(s: State, t: Task, status: Status) {
    t in s.tasks && s.tasks[t] == status
  }

  ghost predicate Enabled(s: State, step: Step) {
    match step
    case Acquire(key, t) => t !in s.tasks
    case Receive(t) => t in s.tasks && s.tasks[t].Granted?
    case CancelGranted(t) => t in s.tasks && s.tasks[t].Granted?
    case CancelWaiting(t) => t in s.tasks && s.tasks[t].Waiting?
    case Drop(t) => t in s.tasks && s.tasks[t].Holding?
  }

  ghost function AfterAcquire(s: State, key: Key, t: Task): State {
    var (locks, tasks) := Acquired(s.locks, s.tasks, key, t);
    State(locks, tasks, s.arrived + [(key, t)], if tasks[t].Granted? then s.granted + [(key, t)] else s.granted)
  }

  ghost function AfterDrop(s: State, t: Task, key: Key): State
    requires key in s.locks
  {
    var done, queue := s.tasks[t := Done], s.locks[key].queue;
    var n := Dead(queue, done);
    var (locks, tasks) := Released(s.locks, done, key);
    State(locks, tasks, s.arrived, if n < |queue| then s.granted + [(key, queue[n])] else s.granted)
  }

  /** A guard dropped for a key that is not in the map would panic: `None`. */
  ghost function Next(s: State, step: Step): Option<State>
    requires Enabled(s, step)
  {
    match step
    case Acquire(key, t) => Some(AfterAcquire(s, key, t))
    case Receive(t) => Some(s.(tasks := s.tasks[t := Holding(s.tasks[t].key)]))
    case CancelWaiting(t) => Some(s.(tasks := s.tasks[t := Cancelled]))
    case CancelGranted(t) => Some(s.(tasks := s.tasks[t := Lost(s.tasks[t].key)]))
    case Drop(t) =>
      var key := s.tasks[t].key;
      if key in s.locks then Some(AfterDrop(s, t, key)) else None
  }

  /** The task has the permit of the key, in its channel or as a guard. */
  ghost predicate Owns(s: State, t: Task, key: Key) {
    Is(s, t, Granted(key)) || Is(s, t, Holding(key))
  }

  /** The task has the permit or took it down with its receiver. */
  ghost predicate Occupies(s: State, t: Task, key: Key) {
    Owns(s, t, key) || Is(s, t, Lost(key))
  }

  ghost predicate InvAt(s: State, key: Key) {
    && (key in s.locks ==>
          && s.locks[key].isBlocked
          && (exists t :: Occupies(s, t, key))
          && Queued(s, key))
    && (forall t :: Occupies(s, t, key) ==> key in s.locks)
    && (forall t, u :: Occupies(s, t, key) && Occupies(s, u, key) ==> t == u)
    && (forall t :: Is(s, t, Waiting(key)) ==> key in s.locks && t in s.locks[key].queue)
  }

  ghost predicate Queued(s: State, key: Key)
    requires key in s.locks
  {
    var queue := s.locks[key].queue;
    && (forall i, j :: 0 <= i < j < |queue| ==> queue[i] != queue[j])
    && (forall t <- queue :: Is(s, t, Waiting(key)) || Is(s, t, Cancelled))
  }

  ghost predicate Inv(s: State) {
    forall key :: InvAt(s, key)
  }

  lemma AcquireKeepsInvAt(s: State, key: Key, t: Task, k: Key)
    requires Inv(s) && t !in s.tasks
    ensures InvAt(Next(s, Acquire(key, t)).value, k)
  {
    var s' := Next(s, Acquire(key, t)).value;
    assert InvAt(s, k);
    forall u: Task, x: Status | u != t ensures Is(s', u, x) <==> Is(s, u, x) {}
    assert forall u: Task, x: Status :: Is(s, u, x) ==> u != t;
    forall u
      ensures Occupies(s', u, k) <==> if u == t then k == key && key !in s.locks else Occupies(s, u, k)
    {
      assert InvAt(s, key);
    }
    if k in s.locks {
      var u :| Occupies(s, u, k);
      assert Occupies(s', u, k);
      assert t !in s.locks[k].queue;
    } else if k == key {
      assert Occupies(s', t, k);
    }
  }

  /** A status change that keeps every permit and every waiting or cancelled task as it was. */
  lemma RelabelKeepsInvAt(s: State, t: Task, status: Status, k: Key)
    requires Inv(s) && t in s.tasks
    requires var s' := s.(tasks := s.tasks[t := status]);
             (Occupies(s', t, k) <==> Occupies(s, t, k))
    requires !Is(s, t, Cancelled) && !status.Waiting? && (s.tasks[t].Waiting? ==> status.Cancelled?)
    ensures InvAt(s.(tasks := s.tasks[t := status]), k)
  {
    var s' := s.(tasks := s.tasks[t := status]);
    assert InvAt(s, k);
    forall u: Task, x: Status | u != t ensures Is(s', u, x) <==> Is(s, u, x) {}
    forall u ensures Occupies(s', u, k) <==> Occupies(s, u, k) {}
    if k in s.locks {
      var u :| Occupies(s, u, k);
      assert Occupies(s', u, k);
    }
  }

  /** With no live waiter the key is removed, its only occupant being the guard dropped. */
  lemma DropLastKeepsInvAt(s: State, t: Task, k: Key)
    requires Inv(s) && Enabled(s, Drop(t)) && s.tasks[t].key in s.locks
    requires var queue := s.locks[s.tasks[t].key].queue; Dead(queue, s.tasks[t := Done]) == |queue|
    ensures InvAt(Next(s, Drop(t)).value, k)
  {
    var key := s.tasks[t].key;
    assert InvAt(s, key) && InvAt(s, k) && Occupies(s, t, key);
    var s' := Next(s, Drop(t)).value;
    forall u: Task, x: Status | u != t ensures Is(s', u, x) <==> Is(s, u, x) {}
    forall u ensures Occupies(s', u, k) <==> u != t && Occupies(s, u, k) {}
    if k != key && k in s.locks {
      var u :| Occupies(s, u, k);
      assert Occupies(s', u, k);
    }
    forall u | Is(s', u, Waiting(key)) ensures false {
      var queue := s.locks[key].queue;
      assert Is(s, u, Waiting(key));
      var i :| 0 <= i < |queue| && queue[i] == u;
      DeadAt(queue, s.tasks[t := Done], i);
    }
  }

  lemma LiveBehind(queue: seq<Task>, tasks: Tasks, n: nat, u: Task)
    requires n == Dead(queue, tasks) < |queue|
    requires u in queue && u != queue[n] && u in tasks && tasks[u].Waiting?
    ensures u in queue[n + 1..]
  {
    var i :| 0 <= i < |queue| && queue[i] == u;
    if i < n {
      DeadAt(queue, tasks, i);
    }
    assert queue[n + 1..][i - n - 1] == u;
  }

  /** With a live waiter the permit changes hands. */
  lemma DropHandsOver(s: State, t: Task, n: nat)
    requires Enabled(s, Drop(t)) && s.tasks[t].key in s.locks && InvAt(s, s.tasks[t].key)
    requires var queue := s.locks[s.tasks[t].key].queue; n == Dead(queue, s.tasks[t := Done]) < |queue|
    ensures var key := s.tasks[t].key;
            var s', queue := Next(s, Drop(t)).value, s.locks[key].queue;
            && s'.locks == s.locks[key := Lock(true, queue[n + 1..])]
            && s'.tasks == s.tasks[t := Done][queue[n] := Granted(key)]
            && queue[n] != t && Is(s, queue[n], Waiting(key))
  {
    var key := s.tasks[t].key;
    assert Occupies(s, t, key);
    var queue := s.locks[key].queue;
    assert queue[n] in queue;
  }

  /** Nobody but the task that hands over and the one that takes over is affected. */
  lemma HandedOver(s: State, s': State, t: Task, w: Task, key: Key)
    requires Is(s, t, Holding(key)) && Is(s, w, Waiting(key)) && s'.tasks == s.tasks[t := Done][w := Granted(key)]
    ensures forall u, x ::
              Is(s', u, x) <==> if u == w then x == Granted(key) else if u == t then x == Done else Is(s, u, x)
    ensures forall u, k :: Occupies(s', u, k) <==> if u == w then k == key else u != t && Occupies(s, u, k)
  {
  }

  /** The waiters behind the one served stay queued. */
  lemma StillQueued(s: State, s': State, t: Task, n: nat, key: Key)
    requires key in s.locks && Queued(s, key) && Is(s, t, Holding(key))
    requires var queue := s.locks[key].queue;
             && n == Dead(queue, s.tasks[t := Done]) < |queue| && Is(s, queue[n], Waiting(key))
             && s'.locks == s.locks[key := Lock(true, queue[n + 1..])]
             && s'.tasks == s.tasks[t := Done][queue[n] := Granted(key)]
    requires forall u :: Is(s, u, Waiting(key)) ==> u in s.locks[key].queue
    ensures Queued(s', key) && forall u :: Is(s', u, Waiting(key)) ==> u in s'.locks[key].queue
  {
    var queue := s.locks[key].queue;
    HandedOver(s, s', t, queue[n], key);
    forall u | Is(s', u, Waiting(key)) ensures u in queue[n + 1..] {
      assert Is(s, u, Waiting(key));
      LiveBehind(queue, s.tasks[t := Done], n, u);
    }
    forall u | u in queue[n + 1..] ensures Is(s', u, Waiting(key)) || Is(s', u, Cancelled) {
      assert u in queue && u != queue[n];
    }
  }

  /** The key stays in the map. */
  lemma DropHandsOverOwn(s: State, t: Task, n: nat)
    requires Enabled(s, Drop(t)) && s.tasks[t].key in s.locks && InvAt(s, s.tasks[t].key)
    requires var queue := s.locks[s.tasks[t].key].queue; n == Dead(queue, s.tasks[t := Done]) < |queue|
    ensures InvAt(Next(s, Drop(t)).value, s.tasks[t].key)
  {
    DropHandsOver(s, t, n);
    var key := s.tasks[t].key;
    var s', w := Next(s, Drop(t)).value, s.locks[key].queue[n];
    assert Occupies(s, t, key);
    HandedOver(s, s', t, w, key);
    StillQueued(s, s', t, n, key);
    assert Occupies(s', w, key);
  }

  lemma DropHandsOverOther(s: State, t: Task, k: Key, n: nat)
    requires Enabled(s, Drop(t)) && s.tasks[t].key in s.locks && k != s.tasks[t].key
    requires InvAt(s, s.tasks[t].key) && InvAt(s, k)
    requires var queue := s.locks[s.tasks[t].key].queue; n == Dead(queue, s.tasks[t := Done]) < |queue|
    ensures InvAt(Next(s, Drop(t)).value, k)
  {
    DropHandsOver(s, t, n);
    var key := s.tasks[t].key;
    var s', w := Next(s, Drop(t)).value, s.locks[key].queue[n];
    HandedOver(s, s', t, w, key);
    if k in s.locks {
      var u :| Occupies(s, u, k);
      assert Occupies(s', u, k);
    }
  }

  lemma DropKeepsInvAt(s: State, t: Task, k: Key)
    requires Inv(s) && Enabled(s, Drop(t))
    ensures Next(s, Drop(t)).Some? && InvAt(Next(s, Drop(t)).value, k)
  {
    var key := s.tasks[t].key;
    assert InvAt(s, key) && InvAt(s, k) && Occupies(s, t, key);
    var n := Dead(s.locks[key].queue, s.tasks[t := Done]);
    if n < |s.locks[key].queue| {
      if k == key {
        DropHandsOverOwn(s, t, n);
      } else {
        DropHandsOverOther(s, t, k, n);
      }
    } else {
      DropLastKeepsInvAt(s, t, k);
    }
  }

  lemma StepKeepsInv(s: State, step: Step)
    requires Inv(s) && Enabled(s, step)
    ensures Next(s, step).Some? && Inv(Next(s, step).value)
  {
    if step.Drop? {
      DropKeepsInvAt(s, step.task, s.tasks[step.task].key);
    }
    forall k ensures InvAt(Next(s, step).value, k) {
      match step
      case Acquire(key, t) => AcquireKeepsInvAt(s, key, t, k);
      case Receive(t) => RelabelKeepsInvAt(s, t, Holding(s.tasks[t].key), k);
      case CancelWaiting(t) => RelabelKeepsInvAt(s, t, Cancelled, k);
      case CancelGranted(t) => RelabelKeepsInvAt(s, t, Lost(s.tasks[t].key), k);
      case Drop(t) => DropKeepsInvAt(s, t, k);
    }
  }

  ghost predicate Legal(s: State, steps: seq<Step>)
    decreases |steps|
  {
    steps == [] ||
    (Enabled(s, steps[0]) && (Next(s, steps[0]).Some? ==> Legal(Next(s, steps[0]).value, steps[1..])))
  }

  ghost function Run(s: State, steps: seq<Step>): Option<State>
    requires Legal(s, steps)
    decreases |steps|
  {
    if steps == [] then Some(s)
    else if Next(s, steps[0]).None? then None
    else Run(Next(s, steps[0]).value, steps[1..])
  }

  lemma {:induction false} RunKeepsInv(s: State, steps: seq<Step>)
    requires Inv(s) && Legal(s, steps)
    ensures Run(s, steps).Some? && Inv(Run(s, steps).value)
    decreases |steps|
  {
    if steps != [] {
      StepKeepsInv(s, steps[0]);
      RunKeepsInv(Next(s, steps[0]).value, steps[1..]);
    }
  }

  lemma InitialInv()
    ensures Inv(Initial)
  {
    forall key ensures InvAt(Initial, key) {}
  }

  /** No run panics. At most one task owns a key, and a key is in the map exactly when some task owns it
      or took its permit down. */
  lemma MutualExclusion(steps: seq<Step>, key: Key)
    requires Legal(Initial, steps)
    ensures Run(Initial, steps).Some?
    ensures var s := Run(Initial, steps).value;
            && (forall t, u :: Owns(s, t, key) && Owns(s, u, key) ==> t == u)
            && (key in s.locks <==> exists t :: Occupies(s, t, key))
  {
    InitialInv();
    RunKeepsInv(Initial, steps);
    var s := Run(Initial, steps).value;
    assert InvAt(s, key);
    forall t, u | Owns(s, t, key) && Owns(s, u, key) ensures t == u {
      assert Occupies(s, t, key) && Occupies(s, u, key);
    }
  }

  /** A live waiter sits in the queue of its key, at one place, and in no other queue; so its sender is
      never dropped and its `unwrap` never fires. */
  lemma WaiterQueuedOnce(steps: seq<Step>, t: Task, key: Key) returns (i: nat)
    requires Legal(Initial, steps)
    requires Run(Initial, steps).Some? ==> Is(Run(Initial, steps).value, t, Waiting(key))
    ensures Run(Initial, steps).Some?
    ensures var s := Run(Initial, steps).value;
            && key in s.locks && At(s.locks[key].queue, i, t)
            && forall l, j :: l in s.locks && At(s.locks[l].queue, j, t) ==> l == key && j == i
  {
    InitialInv();
    RunKeepsInv(Initial, steps);
    var s := Run(Initial, steps).value;
    assert InvAt(s, key);
    i :| 0 <= i < |s.locks[key].queue| && s.locks[key].queue[i] == t;
    forall l, j | l in s.locks && At(s.locks[l].queue, j, t)
      ensures l == key && j == i
    {
      assert InvAt(s, l);
      assert t in s.locks[l].queue;
    }
  }

  ghost predicate At(queue: seq<Task>, i: int, t: Task) {
    0 <= i < |queue| && queue[i] == t
  }

  ghost predicate HasLost(s: State) {
    exists t :: t in s.tasks && s.tasks[t].Lost?
  }

  lemma StepLost(s: State, step: Step)
    requires Inv(s) && Enabled(s, step)
    ensures Next(s, step).Some?
    ensures forall t, key :: Is(s, t, Lost(key)) ==> Is(Next(s, step).value, t, Lost(key))
    ensures HasLost(Next(s, step).value) <==> HasLost(s) || step.CancelGranted?
  {
    StepKeepsInv(s, step);
    var s' := Next(s, step).value;
    forall t, key | Is(s, t, Lost(key)) ensures Is(s', t, Lost(key)) {}
    if HasLost(s) {
      var t :| t in s.tasks && s.tasks[t].Lost?;
      assert Is(s, t, Lost(s.tasks[t].key));
    } else if step.CancelGranted? {
      assert s'.tasks[step.task].Lost?;
    }
  }

  lemma {:induction false} RunLost(s: State, steps: seq<Step>)
    requires Inv(s) && Legal(s, steps)
    ensures Run(s, steps).Some?
    ensures HasLost(Run(s, steps).value) <==> HasLost(s) || exists step <- steps :: step.CancelGranted?
    ensures forall t, key :: Is(s, t, Lost(key)) ==> Is(Run(s, steps).value, t, Lost(key))
    decreases |steps|
  {
    if steps != [] {
      StepKeepsInv(s, steps[0]);
      StepLost(s, steps[0]);
      RunLost(Next(s, steps[0]).value, steps[1..]);
      assert forall step :: step in steps <==> step == steps[0] || step in steps[1..];
    }
  }

  /** Every key in the map has an owner exactly when no receiver was dropped with a permit inside. */
  lemma NoLostWakeUpIff(steps: seq<Step>)
    requires Legal(Initial, steps)
    ensures Run(Initial, steps).Some?
    ensures (forall key :: key in Run(Initial, steps).value.locks ==>
                             exists t :: Owns(Run(Initial, steps).value, t, key))
            <==> forall step <- steps :: !step.CancelGranted?
  {
    InitialInv();
    RunKeepsInv(Initial, steps);
    RunLost(Initial, steps);
    var s := Run(Initial, steps).value;
    if HasLost(s) {
      var t :| t in s.tasks && s.tasks[t].Lost?;
      var key := s.tasks[t].key;
      assert InvAt(s, key) && Occupies(s, t, key);
      forall u ensures !Owns(s, u, key) {
        assert Owns(s, u, key) ==> Occupies(s, u, key);
      }
    } else {
      forall key | key in s.locks ensures exists t :: Owns(s, t, key) {
        assert InvAt(s, key);
        var t :| Occupies(s, t, key);
        assert Owns(s, t, key);
      }
    }
  }

  /** A permit dropped with its receiver is gone for good: whatever follows, nobody owns the key again. */
  lemma LostPermitBlocksForever(s: State, t: Task, key: Key, steps: seq<Step>)
    requires Inv(s) && Is(s, t, Lost(key)) && Legal(s, steps)
    ensures Run(s, steps).Some? && key in Run(s, steps).value.locks
    ensures forall u :: !Owns(Run(s, steps).value, u, key)
  {
    RunKeepsInv(s, steps);
    RunLost(s, steps);
    var s' := Run(s, steps).value;
    assert InvAt(s', key) && Occupies(s', t, key);
    forall u ensures !Owns(s', u, key) {
      assert Owns(s', u, key) ==> Occupies(s', u, key);
    }
  }

  /** The tasks logged for one key, in order. */
  ghost function ForKey(log: seq<(Key, Task)>, key: Key): seq<Task> {
    if log == [] then []
    else
      var n := |log| - 1;
      if log[n].0 == key then ForKey(log[..n], key) + [log[n].1] else ForKey(log[..n], key)
  }

  /** The tasks that did not cancel, in order. */
  ghost function NotCancelled(ts: seq<Task>, tasks: Tasks): seq<Task> {
    if ts == [] then []
    else
      var n := |ts| - 1;
      if ts[n] in tasks && tasks[ts[n]].Cancelled? then NotCancelled(ts[..n], tasks)
      else NotCancelled(ts[..n], tasks) + [ts[n]]
  }

  ghost function QueueOf(s: State, key: Key): seq<Task> {
    LockOf(s.locks, key).queue
  }

  /** The arrivals at a key split into those served, which were granted in order or cancelled, and its queue. */
  ghost predicate ServedInOrder(s: State, key: Key, served: seq<Task>) {
    && ForKey(s.arrived, key) == served + QueueOf(s, key)
    && ForKey(s.granted, key) == NotCancelled(served, s.tasks)
    && forall t <- served :: t in s.tasks && !s.tasks[t].Waiting?
  }

  lemma ForKeyAppend(log: seq<(Key, Task)>, e: (Key, Task), key: Key)
    ensures ForKey(log + [e], key) == if e.0 == key then ForKey(log, key) + [e.1] else ForKey(log, key)
  {
    assert (log + [e])[..|log|] == log;
  }

  lemma {:induction false} NotCancelledAppend(ts: seq<Task>, us: seq<Task>, tasks: Tasks)
    ensures NotCancelled(ts + us, tasks) == NotCancelled(ts, tasks) + NotCancelled(us, tasks)
  {
    if us == [] {
      assert ts + us == ts;
    } else {
      var n := |us| - 1;
      assert (ts + us)[..|ts + us| - 1] == ts + us[..n];
      NotCancelledAppend(ts, us[..n], tasks);
    }
  }

  lemma {:induction false} NotCancelledSame(ts: seq<Task>, before: Tasks, after: Tasks)
    requires forall t <- ts :: (t in before && before[t].Cancelled?) <==> (t in after && after[t].Cancelled?)
    ensures NotCancelled(ts, before) == NotCancelled(ts, after)
  {
    if ts != [] {
      assert ts[|ts| - 1] in ts;
      assert forall t <- ts[..|ts| - 1] :: t in ts;
      NotCancelledSame(ts[..|ts| - 1], before, after);
    }
  }

  lemma {:induction false} AllCancelled(ts: seq<Task>, tasks: Tasks)
    requires forall t <- ts :: t in tasks && tasks[t].Cancelled?
    ensures NotCancelled(ts, tasks) == []
  {
    if ts != [] {
      assert ts[|ts| - 1] in ts;
      assert forall t <- ts[..|ts| - 1] :: t in ts;
      AllCancelled(ts[..|ts| - 1], tasks);
    }
  }

  lemma AcquireBlocked(s: State, k: Key, t: Task, key: Key, served: seq<Task>)
    requires k in s.locks && s.locks[k].isBlocked
    requires t !in s.tasks && ServedInOrder(s, key, served)
    ensures ServedInOrder(AfterAcquire(s, k, t), key, served)
  {
    var s' := AfterAcquire(s, k, t);
    ForKeyAppend(s.arrived, (k, t), key);
    NotCancelledSame(served, s.tasks, s'.tasks);
    assert served + (QueueOf(s, key) + [t]) == served + QueueOf(s, key) + [t];
  }

  /** A free key is granted at once. */
  lemma AcquireFree(s: State, k: Key, t: Task, served: seq<Task>)
    requires k !in s.locks
    requires t !in s.tasks && ServedInOrder(s, k, served)
    ensures ServedInOrder(AfterAcquire(s, k, t), k, served + [t])
  {
    var s' := AfterAcquire(s, k, t);
    assert s'.tasks == s.tasks[t := Granted(k)] && QueueOf(s, k) == [] == QueueOf(s', k);
    ForKeyAppend(s.arrived, (k, t), k);
    ForKeyAppend(s.granted, (k, t), k);
    NotCancelledSame(served, s.tasks, s'.tasks);
    NotCancelledAppend(served, [t], s'.tasks);
    assert NotCancelled([t], s'.tasks) == [t];
    assert served + [] == served && (served + [t]) + [] == served + [t];
  }

  lemma AcquireFreeOther(s: State, k: Key, t: Task, key: Key, served: seq<Task>)
    requires k !in s.locks && k != key
    requires t !in s.tasks && ServedInOrder(s, key, served)
    ensures ServedInOrder(AfterAcquire(s, k, t), key, served)
  {
    var s' := AfterAcquire(s, k, t);
    assert s'.tasks == s.tasks[t := Granted(k)] && QueueOf(s', key) == QueueOf(s, key);
    ForKeyAppend(s.arrived, (k, t), key);
    ForKeyAppend(s.granted, (k, t), key);
    NotCancelledSame(served, s.tasks, s'.tasks);
  }

  /** The front of a queue up to the waiter served by a guard drop. */
  ghost function Front(queue: seq<Task>, n: nat): seq<Task>
    requires n <= |queue|
  {
    if n == |queue| then queue else queue[..n + 1]
  }

  lemma DeadCancelled(queue: seq<Task>, done: Tasks)
    requires forall u <- queue :: u in done && (done[u].Waiting? || done[u].Cancelled?)
    ensures forall u <- queue[..Dead(queue, done)] :: u in done && done[u].Cancelled?
  {
    var n := Dead(queue, done);
    forall u | u in queue[..n] ensures u in done && done[u].Cancelled? {
      var i :| 0 <= i < n && queue[i] == u;
      DeadAt(queue, done, i);
      assert queue[i] in queue;
    }
  }

  /** Of those a guard drop serves only the last, the one granted, did not cancel. */
  lemma FrontGrants(queue: seq<Task>, tasks: Tasks, n: nat)
    requires n <= |queue|
    requires forall u <- queue[..n] :: u in tasks && tasks[u].Cancelled?
    requires n < |queue| ==> queue[n] in tasks && tasks[queue[n]].Granted?
    ensures NotCancelled(Front(queue, n), tasks) == if n < |queue| then [queue[n]] else []
  {
    AllCancelled(queue[..n], tasks);
    if n < |queue| {
      NotCancelledAppend(queue[..n], [queue[n]], tasks);
      assert Front(queue, n) == queue[..n] + [queue[n]];
      assert NotCancelled([queue[n]], tasks) == [queue[n]];
    } else {
      assert queue[..n] == queue;
    }
  }

  /** Ending a task splits the queue into those served now and those still waiting. */
  lemma EndedSplits(queue: seq<Task>, done: Tasks)
    requires forall u <- queue :: u in done && (done[u].Waiting? || done[u].Cancelled?)
    ensures var n, ended := Dead(queue, done), Ended(Lock(true, queue), done);
            && queue == Front(queue, n) + ended.0.queue
            && (forall u <- queue[..n] :: u in ended.1 && ended.1[u].Cancelled?)
            && (n < |queue| ==> queue[n] in ended.1 && ended.1[queue[n]].Granted?)
            && forall u <- Front(queue, n) :: u in ended.1 && !ended.1[u].Waiting?
  {
    var n, tasks := Dead(queue, done), Ended(Lock(true, queue), done).1;
    DeadCancelled(queue, done);
    forall u | u in Front(queue, n) ensures u in tasks && !tasks[u].Waiting? {
      assert n < |queue| ==> Front(queue, n) == queue[..n] + [queue[n]];
      assert n == |queue| ==> queue[..n] == queue;
    }
  }

  lemma DropServesSelf(s: State, t: Task, k: Key, served: seq<Task>) returns (served': seq<Task>)
    requires k in s.locks && s.locks[k].isBlocked && ServedInOrder(s, k, served)
    requires t in s.tasks && s.tasks[t].Holding?
    requires forall u <- s.locks[k].queue :: u in s.tasks && (s.tasks[u] == Waiting(k) || s.tasks[u].Cancelled?)
    ensures ServedInOrder(AfterDrop(s, t, k), k, served')
  {
    var s', queue := AfterDrop(s, t, k), s.locks[k].queue;
    var n := Dead(queue, s.tasks[t := Done]);
    EndedSplits(queue, s.tasks[t := Done]);
    FrontGrants(queue, s'.tasks, n);
    assert QueueOf(s', k) == Ended(Lock(true, queue), s.tasks[t := Done]).0.queue;
    var front := Front(queue, n);
    served' := served + front;
    NotCancelledSame(served, s.tasks, s'.tasks);
    NotCancelledAppend(served, front, s'.tasks);
    assert served + (front + QueueOf(s', k)) == served' + QueueOf(s', k);
    if n < |queue| {
      ForKeyAppend(s.granted, (k, queue[n]), k);
    }
    forall u | u in served' ensures u in s'.tasks && !s'.tasks[u].Waiting? {
      assert u in served || u in front;
    }
  }

  lemma DropServesOther(s: State, t: Task, k: Key, key: Key, served: seq<Task>)
    requires k in s.locks && k != key && ServedInOrder(s, key, served)
    requires t in s.tasks && s.tasks[t].Holding?
    ensures ServedInOrder(AfterDrop(s, t, k), key, served)
  {
    var s', queue := AfterDrop(s, t, k), s.locks[k].queue;
    var n := Dead(queue, s.tasks[t := Done]);
    NotCancelledSame(served, s.tasks, s'.tasks);
    assert QueueOf(s', key) == QueueOf(s, key);
    if n < |queue| {
      ForKeyAppend(s.granted, (k, queue[n]), key);
    }
  }

  lemma StepServes(s: State, step: Step, key: Key, served: seq<Task>) returns (served': seq<Task>)
    requires Inv(s) && Enabled(s, step) && ServedInOrder(s, key, served)
    ensures Next(s, step).Some? && ServedInOrder(Next(s, step).value, key, served')
  {
    match step
    case Acquire(k, t) =>
      assert InvAt(s, k);
      if k in s.locks {
        AcquireBlocked(s, k, t, key, served);
        served' := served;
      } else if k == key {
        AcquireFree(s, k, t, served);
        served' := served + [t];
      } else {
        AcquireFreeOther(s, k, t, key, served);
        served' := served;
      }
    case Drop(t) =>
      StepKeepsInv(s, step);
      var k := s.tasks[t].key;
      assert InvAt(s, k);
      if k == key {
        served' := DropServesSelf(s, t, k, served);
      } else {
        DropServesOther(s, t, k, key, served);
        served' := served;
      }
    case Receive(_) => NotCancelledSame(served, s.tasks, Next(s, step).value.tasks); served' := served;
    case CancelWaiting(_) => NotCancelledSame(served, s.tasks, Next(s, step).value.tasks); served' := served;
    case CancelGranted(_) => NotCancelledSame(served, s.tasks, Next(s, step).value.tasks); served' := served;
  }

  lemma {:induction false} RunServes(s: State, steps: seq<Step>, key: Key, served: seq<Task>)
    returns (served': seq<Task>)
    requires Inv(s) && Legal(s, steps) && ServedInOrder(s, key, served)
    ensures Run(s, steps).Some? && ServedInOrder(Run(s, steps).value, key, served')
    decreases |steps|
  {
    if steps == [] {
      served' := served;
    } else {
      StepKeepsInv(s, steps[0]);
      served' := StepServes(s, steps[0], key, served);
      served' := RunServes(Next(s, steps[0]).value, steps[1..], key, served');
    }
  }

  /** A key's permits are granted in the order its tasks arrived, with only cancelled waiters passed over;
      everyone else who arrived is still in its queue, in that order. */
  lemma GrantsInArrivalOrder(steps: seq<Step>, key: Key) returns (served: seq<Task>)
    requires Legal(Initial, steps)
    ensures Run(Initial, steps).Some? && ServedInOrder(Run(Initial, steps).value, key, served)
  {
    InitialInv();
    served := RunServes(Initial, steps, key, []);
  }

  /** How many guards of the key are dropped in a run. */
  ghost function Drops(s: State, steps: seq<Step>, key: Key): nat
    requires Legal(s, steps)
    decreases |steps|
  {
    if steps == [] then 0
    else
      (if steps[0].Drop? && s.tasks[steps[0].task].key == key then 1 else 0)
      + if Next(s, steps[0]).Some? then Drops(Next(s, steps[0]).value, steps[1..], key) else 0
  }

  lemma DropAdvances(s: State, u: Task, t: Task, key: Key, i: nat)
    requires Enabled(s, Drop(u)) && s.tasks[u].key == key && key in s.locks && s.locks[key].isBlocked
    requires Is(s, t, Waiting(key)) && At(s.locks[key].queue, i, t)
    ensures Next(s, Drop(u)).Some?
    ensures var s' := Next(s, Drop(u)).value;
            if Is(s', t, Waiting(key)) then
              key in s'.locks && exists j: nat :: j < i && At(s'.locks[key].queue, j, t)
            else t in s'.tasks && !s'.tasks[t].Waiting?
  {
    var queue := s.locks[key].queue;
    var n := Dead(queue, s.tasks[u := Done]);
    var s' := Next(s, Drop(u)).value;
    if i < n {
      DeadAt(queue, s.tasks[u := Done], i);
    }
    if n < i {
      assert At(s'.locks[key].queue, i - n - 1, t);
    }
  }

  /** A step leaves an uncancelled waiter no further back, and a guard drop brings it forward or grants it. */
  lemma StepAdvances(s: State, step: Step, t: Task, key: Key, i: nat)
    requires Enabled(s, step) && Next(s, step).Some? && step != CancelWaiting(t)
    requires forall k <- s.locks :: s.locks[k].isBlocked
    requires step.Drop? && s.tasks[step.task].key != key && s.tasks[step.task].key in s.locks ==>
               t !in s.locks[s.tasks[step.task].key].queue
    requires Is(s, t, Waiting(key)) && key in s.locks && At(s.locks[key].queue, i, t)
    ensures var s' := Next(s, step).value;
            var dropped := step.Drop? && s.tasks[step.task].key == key;
            if Is(s', t, Waiting(key)) then
              key in s'.locks && exists j: nat :: j <= i && (dropped ==> j < i) && At(s'.locks[key].queue, j, t)
            else t in s'.tasks && !s'.tasks[t].Waiting?
  {
    var s' := Next(s, step).value;
    if step.Drop? && s.tasks[step.task].key == key {
      DropAdvances(s, step.task, t, key, i);
    } else {
      assert Is(s', t, Waiting(key));
      assert At(s'.locks[key].queue, i, t);
    }
  }

  lemma StepKeepsServed(s: State, step: Step, t: Task)
    requires Inv(s) && Enabled(s, step) && t in s.tasks && !s.tasks[t].Waiting?
    ensures Next(s, step).Some?
    ensures t in Next(s, step).value.tasks && !Next(s, step).value.tasks[t].Waiting?
  {
    StepKeepsInv(s, step);
  }

  lemma {:induction false} RunKeepsServed(s: State, steps: seq<Step>, t: Task)
    requires Inv(s) && Legal(s, steps) && t in s.tasks && !s.tasks[t].Waiting?
    ensures Run(s, steps).Some?
    ensures t in Run(s, steps).value.tasks && !Run(s, steps).value.tasks[t].Waiting?
    decreases |steps|
  {
    if steps != [] {
      StepKeepsInv(s, steps[0]);
      StepKeepsServed(s, steps[0], t);
      RunKeepsServed(Next(s, steps[0]).value, steps[1..], t);
    }
  }

  /** A waiter with `n` entries ahead that does not cancel has its permit after at most `n + 1` guard drops. */
  lemma {:induction false} BoundedWaiting(s: State, steps: seq<Step>, t: Task, key: Key, n: nat)
    requires Inv(s) && Legal(s, steps) && CancelWaiting(t) !in steps
    requires Is(s, t, Waiting(key)) && key in s.locks && At(s.locks[key].queue, n, t)
    requires Drops(s, steps, key) >= n + 1
    ensures Run(s, steps).Some?
    ensures t in Run(s, steps).value.tasks && !Run(s, steps).value.tasks[t].Waiting?
    decreases |steps|
  {
    StepKeepsInv(s, steps[0]);
    forall k | k in s.locks
      ensures s.locks[k].isBlocked && (k != key ==> t !in s.locks[k].queue)
    {
      assert InvAt(s, k);
    }
    StepAdvances(s, steps[0], t, key, n);
    var s' := Next(s, steps[0]).value;
    if Is(s', t, Waiting(key)) {
      var dropped := steps[0].Drop? && s.tasks[steps[0].task].key == key;
      var j: nat :| j <= n && (dropped ==> j < n) && At(s'.locks[key].queue, j, t);
      BoundedWaiting(s', steps[1..], t, key, j);
    } else {
      RunKeepsServed(s', steps[1..], t);
    }
  }
}
