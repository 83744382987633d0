/**
 The per-key FIFO lock: a map from keys to queues of waiters, a one-shot channel per waiter, and a
 guard whose drop hands the permit straight to the next live waiter.
 */
module TaskQueue {

  datatype Key = Key(name: string)
  datatype Task = Task(id: nat)

  /** A waiter's channel and guard: not sent yet, sent but not received, received and held, dropped
      before the send, guard dropped, or dropped after the send and before the guard existed. */
  datatype Status =
    | Waiting(key: Key)
    | Granted(key: Key)
    | Holding(key: Key)
    | Cancelled
    | Done
    | Lost(key: Key)

  type Tasks = map<Task, Status>

  datatype Lock = Lock(isBlocked: bool, queue: seq<Task>)
  type Locks = map<Key, Lock>

  /** How many waiters at the front of the queue have dropped their receivers. */
  function Dead(queue: seq<Task>, tasks: Tasks): (n: nat)
    ensures n <= |queue|
    ensures n < |queue| ==> queue[n] in tasks && tasks[queue[n]].Waiting?
  {
    if queue == [] || (queue[0] in tasks && tasks[queue[0]].Waiting?) then 0
    else 1 + Dead(queue[1..], tasks)
  }

  lemma {:induction false} DeadAt(queue: seq<Task>, tasks: Tasks, i: nat)
    requires i < Dead(queue, tasks)
    ensures !(queue[i] in tasks && tasks[queue[i]].Waiting?)
  {
    if i > 0 {
      DeadAt(queue[1..], tasks, i - 1);
    }
  }

  /** A sent channel. */
  function Sent(tasks: Tasks, t: Task): Tasks
    requires t in tasks && tasks[t].Waiting?
  {
    tasks[t := Granted(tasks[t].key)]
  }

  /** Ending a task grants the first live waiter, or unblocks the lock when there is none. */
  function Ended(lock: Lock, tasks: Tasks): (Lock, Tasks) {
    var n := Dead(lock.queue, tasks);
    if n == |lock.queue| then (Lock(false, []), tasks)
    else (lock.(queue := lock.queue[n + 1..]), Sent(tasks, lock.queue[n]))
  }

  function LockOf(locks: Locks, key: Key): Lock {
    if key in locks then locks[key] else Lock(false, [])
  }

  /** Acquiring joins the queue of a blocked key and takes any other key at once. */
  function Acquired(locks: Locks, tasks: Tasks, key: Key, t: Task): (Locks, Tasks) {
    var lock := LockOf(locks, key);
    (locks[key := Lock(true, if lock.isBlocked then lock.queue + [t] else lock.queue)],
     tasks[t := if lock.isBlocked then Waiting(key) else Granted(key)])
  }

  /** Dropping a guard ends its task and removes the key when nobody is left. */
  function Released(locks: Locks, tasks: Tasks, key: Key): (Locks, Tasks)
    requires key in locks
  {
    var (lock, tasks') := Ended(locks[key], tasks);
    (if lock.isBlocked then locks[key := lock] else locks - {key}, tasks')
  }

  class Channels {
    var tasks: Tasks

    constructor ()
      ensures tasks == map[]
    {
      tasks := map[];
    }

    method Open(t: Task, key: Key)
      modifies this
      ensures tasks == old(tasks)[t := Waiting(key)]
    {
      tasks := tasks[t := Waiting(key)];
    }

    /** Sending fails when the receiver was dropped. */
    method Send(t: Task) returns (ok: bool)
      modifies this
      ensures ok <==> t in old(tasks) && old(tasks)[t].Waiting?
      ensures tasks == if ok then Sent(old(tasks), t) else old(tasks)
    {
      ok := t in tasks && tasks[t].Waiting?;
      if ok {
        tasks := tasks[t := Granted(tasks[t].key)];
      }
    }
  }

  class LockQueue {
    var isBlocked: bool
    var queue: seq<Task>
    ghost const key: Key

    constructor (ghost key: Key)
      ensures !isBlocked && queue == [] && this.key == key
    {
      this.key := key;
      isBlocked, queue := false, [];
    }

    /** The send to a receiver made a moment ago cannot fail. */
    method AddTask(t: Task, key: Key, channels: Channels)
      modifies this, channels
      ensures isBlocked && queue == if old(isBlocked) then old(queue) + [t] else old(queue)
      ensures channels.tasks ==
              old(channels.tasks)[t := if old(isBlocked) then Waiting(key) else Granted(key)]
    {
      channels.Open(t, key);
      if isBlocked {
        queue := queue + [t];
      } else {
        isBlocked := true;
        var ok := channels.Send(t);
        assert ok;
      }
    }

    /** Waiters that dropped their receivers are passed over, one recursive call each. */
    method EndTask(channels: Channels)
      modifies this, channels
      ensures (Lock(isBlocked, queue), channels.tasks) ==
              Ended(Lock(old(isBlocked), old(queue)), old(channels.tasks))
      decreases |queue|
    {
      if queue == [] {
        isBlocked := false;
      } else {
        var tx := queue[0];
        queue := queue[1..];
        var ok := channels.Send(tx);
        if !ok {
          EndTask(channels);
        }
      }
    }
  }

  class ParallelTaskQueue {
    var locks: map<Key, LockQueue>
    const channels: Channels
    ghost var view: Locks  // the queues by key, as values

    ghost predicate Valid()
      reads this, locks.Values
    {
      && view.Keys == locks.Keys
      && forall k <- locks :: locks[k].key == k && view[k] == Lock(locks[k].isBlocked, locks[k].queue)
    }

    constructor ()
      ensures Valid() && view == map[] && channels.tasks == map[]
      ensures fresh(channels) && locks == map[]
    {
      locks, view := map[], map[];
      channels := new Channels();
    }

    /** `entry(key).or_insert(LockQueue::new())`. */
    method Entry(key: Key)
      requires Valid()
      modifies this
      ensures Valid() && key in locks && fresh(locks.Values - old(locks.Values))
      ensures view == old(view)[key := LockOf(old(view), key)]
    {
      if key !in locks {
        var lockQueue := new LockQueue(key);
        locks, view := locks[key := lockQueue], view[key := Lock(false, [])];
      }
    }

    /** The part of `acquire_permit` that runs under the mutex; the caller then awaits its receiver. */
    method AcquirePermit(key: Key, t: Task)
      requires Valid()
      modifies this, locks.Values, channels
      ensures Valid() && fresh(locks.Values - old(locks.Values))
      ensures (view, channels.tasks) == Acquired(old(view), old(channels.tasks), key, t)
    {
      Entry(key);
      var lockQueue := locks[key];
      lockQueue.AddTask(t, key, channels);
      view := view[key := Lock(lockQueue.isBlocked, lockQueue.queue)];
      assert view == Acquired(old(view), old(channels.tasks), key, t).0;
    }

    /** Dropping a guard of a key that is not in the map panics. */
    method DropGuard(key: Key)
      requires Valid() && key in locks
      modifies this, locks.Values, channels
      ensures Valid() && locks.Values <= old(locks.Values)
      ensures (view, channels.tasks) == Released(old(view), old(channels.tasks), key)
    {
      var entry := locks[key];
      entry.EndTask(channels);
      view := view[key := Lock(entry.isBlocked, entry.queue)];
      if !entry.isBlocked {
        locks, view := locks - {key}, view - {key};
      }
      assert view == Released(old(view), old(channels.tasks), key).0;
    }
  }
}
