/**
 The data router: a loop that takes one message at a time, waits for a permit of the task limiter and
 spawns a task holding it; the task routes the message, acknowledges it and only then frees the permit.
 */
module DataRouter {
  import opened Wrappers
  import opened AckQueue

  // ----- Handling one message -----

  datatype Entry = Entry(id: nat)

  /** How a message's payload deserialises. */
  datatype Payload = Malformed | Single(entry: Entry) | Many(entries: seq<Entry>)

  datatype Failure = BadPayload | NotRouted(entry: Entry)

  datatype Effect = Routing(entry: Entry) | ErrorSent(cause: Failure) | Acknowledged

  function Entries(payload: Payload): seq<Entry> {
    match payload
    case Malformed => []
    case Single(entry) => [entry]
    case Many(entries) => entries
  }

  /** The failure a message ends with: a bad payload, or the last entry that could not be routed. */
  function Outcome(payload: Payload, routes: Entry -> bool): Option<Failure> {
    if payload.Malformed? then Some(BadPayload) else LastFailure(Entries(payload), routes)
  }

  function LastFailure(entries: seq<Entry>, routes: Entry -> bool): Option<Failure> {
    if entries == [] then None
    else
      var n := |entries| - 1;
      if routes(entries[n]) then LastFailure(entries[..n], routes) else Some(NotRouted(entries[n]))
  }

  function Attempts(entries: seq<Entry>): seq<Effect> {
    seq(|entries|, i requires 0 <= i < |entries| => Routing(entries[i]))
  }

  /** What handling a message does: it attempts every entry, reports a failure, and acknowledges last. */
  function Effects(payload: Payload, routes: Entry -> bool): seq<Effect> {
    var result := Outcome(payload, routes);
    Attempts(Entries(payload)) + (if result.Some? then [ErrorSent(result.value)] else []) + [Acknowledged]
  }

  class Channels {
    var effects: seq<Effect>

    constructor ()
      ensures effects == []
    {
      effects := [];
    }

    method Emit(e: Effect)
      modifies this
      ensures effects == old(effects) + [e]
    {
      effects := effects + [e];
    }
  }

  /** An array is routed entry by entry, each failure overwriting the result; every path acknowledges. */
  method HandleMessage(payload: Payload, routes: Entry -> bool, channels: Channels)
    modifies channels
    ensures channels.effects == old(channels.effects) + Effects(payload, routes)
    ensures |old(channels.effects)| <= |channels.effects|
    ensures Handled(payload, routes, channels.effects[|old(channels.effects)|..])
  {
    var result: Option<Failure> := None;
    ghost var before := channels.effects;
    AttemptsSmall(payload, routes);
    match payload {
      case Malformed =>
        result := Some(BadPayload);
      case Single(entry) =>
        channels.Emit(Routing(entry));
        result := if routes(entry) then None else Some(NotRouted(entry));
      case Many(entries) =>
        for i := 0 to |entries|
          invariant channels.effects == before + Attempts(entries[..i])
          invariant result == LastFailure(entries[..i], routes)
        {
          channels.Emit(Routing(entries[i]));
          AttemptsOneMore(entries, routes, i);
          if !routes(entries[i]) {
            result := Some(NotRouted(entries[i]));
          }
        }
        assert entries[..|entries|] == entries;
    }
    assert channels.effects == before + Attempts(Entries(payload)) && result == Outcome(payload, routes);
    if result.Some? {
      channels.Emit(ErrorSent(result.value));
    }
    channels.Emit(Acknowledged);
    EffectsAre(before, channels.effects, payload, routes);
  }

  lemma AttemptsSmall(payload: Payload, routes: Entry -> bool)
    ensures payload.Malformed? ==> Attempts(Entries(payload)) == []
    ensures payload.Single? ==>
              && Attempts(Entries(payload)) == [Routing(payload.entry)]
              && Outcome(payload, routes) == if routes(payload.entry) then None else Some(NotRouted(payload.entry))
    ensures Attempts([]) == [] && LastFailure([], routes) == None
  {
    if payload.Single? {
      var e := payload.entry;
      assert [e][..0] == [] && LastFailure([], routes) == None;
      assert LastFailure([e], routes) == if routes(e) then None else Some(NotRouted(e));
    }
  }

  lemma AttemptsOneMore(entries: seq<Entry>, routes: Entry -> bool, i: nat)
    requires i < |entries|
    ensures Attempts(entries[..i + 1]) == Attempts(entries[..i]) + [Routing(entries[i])]
    ensures LastFailure(entries[..i + 1], routes) ==
            if routes(entries[i]) then LastFailure(entries[..i], routes) else Some(NotRouted(entries[i]))
  {
    assert entries[..i + 1][..i] == entries[..i];
  }

  lemma EffectsAre(before: seq<Effect>, after: seq<Effect>, payload: Payload, routes: Entry -> bool)
    requires var result := Outcome(payload, routes);
             after == (before + Attempts(Entries(payload))
                       + if result.Some? then [ErrorSent(result.value)] else []) + [Acknowledged]
    ensures after == before + Effects(payload, routes)
    ensures |before| <= |after| && Handled(payload, routes, after[|before|..])
  {
    assert after == before + Effects(payload, routes);
    assert after[|before|..] == Effects(payload, routes);
    HandledIff(payload, routes, Effects(payload, routes));
  }

  // ----- What handling a message is, said directly -----

  /** Entry `i` cannot be routed, and all after it can. */
  predicate FailsLast(entries: seq<Entry>, routes: Entry -> bool, i: nat) {
    i < |entries| && !routes(entries[i]) && forall j :: i < j < |entries| ==> routes(entries[j])
  }

  /** Every entry of the payload is attempted, in order; then the failure, if there is one, is reported: the bad
      payload, or the last entry that cannot be routed; then the message is acknowledged. */
  ghost predicate Handled(payload: Payload, routes: Entry -> bool, effects: seq<Effect>) {
    match payload
    case Malformed => effects == [ErrorSent(BadPayload), Acknowledged]
    case Single(e) =>
      effects == if routes(e) then [Routing(e), Acknowledged] else [Routing(e), ErrorSent(NotRouted(e)), Acknowledged]
    case Many(es) =>
      && |es| <= |effects|
      && (forall i :: 0 <= i < |es| ==> effects[i] == Routing(es[i]))
      && if forall e <- es :: routes(e) then effects[|es|..] == [Acknowledged]
         else
           exists i: nat :: FailsLast(es, routes, i) && effects[|es|..] == [ErrorSent(NotRouted(es[i])), Acknowledged]
  }

  lemma {:induction false} LastFailureIs(entries: seq<Entry>, routes: Entry -> bool, i: nat)
    requires FailsLast(entries, routes, i)
    ensures LastFailure(entries, routes) == Some(NotRouted(entries[i]))
  {
    var n := |entries| - 1;
    if i < n {
      LastFailureIs(entries[..n], routes, i);
    }
  }

  lemma {:induction false} SomeFailsLast(entries: seq<Entry>, routes: Entry -> bool) returns (i: nat)
    requires exists e <- entries :: !routes(e)
    ensures FailsLast(entries, routes, i)
  {
    var n := |entries| - 1;
    if routes(entries[n]) {
      assert forall e :: e in entries <==> e in entries[..n] || e == entries[n];
      i := SomeFailsLast(entries[..n], routes);
    } else {
      i := n;
    }
  }

  lemma HandledMany(es: seq<Entry>, routes: Entry -> bool, effects: seq<Effect>)
    ensures Handled(Many(es), routes, effects) <==> effects == Effects(Many(es), routes)
  {
    LastFailureIff(es, routes);
    var all := Effects(Many(es), routes);
    assert all[..|es|] == Attempts(es);
    if forall e <- es :: routes(e) {
      assert all[|es|..] == [Acknowledged];
    } else {
      var i := SomeFailsLast(es, routes);
      LastFailureIs(es, routes, i);
      assert all[|es|..] == [ErrorSent(NotRouted(es[i])), Acknowledged];
    }
    if Handled(Many(es), routes, effects) {
      forall i: nat | FailsLast(es, routes, i) ensures LastFailure(es, routes) == Some(NotRouted(es[i])) {
        LastFailureIs(es, routes, i);
      }
      assert effects[|es|..] == all[|es|..];
      assert effects[..|es|] == all[..|es|];
      assert effects == effects[..|es|] + effects[|es|..] && all == all[..|es|] + all[|es|..];
    }
  }

  /** The handler's effects are those, and no others. */
  lemma HandledIff(payload: Payload, routes: Entry -> bool, effects: seq<Effect>)
    ensures Handled(payload, routes, effects) <==> effects == Effects(payload, routes)
  {
    match payload {
      case Malformed =>
        assert Effects(payload, routes) == [ErrorSent(BadPayload), Acknowledged];
      case Single(e) =>
        assert [e][..0] == [] && LastFailure([], routes) == None;
        assert Attempts([e]) == [Routing(e)];
      case Many(es) => HandledMany(es, routes, effects);
    }
  }

  lemma {:induction false} LastFailureIff(entries: seq<Entry>, routes: Entry -> bool)
    ensures LastFailure(entries, routes).None? <==> forall e <- entries :: routes(e)
  {
    if entries != [] {
      var n := |entries| - 1;
      LastFailureIff(entries[..n], routes);
      assert forall e :: e in entries <==> e in entries[..n] || e == entries[n];
    }
  }

  /** The last effect, and no other, is an acknowledgement. */
  predicate AcknowledgesLast(effects: seq<Effect>) {
    forall i :: 0 <= i < |effects| ==> (effects[i] == Acknowledged <==> i == |effects| - 1)
  }

  /** A message is acknowledged exactly once, after everything else, whether or not routing worked; an
      error is reported exactly when the payload was bad or some entry failed. */
  lemma AcknowledgedOnceAndLast(payload: Payload, routes: Entry -> bool)
    ensures var effects := Effects(payload, routes);
            && effects != [] && AcknowledgesLast(effects)
            && ((exists e <- effects :: e.ErrorSent?) <==>
                payload.Malformed? || exists e <- Entries(payload) :: !routes(e))
  {
    LastFailureIff(Entries(payload), routes);
    var effects, result := Effects(payload, routes), Outcome(payload, routes);
    if result.Some? {
      assert effects[|effects| - 2] == ErrorSent(result.value);
      assert effects[|effects| - 2] in effects;
    } else {
      assert forall e <- effects :: e.Acknowledged? || e in Attempts(Entries(payload));
    }
  }

  // ----- The loop and its tasks -----

  datatype Message = Message(partition: int, offset: int)

  /** What a spawned task is given: a payload, and which entries will turn out to be routable. */
  datatype Job = Job(payload: Payload, routes: Entry -> bool)

  datatype Loop = Polling | Spawning(message: Message, payload: Payload)

  datatype State = State(
    loop: Loop,
    free: nat,                            // permits left in the semaphore
    running: map<Message, seq<Effect>>,   // spawned tasks, each holding a permit, with what is left to do
    performed: map<Message, seq<Effect>>, // what the task of a message has done
    jobs: map<Message, Job>,
    queues: Partitions,
    acked: multiset<Message>,
    finished: set<Message>)

  ghost function Initial(limit: nat): State {
    State(Polling, limit, map[], map[], map[], map[], multiset{}, {})
  }

  datatype Step =
    | Deliver(message: Message, payload: Payload)  // the stream adds a message to its ack queue and yields it
    | Spawn(routes: Entry -> bool)                 // the limiter grants a permit and the task starts
    | Act(message: Message)                        // the task does the next thing its handler does
    | Finish(message: Message)                     // the handler has returned and the permit is released

  ghost predicate Enabled(s: State, step: Step) {
    match step
    case Deliver(m, _) => s.loop.Polling? && (m.partition in s.queues ==> s.queues[m.partition].last < m.offset)
    case Spawn(_) => s.loop.Spawning? && s.free > 0
    case Act(m) => m in s.running && m in s.performed && s.running[m] != []
    case Finish(m) => m in s.running && s.running[m] == []
  }

  ghost predicate Waits(s: State, m: Message) {
    m.partition in s.queues && m.offset in s.queues[m.partition].waiting
  }

  /** Acknowledging a message that is not waiting panics or never returns: `None`. */
  ghost function Next(s: State, step: Step): Option<State>
    requires Enabled(s, step)
  {
    match step
    case Deliver(m, payload) =>
      Some(s.(loop := Spawning(m, payload),
              queues := s.queues[m.partition := Added(PartitionOf(s.queues, m.partition), m.offset)]))
    case Spawn(routes) =>
      var m, payload := s.loop.message, s.loop.payload;
      Some(s.(loop := Polling, free := s.free - 1, jobs := s.jobs[m := Job(payload, routes)],
              running := s.running[m := Effects(payload, routes)], performed := s.performed[m := []]))
    case Act(m) =>
      var e := s.running[m][0];
      var s' := s.(running := s.running[m := s.running[m][1..]], performed := s.performed[m := s.performed[m] + [e]]);
      if e != Acknowledged then Some(s')
      else if !Waits(s, m) then None
      else Some(s'.(acked := s.acked + multiset{m},
                    queues := s.queues[m.partition := Acked(s.queues[m.partition], m.offset)]))
    case Finish(m) =>
      Some(s.(free := s.free + 1, running := s.running - {m}, finished := s.finished + {m}))
  }

  /** Handed to the loop or a task that has yet to acknowledge it. */
  ghost predicate Current(s: State, m: Message) {
    (s.loop.Spawning? && s.loop.message == m) || (m in s.running && s.running[m] != [])
  }

  ghost predicate Seen(s: State, m: Message) {
    (s.loop.Spawning? && s.loop.message == m) || m in s.running || m in s.finished
  }

  /** What the task of a message did and has left to do is what handling its job does. */
  ghost predicate OnJob(s: State, m: Message) {
    && m in s.performed && m in s.jobs
    && s.performed[m] + LeftOf(s, m) == Effects(s.jobs[m].payload, s.jobs[m].routes)
  }

  ghost function LeftOf(s: State, m: Message): seq<Effect> {
    if m in s.running then s.running[m] else []
  }

  ghost predicate JobsOk(s: State) {
    forall m :: m in s.running || m in s.finished ==> OnJob(s, m)
  }

  ghost predicate Inv(s: State, limit: nat) {
    InStep(s, limit) && JobsOk(s)
  }

  /** Permits, queues and acknowledgements are in step with the loop and its tasks. */
  ghost predicate InStep(s: State, limit: nat) {
    && s.free + |s.running| == limit
    && (forall m :: Waits(s, m) <==> Current(s, m))
    && (forall m :: Seen(s, m) ==> m.partition in s.queues && m.offset <= s.queues[m.partition].last)
    && (forall p <- s.queues :: Distinct(s.queues[p].waiting))
    && (s.loop.Spawning? ==> s.loop.message !in s.running && s.loop.message !in s.finished)
    && s.running.Keys !! s.finished
    && (forall m :: s.acked[m] == if m in s.finished || (m in s.running && s.running[m] == []) then 1 else 0)
  }

  lemma DeliverKeepsStep(s: State, m: Message, payload: Payload, limit: nat)
    requires InStep(s, limit) && Enabled(s, Deliver(m, payload))
    ensures InStep(Next(s, Deliver(m, payload)).value, limit)
  {
    var s' := Next(s, Deliver(m, payload)).value;
    var waiting := PartitionOf(s.queues, m.partition).waiting;
    forall o | o in waiting ensures o < m.offset {
      assert Waits(s, Message(m.partition, o));
      assert Seen(s, Message(m.partition, o));
    }
    forall i | 0 <= i < |waiting| ensures waiting[i] != m.offset {
      assert waiting[i] in waiting;
    }
    assert !Seen(s, m);
    forall x ensures Waits(s', x) <==> Waits(s, x) || x == m {}
    forall x ensures Current(s', x) <==> Current(s, x) || x == m {}
    forall x | Seen(s', x)
      ensures x.partition in s'.queues && x.offset <= s'.queues[x.partition].last
    {
      assert Seen(s, x) || x == m;
    }
  }

  lemma SpawnKeepsStep(s: State, routes: Entry -> bool, limit: nat)
    requires InStep(s, limit) && Enabled(s, Spawn(routes))
    ensures InStep(Next(s, Spawn(routes)).value, limit)
  {
    var s' := Next(s, Spawn(routes)).value;
    forall m ensures Waits(s', m) <==> Waits(s, m) {}
    forall m ensures Current(s', m) <==> Current(s, m) {}
    forall m ensures Seen(s', m) <==> Seen(s, m) {}
  }

  /** What is left of a handler's effects still ends in its only acknowledgement. */
  lemma LeftToDo(s: State, m: Message)
    requires m in s.running && OnJob(s, m)
    ensures AcknowledgesLast(s.running[m])
  {
    var job := s.jobs[m];
    AcknowledgedOnceAndLast(job.payload, job.routes);
    var all, n := Effects(job.payload, job.routes), |s.performed[m]|;
    forall i | 0 <= i < |s.running[m]| ensures s.running[m][i] == all[n + i] {}
  }

  lemma OnJobKept(s: State, step: Step, x: Message)
    requires Enabled(s, step) && Next(s, step).Some?
    requires x in s.running || x in s.finished ==> OnJob(s, x)
    requires s.loop.Spawning? ==> s.loop.message !in s.finished
    requires s.running.Keys !! s.finished
    requires var s' := Next(s, step).value; x in s'.running || x in s'.finished
    ensures OnJob(Next(s, step).value, x)
  {
    var s' := Next(s, step).value;
    if step.Act? && step.message == x {
      assert s'.performed[x] + s'.running[x] == s.performed[x] + s.running[x];
    }
  }

  lemma JobsKept(s: State, step: Step)
    requires JobsOk(s) && Enabled(s, step) && Next(s, step).Some?
    requires s.loop.Spawning? ==> s.loop.message !in s.finished
    requires s.running.Keys !! s.finished
    ensures JobsOk(Next(s, step).value)
  {
    var s' := Next(s, step).value;
    forall x | x in s'.running || x in s'.finished ensures OnJob(s', x) {
      OnJobKept(s, step, x);
    }
  }

  lemma WorkKeepsStep(s: State, m: Message, limit: nat)
    requires InStep(s, limit) && Enabled(s, Act(m)) && OnJob(s, m) && s.running[m][0] != Acknowledged
    ensures InStep(Next(s, Act(m)).value, limit)
  {
    var s' := Next(s, Act(m)).value;
    LeftToDo(s, m);
    assert s'.running[m] != [];
    forall x ensures Waits(s', x) <==> Waits(s, x) {}
    forall x ensures Current(s', x) <==> Current(s, x) {}
    forall x ensures Seen(s', x) <==> Seen(s, x) {}
    assert s'.running.Keys == s.running.Keys;
    assert |s'.running| == |s'.running.Keys| == |s.running.Keys|;
  }

  lemma AckKeepsStep(s: State, m: Message, limit: nat)
    requires InStep(s, limit) && Enabled(s, Act(m)) && OnJob(s, m) && s.running[m][0] == Acknowledged
    ensures Next(s, Act(m)).Some? && InStep(Next(s, Act(m)).value, limit)
  {
    assert Current(s, m) && Waits(s, m);
    var s' := Next(s, Act(m)).value;
    LeftToDo(s, m);
    assert s'.running[m] == [];
    RemoveFirstDistinct(s.queues[m.partition].waiting, m.offset);
    forall x ensures Waits(s', x) <==> Waits(s, x) && x != m {}
    forall x ensures Current(s', x) <==> Current(s, x) && x != m {}
    forall x ensures Seen(s', x) <==> Seen(s, x) {}
    assert s'.running.Keys == s.running.Keys;
    assert |s'.running| == |s'.running.Keys| == |s.running.Keys|;
  }

  lemma FinishKeepsStep(s: State, m: Message, limit: nat)
    requires InStep(s, limit) && Enabled(s, Finish(m))
    ensures InStep(Next(s, Finish(m)).value, limit)
  {
    var s' := Next(s, Finish(m)).value;
    forall x ensures Waits(s', x) <==> Waits(s, x) {}
    forall x ensures Current(s', x) <==> Current(s, x) {}
    forall x ensures Seen(s', x) <==> Seen(s, x) {}
    assert s'.running.Keys == s.running.Keys - {m};
    assert |s'.running| == |s'.running.Keys|;
  }

  lemma StepKeepsInv(s: State, step: Step, limit: nat)
    requires Inv(s, limit) && Enabled(s, step)
    ensures Next(s, step).Some? && Inv(Next(s, step).value, limit)
  {
    match step {
      case Deliver(m, payload) => DeliverKeepsStep(s, m, payload, limit);
      case Spawn(routes) => SpawnKeepsStep(s, routes, limit);
      case Act(m) =>
        assert OnJob(s, m);
        if s.running[m][0] == Acknowledged {
          AckKeepsStep(s, m, limit);
        } else {
          WorkKeepsStep(s, m, limit);
        }
      case Finish(m) => FinishKeepsStep(s, m, limit);
    }
    JobsKept(s, step);
  }

  ghost predicate Legal(s: State, steps: seq<Step>)
    decreases |steps|
  {
    steps == [] ||
    (Enabled(s, steps[0]) && (Next(s, steps[0]).Some? ==> Legal(Next(s, steps[0]).value, steps[1..])))
  }

  ghost function Run(s: State, steps: seq<Step>): Option<State>
    requires Legal(s, steps)
    decreases |steps|
  {
    if steps == [] then Some(s)
    else if Next(s, steps[0]).None? then None
    else Run(Next(s, steps[0]).value, steps[1..])
  }

  lemma {:induction false} RunKeepsInv(s: State, steps: seq<Step>, limit: nat)
    requires Inv(s, limit) && Legal(s, steps)
    ensures Run(s, steps).Some? && Inv(Run(s, steps).value, limit)
    decreases |steps|
  {
    if steps != [] {
      StepKeepsInv(s, steps[0], limit);
      RunKeepsInv(Next(s, steps[0]).value, steps[1..], limit);
    }
  }

  /** The messages delivered and not acknowledged, over all partitions. */
  ghost function Backlog(s: State): set<Message> {
    set p, o | p in s.queues && o in s.queues[p].waiting :: Message(p, o)
  }

  /** In every interleaving no acknowledgement gets stuck, and the messages delivered and not acknowledged,
      each once in its partition's queue, number at most the task limit plus one. */
  lemma BoundedBacklog(limit: nat, steps: seq<Step>)
    requires Legal(Initial(limit), steps)
    ensures Run(Initial(limit), steps).Some?
    ensures var s := Run(Initial(limit), steps).value;
            |Backlog(s)| <= limit + 1 && forall p <- s.queues :: Distinct(s.queues[p].waiting)
  {
    RunKeepsInv(Initial(limit), steps, limit);
    var s := Run(Initial(limit), steps).value;
    var tasks := s.running.Keys + if s.loop.Spawning? then {s.loop.message} else {};
    forall m | m in Backlog(s) ensures m in tasks {
      assert Waits(s, m);
    }
    SubsetSize(Backlog(s), tasks);
    assert |tasks| <= |s.running.Keys| + 1;
  }

  lemma {:induction false} SubsetSize(a: set<Message>, b: set<Message>)
    requires a <= b
    ensures |a| <= |b|
  {
    if a != {} {
      var m :| m in a;
      SubsetSize(a - {m}, b - {m});
    }
  }

  /** A message whose permit was released had all of its handling done, the one acknowledgement in it last;
      no message is acknowledged twice, and none before everything else its handler does. */
  lemma AcknowledgedBeforeRelease(limit: nat, steps: seq<Step>, m: Message)
    requires Legal(Initial(limit), steps)
    ensures Run(Initial(limit), steps).Some?
    ensures var s := Run(Initial(limit), steps).value;
            && s.acked[m] <= 1
            && (m in s.finished ==>
                  && m in s.performed && m in s.jobs && s.acked[m] == 1 && !Waits(s, m)
                  && Handled(s.jobs[m].payload, s.jobs[m].routes, s.performed[m]))
            && (m in s.running ==>
                  && m in s.performed && m in s.jobs
                  && (s.acked[m] == 1 <==> Handled(s.jobs[m].payload, s.jobs[m].routes, s.performed[m])))
  {
    RunKeepsInv(Initial(limit), steps, limit);
    var s := Run(Initial(limit), steps).value;
    if m in s.running || m in s.finished {
      assert OnJob(s, m);
      assert s.performed[m] + [] == s.performed[m];
      HandledIff(s.jobs[m].payload, s.jobs[m].routes, s.performed[m]);
    }
  }

  predicate HasEntry(payload: Payload, e: Entry) {
    match payload
    case Malformed => false
    case Single(entry) => e == entry
    case Many(entries) => e in entries
  }

  /** When a permit is released, each entry of the message had been attempted before its acknowledgement. */
  lemma EntriesAttempted(limit: nat, steps: seq<Step>, m: Message, e: Entry) returns (i: nat)
    requires Legal(Initial(limit), steps)
    requires Run(Initial(limit), steps).Some? ==>
               var s := Run(Initial(limit), steps).value;
               m in s.finished && m in s.jobs && HasEntry(s.jobs[m].payload, e)
    ensures Run(Initial(limit), steps).Some?
    ensures var s := Run(Initial(limit), steps).value;
            && m in s.performed && i < |s.performed[m]| - 1
            && s.performed[m][i] == Routing(e) && s.performed[m][|s.performed[m]| - 1] == Acknowledged
  {
    AcknowledgedBeforeRelease(limit, steps, m);
    var s := Run(Initial(limit), steps).value;
    match s.jobs[m].payload
    case Single(_) => i := 0;
    case Many(es) => i := EntryAt(es, e);
  }

  lemma EntryAt(es: seq<Entry>, e: Entry) returns (i: nat)
    requires e in es
    ensures i < |es| && es[i] == e
  {
    i :| 0 <= i < |es| && es[i] == e;
  }
}
