/**
 Every interleaving of inserts with one shrinker, whose read and commit are separate steps.
 */
module ShrinkerRuns {
  import opened Wrappers
  import opened Json
  import opened Documents
  import opened Shrinker

  /** The rows the shrinker read and has yet to commit the fold of. */
  datatype Pending = Idle | Merging(id: Uuid, rows: map<Timestamp, Json>)

  /** `inserted` is every row ever inserted, `folded` the version of the last commit that folded several
      rows of an object into one. */
  datatype State = State(table: Table, inserted: Table, folded: map<Uuid, Timestamp>, pending: Pending)

  datatype Step =
    | Insert(key: RowKey, row: Row)
    | Read(id: Uuid)
    | Commit
    | Abort

  const Empty := State(map[], map[], map[], Idle)

  /** Nothing is inserted below a version that several rows were folded into, and nothing is committed over
      rows below it that were not read. */
  ghost predicate Enabled(s: State, step: Step) {
    match step
    case Insert(key, row) =>
      key !in s.table && (key.id in s.folded ==> s.folded[key.id].t < key.version.t)
    case Read(id) => s.pending.Idle? && Payloads(s.table, id) != map[]
    case Commit =>
      && s.pending.Merging? && s.pending.rows != map[]
      && UpTo(Payloads(s.table, s.pending.id), LatestVersion(s.pending.rows)) == s.pending.rows
    case Abort => s.pending.Merging?
  }

  ghost function Next(s: State, step: Step): State
    requires Enabled(s, step)
  {
    match step
    case Insert(key, row) => s.(table := s.table[key := row], inserted := s.inserted[key := row])
    case Read(id) => s.(pending := Merging(id, Payloads(s.table, id)))
    case Commit =>
      var id, rows := s.pending.id, s.pending.rows;
      var v := LatestVersion(rows);
      s.(table := Committed(s.table, id, v, FoldVersions(rows)),
         folded := if rows.Keys == {v} then s.folded else s.folded[id := v],
         pending := Idle)
    case Abort => s.(pending := Idle)
  }

  /** Two histories of one object agree: alike after `u`, and folding alike up to it. */
  ghost predicate Agree(now: map<Timestamp, Json>, ever: map<Timestamp, Json>, u: Option<Timestamp>) {
    match u
    case None => now == ever
    case Some(v) =>
      && v in now && UpTo(now, v) != map[] && UpTo(ever, v) != map[]
      && FoldVersions(UpTo(now, v)) == FoldVersions(UpTo(ever, v))
      && After(now, v) == After(ever, v)
  }

  ghost function FoldedUpTo(s: State, id: Uuid): Option<Timestamp> {
    if id in s.folded then Some(s.folded[id]) else None
  }

  lemma AgreeFold(now: map<Timestamp, Json>, ever: map<Timestamp, Json>, u: Option<Timestamp>)
    requires Agree(now, ever, u)
    ensures (now == map[]) <==> (ever == map[])
    ensures now != map[] ==> FoldVersions(now) == FoldVersions(ever)
  {
    if u.Some? {
      FoldAgreement(now, ever, u.value);
    }
  }

  lemma AgreeInsert(now: map<Timestamp, Json>, ever: map<Timestamp, Json>, u: Option<Timestamp>,
                    w: Timestamp, payload: Json)
    requires Agree(now, ever, u) && (u.Some? ==> u.value.t < w.t)
    ensures Agree(now[w := payload], ever[w := payload], u)
    ensures u.Some? ==> UpTo(now[w := payload], u.value) == UpTo(now, u.value)
  {
    if u.Some? {
      var v := u.value;
      assert UpTo(now[w := payload], v) == UpTo(now, v);
      assert UpTo(ever[w := payload], v) == UpTo(ever, v);
      assert After(now[w := payload], v) == After(now, v)[w := payload];
      assert After(ever[w := payload], v) == After(ever, v)[w := payload];
    }
  }

  /** Agreement up to a version carries over to any later one. */
  lemma AgreeRaise(now: map<Timestamp, Json>, ever: map<Timestamp, Json>, u: Option<Timestamp>, v: Timestamp)
    requires Agree(now, ever, u) && v in now && (u.Some? ==> u.value.t <= v.t)
    ensures Agree(now, ever, Some(v))
  {
    assert v in UpTo(now, v);
    if u.Some? {
      var a, b, w := UpTo(now, v), UpTo(ever, v), u.value;
      assert UpTo(a, w) == UpTo(now, w) && UpTo(b, w) == UpTo(ever, w);
      assert After(a, w) == UpTo(After(now, w), v) && After(b, w) == UpTo(After(ever, w), v);
      FoldAgreement(a, b, w);
      assert After(now, v) == After(After(now, w), v) && After(ever, v) == After(After(ever, w), v);
    }
  }

  lemma AgreeCommit(now: map<Timestamp, Json>, ever: map<Timestamp, Json>, v: Timestamp, document: Json)
    requires Agree(now, ever, Some(v)) && document == FoldVersions(UpTo(now, v))
    ensures Agree(map[v := document] + After(now, v), ever, Some(v))
  {
    var after := map[v := document] + After(now, v);
    assert v in UpTo(after, v);
    assert UpTo(after, v) == map[v := document] && After(after, v) == After(now, v);
    FoldSingleton(v, document);
  }

  lemma PayloadsInsert(t: Table, key: RowKey, row: Row, id: Uuid)
    ensures Payloads(t[key := row], id) ==
            if id == key.id then Payloads(t, id)[key.version := row.payload] else Payloads(t, id)
  {
  }

  lemma PayloadsCommitted(t: Table, id: Uuid, v: Timestamp, document: Json, other: Uuid)
    requires v in Payloads(t, id)
    ensures Payloads(Committed(t, id, v, document), other) ==
            if other == id then map[v := document] + After(Payloads(t, id), v) else Payloads(t, other)
  {
    var left := Payloads(Committed(t, id, v, document), other);
    if other == id {
      var right := map[v := document] + After(Payloads(t, id), v);
      assert RowKey(id, v) in t;
      forall w
        ensures w in left <==> w in right
        ensures w in left ==> left[w] == right[w]
      {
        assert w in left <==> RowKey(id, w) in Committed(t, id, v, document);
      }
    }
  }

  /** The rows read are still there, and nothing newer than them was folded yet. */
  ghost predicate ReadRows(s: State, id: Uuid) {
    s.pending.Merging? && s.pending.id == id ==>
      && s.pending.rows != map[]
      && (forall w <- s.pending.rows :: w in Payloads(s.table, id) && Payloads(s.table, id)[w] == s.pending.rows[w])
      && (id in s.folded ==> s.folded[id] in s.pending.rows)
  }

  ghost predicate InvAt(s: State, id: Uuid) {
    Agree(Payloads(s.table, id), Payloads(s.inserted, id), FoldedUpTo(s, id)) && ReadRows(s, id)
  }

  ghost predicate Inv(s: State) {
    forall id :: InvAt(s, id)
  }

  lemma InsertKeepsInvAt(s: State, key: RowKey, row: Row, id: Uuid)
    requires InvAt(s, id) && Enabled(s, Insert(key, row))
    ensures InvAt(Next(s, Insert(key, row)), id)
  {
    PayloadsInsert(s.table, key, row, id);
    PayloadsInsert(s.inserted, key, row, id);
    if id == key.id {
      AgreeInsert(Payloads(s.table, id), Payloads(s.inserted, id), FoldedUpTo(s, id), key.version, row.payload);
    }
    forall w | w in Payloads(s.table, id) ensures RowKey(id, w) in s.table {}
  }

  lemma ReadKeepsInvAt(s: State, other: Uuid, id: Uuid)
    requires InvAt(s, id) && Enabled(s, Read(other))
    ensures InvAt(Next(s, Read(other)), id)
  {
  }

  /** Committing the fold of everything up to a version keeps the agreement, up to that version if several
      rows were folded. */
  lemma CommitAgrees(now: map<Timestamp, Json>, ever: map<Timestamp, Json>, u: Option<Timestamp>,
                     rows: map<Timestamp, Json>, v: Timestamp)
    requires Agree(now, ever, u) && rows != map[] && v == LatestVersion(rows) && UpTo(now, v) == rows
    requires u.Some? ==> u.value in rows
    ensures Agree(map[v := FoldVersions(rows)] + After(now, v), ever, if rows.Keys == {v} then u else Some(v))
  {
    assert v in now;
    if rows.Keys == {v} {
      assert rows == map[v := now[v]];
      FoldSingleton(v, now[v]);
      assert map[v := FoldVersions(rows)] + After(now, v) == now;
    } else {
      AgreeRaise(now, ever, u, v);
      AgreeCommit(now, ever, v, FoldVersions(rows));
    }
  }

  lemma CommitKeepsInvAt(s: State, id: Uuid)
    requires Enabled(s, Commit) && InvAt(s, id) && InvAt(s, s.pending.id)
    ensures InvAt(Next(s, Commit), id)
  {
    var p, s' := s.pending, Next(s, Commit);
    var v := LatestVersion(p.rows);
    PayloadsCommitted(s.table, p.id, v, FoldVersions(p.rows), id);
    if id == p.id {
      CommitAgrees(Payloads(s.table, id), Payloads(s.inserted, id), FoldedUpTo(s, id), p.rows, v);
    }
    assert FoldedUpTo(s', id) == if id == p.id && p.rows.Keys != {v} then Some(v) else FoldedUpTo(s, id);
  }

  lemma StepKeepsInvAt(s: State, step: Step, id: Uuid)
    requires Inv(s) && Enabled(s, step)
    ensures InvAt(Next(s, step), id)
  {
    assert InvAt(s, id);
    match step
    case Insert(key, row) => InsertKeepsInvAt(s, key, row, id);
    case Read(other) => ReadKeepsInvAt(s, other, id);
    case Commit =>
      assert InvAt(s, s.pending.id);
      CommitKeepsInvAt(s, id);
    case Abort =>
  }

  lemma StepKeepsInv(s: State, step: Step)
    requires Inv(s) && Enabled(s, step)
    ensures Inv(Next(s, step))
  {
    forall id ensures InvAt(Next(s, step), id) {
      StepKeepsInvAt(s, step, id);
    }
  }

  ghost predicate Legal(s: State, steps: seq<Step>)
    decreases |steps|
  {
    steps == [] || (Enabled(s, steps[0]) && Legal(Next(s, steps[0]), steps[1..]))
  }

  ghost function Run(s: State, steps: seq<Step>): State
    requires Legal(s, steps)
    decreases |steps|
  {
    if steps == [] then s else Run(Next(s, steps[0]), steps[1..])
  }

  lemma {:induction false} RunKeepsInv(s: State, steps: seq<Step>)
    requires Inv(s) && Legal(s, steps)
    ensures Inv(Run(s, steps))
    decreases |steps|
  {
    if steps != [] {
      StepKeepsInv(s, steps[0]);
      RunKeepsInv(Next(s, steps[0]), steps[1..]);
    }
  }

  /** Whatever the interleaving, an object's rows fold to what everything inserted for it folds to. */
  lemma ShrinkingPreservesDocuments(steps: seq<Step>, id: Uuid)
    requires Legal(Empty, steps)
    ensures var s := Run(Empty, steps);
            var now, ever := Payloads(s.table, id), Payloads(s.inserted, id);
            (now == map[] <==> ever == map[]) && (now != map[] ==> FoldVersions(now) == FoldVersions(ever))
  {
    RunKeepsInv(Empty, steps);
    var s := Run(Empty, steps);
    assert InvAt(s, id);
    AgreeFold(Payloads(s.table, id), Payloads(s.inserted, id), FoldedUpTo(s, id));
  }
}
