/**
 The document shrinker: it reads all versions of an object, folds their payloads, and in one
 transaction deletes the older rows and rewrites the newest, while inserts go on around it.
 */
module Shrinker {
  import opened Wrappers
  import opened Json
  import opened Documents

  datatype ShrinkError = NoRows

  /** What the transaction leaves of the table. */
  function Committed(t: Table, id: Uuid, version: Timestamp, document: Json): Table {
    map k | k in t && !(k.id == id && k.version.t < version.t) ::
      if k == RowKey(id, version) then t[k].(payload := document) else t[k]
  }

  ghost function PayloadsOf(t: Table, k: RowKey): (p: map<Timestamp, Json>)
    requires k in t
    ensures p == Payloads(t, k.id) && p != map[]
  {
    assert k.version in Payloads(t, k.id);
    Payloads(t, k.id)
  }

  ghost predicate Newest(t: Table, k: RowKey)
    requires k in t
  {
    k.version == LatestVersion(PayloadsOf(t, k))
  }

  ghost function FoldedRow(t: Table, k: RowKey): Row
    requires k in t
  {
    t[k].(payload := FoldVersions(PayloadsOf(t, k)))
  }

  /** One row per object: its newest, holding the fold of all its payloads. */
  ghost function Shrunk(t: Table): Table {
    map k | k in t && Newest(t, k) :: FoldedRow(t, k)
  }

  /** The table when only the objects in `done` have been shrunk. */
  ghost function PartlyShrunk(t: Table, done: set<Uuid>): Table {
    map k | k in t && (k.id in done ==> Newest(t, k)) :: if k.id in done then FoldedRow(t, k) else t[k]
  }

  lemma PartlyShrunkPayloads(t: Table, done: set<Uuid>, id: Uuid)
    requires id !in done
    ensures Payloads(PartlyShrunk(t, done), id) == Payloads(t, id)
  {
  }

  lemma NewestIs(t: Table, id: Uuid, v: Timestamp, k: RowKey)
    requires k in t && IsMax(Payloads(t, id), v)
    ensures Payloads(t, id) != map[]
    ensures k.id == id ==> PayloadsOf(t, k) == Payloads(t, id) && (Newest(t, k) <==> k.version == v)
    ensures k.id == id ==> (Newest(t, k) <==> !(k.version.t < v.t))
  {
    LatestUnique(Payloads(t, id), v);
    if k.id == id {
      assert k.version in Payloads(t, id);
    }
  }

  lemma ShrinkOneMoreAt(t: Table, done: set<Uuid>, id: Uuid, v: Timestamp, k: RowKey)
    requires id !in done && IsMax(Payloads(t, id), v)
    ensures Payloads(t, id) != map[]
    ensures var left := Committed(PartlyShrunk(t, done), id, v, FoldVersions(Payloads(t, id)));
            var right := PartlyShrunk(t, done + {id});
            (k in left <==> k in right) && (k in left ==> left[k] == right[k])
  {
    assert Payloads(t, id) != map[];
    if k in t {
      NewestIs(t, id, v, k);
    }
  }

  lemma ShrinkOneMore(t: Table, done: set<Uuid>, id: Uuid)
    requires id !in done && Payloads(t, id) != map[]
    ensures Committed(PartlyShrunk(t, done), id, LatestVersion(Payloads(t, id)), FoldVersions(Payloads(t, id)))
            == PartlyShrunk(t, done + {id})
  {
    var v, document := LatestVersion(Payloads(t, id)), FoldVersions(Payloads(t, id));
    var left, right := Committed(PartlyShrunk(t, done), id, v, document), PartlyShrunk(t, done + {id});
    forall k
      ensures (k in left <==> k in right) && (k in left ==> left[k] == right[k])
    {
      ShrinkOneMoreAt(t, done, id, v, k);
    }
    SameMap(left, right);
  }

  lemma PartlyShrunkNone(t: Table)
    ensures PartlyShrunk(t, {}) == t
  {
  }

  /** Shrinking a chosen object of the partly shrunk table. */
  lemma ShrinkChosen(t: Table, done: set<Uuid>, id: Uuid)
    requires id !in done && id in Duplicated(t)
    ensures Payloads(t, id) != map[] && Payloads(PartlyShrunk(t, done), id) == Payloads(t, id)
    ensures Committed(PartlyShrunk(t, done), id, LatestVersion(Payloads(t, id)), FoldVersions(Payloads(t, id)))
            == PartlyShrunk(t, done + {id})
  {
    PartlyShrunkPayloads(t, done, id);
    DuplicatedHasRows(t, id);
    ShrinkOneMore(t, done, id);
  }

  /** An object outside the chosen ids has a single row, which is its own fold. */
  lemma SingleRow(t: Table, k: RowKey)
    requires k in t && forall l <- t :: l.id == k.id ==> l == k
    ensures Newest(t, k) && FoldedRow(t, k) == t[k]
  {
    var p := PayloadsOf(t, k);
    forall v | v in p ensures v == k.version {
      assert RowKey(k.id, v) in t;
    }
    assert p == map[k.version := t[k].payload];
    FoldSingleton(k.version, t[k].payload);
  }

  /** `SELECT object_id FROM data GROUP BY object_id HAVING count(*) > 1`. */
  function Duplicated(t: Table): set<Uuid> {
    set k | k in t && exists l :: l in t && l.id == k.id && l != k :: k.id
  }

  lemma DuplicatedHasRows(t: Table, id: Uuid)
    requires id in Duplicated(t)
    ensures Payloads(t, id) != map[]
  {
    var k :| k in t && k.id == id;
    assert k.version in Payloads(t, id);
  }

  lemma PartlyShrunkAll(t: Table)
    ensures PartlyShrunk(t, Duplicated(t)) == Shrunk(t)
  {
    var left, right := PartlyShrunk(t, Duplicated(t)), Shrunk(t);
    forall k ensures (k in left <==> k in right) && (k in left ==> left[k] == right[k]) {
      if k in t && k.id !in Duplicated(t) {
        SingleRow(t, k);
      }
    }
    SameMap(left, right);
  }

  /** `fold_first` over the payloads: the first one is the accumulator, the others are merged into it. */
  method MinimizeDocument(docs: seq<Json>) returns (document: Option<Json>)
    ensures document == if docs == [] then None else Some(Fold(docs))
  {
    if docs == [] {
      return None;
    }
    var acc := docs[0];
    for i := 1 to |docs|
      invariant acc == Fold(docs[..i])
    {
      assert docs[..i + 1][..i] == docs[..i];
      acc := MergeInPlace(acc, docs[i]);
    }
    assert docs[..|docs|] == docs;
    document := Some(acc);
  }

  class DataTable {
    var rows: Table

    /** The primary key turns away a second row for the same object and version. */
    method Insert(key: RowKey, row: Row) returns (inserted: bool)
      modifies this
      ensures inserted <==> key !in old(rows)
      ensures rows == if inserted then old(rows)[key := row] else old(rows)
    {
      inserted := key !in rows;
      if inserted {
        rows := rows[key := row];
      }
    }

    /** `SELECT version, payload FROM data WHERE object_id = $1 ORDER BY version ASC`. */
    method GetAllWithId(id: Uuid) returns (selected: seq<(Timestamp, Json)>)
      ensures selected == Ascending(Payloads(rows, id))
    {
      var todo := Payloads(rows, id);
      selected := [];
      while todo != map[]
        invariant Ascending(todo) + selected == Ascending(Payloads(rows, id))
        decreases todo.Keys
      {
        MaxExists(todo);
        assert exists v :: v in todo && forall w <- todo :: w.t <= v.t by {
          assert IsMax(todo, LatestVersion(todo));
        }
        var v :| v in todo && forall w <- todo :: w.t <= v.t;
        assert IsMax(todo, v);
        LatestUnique(todo, v);
        selected := [(v, todo[v])] + selected;
        todo := todo - {v};
      }
    }

    /** The `DELETE` and the `UPDATE` of one transaction. */
    method Commit(id: Uuid, version: Timestamp, document: Json)
      modifies this
      ensures rows == Committed(old(rows), id, version, document)
    {
      rows := map k | k in rows && !(k.id == id && k.version.t < version.t) :: rows[k];
      rows := map k | k in rows ::
        if k.id == id && k.version == version then rows[k].(payload := document) else rows[k];
    }

    /** Reading, folding and committing one object with nothing in between. */
    method ShrinkById(id: Uuid) returns (r: Result<(), ShrinkError>)
      modifies this
      ensures r.Err? <==> Payloads(old(rows), id) == map[]
      ensures r.Err? ==> rows == old(rows)
      ensures r.Ok? ==>
                var p := Payloads(old(rows), id);
                rows == Committed(old(rows), id, LatestVersion(p), FoldVersions(p))
    {
      var selected := GetAllWithId(id);
      ghost var p := Payloads(rows, id);
      if selected == [] {
        assert p == map[];
        return Err(NoRows);
      }
      var version := selected[|selected| - 1].0;
      var document := MinimizeDocument(seq(|selected|, i requires 0 <= i < |selected| => selected[i].1));
      assert seq(|selected|, i requires 0 <= i < |selected| => selected[i].1) == Docs(selected);
      Commit(id, version, document.value);
      r := Ok(());
    }

    /** The whole run: the ids with more than one row are chosen once, then shrunk one by one. */
    method ShrinkAll()
      modifies this
      ensures rows == Shrunk(old(rows))
    {
      var changed := Duplicated(rows);
      ghost var before, chosen := rows, changed;
      ghost var done: set<Uuid> := {};
      PartlyShrunkNone(before);
      while changed != {}
        invariant done <= chosen && changed == chosen - done
        invariant rows == PartlyShrunk(before, done)
      {
        var id :| id in changed;
        assert chosen - done - {id} == chosen - (done + {id});
        ShrinkChosen(before, done, id);
        var _ := ShrinkById(id);
        changed, done := changed - {id}, done + {id};
      }
      assert done == chosen;
      PartlyShrunkAll(before);
    }
  }
}
