/**
 The two latest-version queries over the `data` table and the map the service builds from their rows.
 */
module Queries {
  import opened Wrappers
  import opened Json
  import opened Documents
  import opened Shrinker

  /** `SELECT object_id, max(version) ... WHERE object_id = ANY($1) GROUP BY object_id`. */
  ghost function Maxes(t: Table, ids: set<Uuid>): map<Uuid, Timestamp> {
    map k | k in t && k.id in ids :: k.id := LatestVersion(PayloadsOf(t, k))
  }

  /** The rows `query_multiple` joins to those maxima. */
  ghost function JoinedRows(t: Table, ids: set<Uuid>): set<RowKey> {
    var maxes := Maxes(t, ids);
    set k | k in t && k.id in maxes && k.version == maxes[k.id]
  }

  /** The rows whose version no other row of the object exceeds, as the correlated subquery asks. */
  ghost function CorrelatedRows(t: Table, schema: Uuid): set<RowKey> {
    set k | k in t && t[k].schema == schema && forall l :: l in t && l.id == k.id ==> l.version.t <= k.version.t
  }

  /** The rows in the order the server happens to send them, collected into a map by object. */
  function CollectIdPayloadRows(t: Table, rows: seq<RowKey>): map<Uuid, Json>
    requires forall k <- rows :: k in t
  {
    if rows == [] then map[] else
      var n := |rows| - 1;
      assert forall k <- rows[..n] :: k in rows;
      assert rows[n] in rows;
      CollectIdPayloadRows(t, rows[..n])[rows[n].id := t[rows[n]].payload]
  }

  ghost predicate Sends(rows: seq<RowKey>, result: set<RowKey>) {
    forall k :: k in rows <==> k in result
  }

  lemma NewestIffUnexceeded(t: Table, k: RowKey)
    requires k in t
    ensures Newest(t, k) <==> forall l :: l in t && l.id == k.id ==> l.version.t <= k.version.t
  {
    var p := PayloadsOf(t, k);
    var v := LatestVersion(p);
    assert RowKey(k.id, v) in t;
    forall l | l in t && l.id == k.id ensures l.version.t <= v.t {
      assert l.version in p;
    }
  }

  lemma JoinedIffNewest(t: Table, ids: set<Uuid>, k: RowKey)
    ensures k in JoinedRows(t, ids) <==> k in t && k.id in ids && Newest(t, k)
  {
    var maxes := Maxes(t, ids);
    if k in t && k.id in ids {
      assert k.id in maxes;
      assert maxes[k.id] == LatestVersion(PayloadsOf(t, k));
    }
  }

  /** The join returns exactly one row, the newest, for each requested object that has any. */
  lemma OneRowPerObject(t: Table, ids: set<Uuid>, id: Uuid) returns (k: RowKey)
    requires id in ids && Payloads(t, id) != map[]
    ensures k == RowKey(id, LatestVersion(Payloads(t, id)))
    ensures forall l :: l in JoinedRows(t, ids) && l.id == id <==> l == k
  {
    k := RowKey(id, LatestVersion(Payloads(t, id)));
    forall l
      ensures l in JoinedRows(t, ids) && l.id == id <==> l == k
    {
      JoinedIffNewest(t, ids, l);
      if l in t && l.id == id {
        assert PayloadsOf(t, l) == Payloads(t, id);
      }
      assert k in t;
    }
  }

  /** The by-schema rows are the by-id rows of all objects, kept when that newest row has the schema. */
  lemma BySchemaFiltersById(t: Table, ids: set<Uuid>, schema: Uuid)
    requires forall k <- t :: k.id in ids
    ensures CorrelatedRows(t, schema) == set k | k in JoinedRows(t, ids) && t[k].schema == schema
  {
    forall k | k in t
      ensures k in JoinedRows(t, ids) <==>
              forall l :: l in t && l.id == k.id ==> l.version.t <= k.version.t
    {
      JoinedIffNewest(t, ids, k);
      NewestIffUnexceeded(t, k);
    }
  }

  /** An object's only row is what the collected map holds, wherever and however often it came. */
  lemma {:induction false} CollectUnique(t: Table, rows: seq<RowKey>, k: RowKey)
    requires forall l <- rows :: l in t && (l.id == k.id ==> l == k)
    requires k in rows
    ensures k.id in CollectIdPayloadRows(t, rows) && CollectIdPayloadRows(t, rows)[k.id] == t[k].payload
    decreases |rows|
  {
    var n := |rows| - 1;
    assert forall l <- rows[..n] :: l in rows;
    assert rows[n] in rows;
    if rows[n] != k {
      assert k in rows[..n];
      CollectUnique(t, rows[..n], k);
    }
  }

  /** Only objects of the rows are collected. */
  lemma {:induction false} CollectedFrom(t: Table, rows: seq<RowKey>, id: Uuid)
    requires forall l <- rows :: l in t && l.id != id
    ensures id !in CollectIdPayloadRows(t, rows)
    decreases |rows|
  {
    if rows != [] {
      var n := |rows| - 1;
      assert forall l <- rows[..n] :: l in rows;
      assert rows[n] in rows;
      CollectedFrom(t, rows[..n], id);
    }
  }

  /** `query_multiple` answers each requested stored object with the payload of its newest version, in any row order. */
  lemma QueryMultipleAnswers(t: Table, ids: set<Uuid>, rows: seq<RowKey>, id: Uuid)
    requires Sends(rows, JoinedRows(t, ids))
    ensures forall k <- rows :: k in t
    ensures id in CollectIdPayloadRows(t, rows) <==> id in ids && Payloads(t, id) != map[]
    ensures id in ids && Payloads(t, id) != map[] ==>
              CollectIdPayloadRows(t, rows)[id] == Payloads(t, id)[LatestVersion(Payloads(t, id))]
  {
    forall k | k in rows ensures k in t && k.id in ids && Payloads(t, k.id) != map[] {
      JoinedIffNewest(t, ids, k);
      assert PayloadsOf(t, k) != map[];
    }
    if id in ids && Payloads(t, id) != map[] {
      var k := OneRowPerObject(t, ids, id);
      CollectUnique(t, rows, k);
    } else {
      CollectedFrom(t, rows, id);
    }
  }

  /** `query_by_schema` answers an object exactly when its newest row has the schema, with what
      `query_multiple` answers for it. */
  lemma QueryBySchemaAnswers(t: Table, schema: Uuid, rows: seq<RowKey>, id: Uuid)
    requires Sends(rows, CorrelatedRows(t, schema))
    ensures forall k <- rows :: k in t
    ensures id in CollectIdPayloadRows(t, rows) <==>
            Payloads(t, id) != map[] && NewestRow(t, id).schema == schema
    ensures id in CollectIdPayloadRows(t, rows) ==>
            CollectIdPayloadRows(t, rows)[id] == Payloads(t, id)[LatestVersion(Payloads(t, id))]
  {
    var ids := set k | k in t :: k.id;
    BySchemaFiltersById(t, ids, schema);
    if Payloads(t, id) == map[] {
      forall k | k in rows ensures k.id != id {
        assert PayloadsOf(t, k) != map[];
      }
      CollectedFrom(t, rows, id);
    } else {
      assert RowKey(id, LatestVersion(Payloads(t, id))) in t;
      var k := OneRowPerObject(t, ids, id);
      if t[k].schema == schema {
        assert k in rows;
        CollectUnique(t, rows, k);
      } else {
        CollectedFrom(t, rows, id);
      }
    }
  }

  ghost function NewestRow(t: Table, id: Uuid): Row
    requires Payloads(t, id) != map[]
  {
    var k := RowKey(id, LatestVersion(Payloads(t, id)));
    assert k in t;
    t[k]
  }

  lemma ShrunkPayloads(t: Table, id: Uuid)
    requires Payloads(t, id) != map[]
    ensures var p := Payloads(t, id); Payloads(Shrunk(t), id) == map[LatestVersion(p) := FoldVersions(p)]
  {
    var p := Payloads(t, id);
    var v := LatestVersion(p);
    assert RowKey(id, v) in t;
    forall k | k in t && k.id == id
      ensures PayloadsOf(t, k) == p && (k in Shrunk(t) <==> k == RowKey(id, v))
    {
    }
  }

  /** After an undisturbed shrinker run the by-id query returns the fold of every version there was. */
  lemma QueryAfterShrinking(t: Table, ids: set<Uuid>, rows: seq<RowKey>, id: Uuid)
    requires Sends(rows, JoinedRows(Shrunk(t), ids))
    requires id in ids && Payloads(t, id) != map[]
    ensures forall k <- rows :: k in Shrunk(t)
    ensures id in CollectIdPayloadRows(Shrunk(t), rows)
    ensures CollectIdPayloadRows(Shrunk(t), rows)[id] == FoldVersions(Payloads(t, id))
  {
    ShrunkPayloads(t, id);
    var p := Payloads(t, id);
    var after := map[LatestVersion(p) := FoldVersions(p)];
    assert LatestVersion(p) in after;
    LatestUnique(after, LatestVersion(p));
    QueryMultipleAnswers(Shrunk(t), ids, rows, id);
  }
}
