/**
 The `data` table: payloads keyed by object and version, as its primary key demands.
 */
module Documents {
  import opened Json
  import opened Wrappers

  /** The version column holds the timestamp of the insert message. */
  datatype Timestamp = Timestamp(t: int)

  datatype RowKey = RowKey(id: Uuid, version: Timestamp)
  datatype Row = Row(schema: Uuid, payload: Json)
  type Table = map<RowKey, Row>

  /** The payloads of one object by version. */
  function Payloads(t: Table, id: Uuid): map<Timestamp, Json> {
    map k | k in t && k.id == id :: k.version := t[k].payload
  }

  ghost predicate IsMax(m: map<Timestamp, Json>, v: Timestamp) {
    v in m && forall w <- m :: w.t <= v.t
  }

  lemma {:induction false} MaxExists(m: map<Timestamp, Json>)
    requires m != map[]
    ensures exists v :: IsMax(m, v)
  {
    var v :| v in m;
    var rest := m - {v};
    assert forall w <- m :: w == v || w in rest;
    if rest == map[] {
      assert IsMax(m, v);
    } else {
      MaxExists(rest);
      var w :| IsMax(rest, w);
      assert IsMax(m, if w.t < v.t then v else w);
    }
  }

  /** The greatest version of an object that has one. */
  ghost function LatestVersion(m: map<Timestamp, Json>): (v: Timestamp)
    requires m != map[]
    ensures IsMax(m, v)
  {
    MaxExists(m);
    var v :| IsMax(m, v);
    v
  }

  /** `rows` is `m` read in strictly ascending version order. */
  ghost predicate Enumerates(m: map<Timestamp, Json>, rows: seq<(Timestamp, Json)>) {
    && (forall i, j :: 0 <= i < j < |rows| ==> rows[i].0.t < rows[j].0.t)
    && (forall r <- rows :: r.0 in m && m[r.0] == r.1)
    && (forall v <- m :: (v, m[v]) in rows)
  }

  /** The payloads as `ORDER BY version ASC` returns them. */
  ghost function Ascending(m: map<Timestamp, Json>): seq<(Timestamp, Json)>
    decreases m.Keys
  {
    if m == map[] then [] else
      var v := LatestVersion(m);
      Ascending(m - {v}) + [(v, m[v])]
  }

  lemma {:induction false} AscendingEnumerates(m: map<Timestamp, Json>)
    ensures Enumerates(m, Ascending(m))
    decreases m.Keys
  {
    if m != map[] {
      var v := LatestVersion(m);
      AscendingEnumerates(m - {v});
      EnumeratesLast(m, Ascending(m - {v}), v);
    }
  }

  lemma EnumeratesLast(m: map<Timestamp, Json>, rest: seq<(Timestamp, Json)>, v: Timestamp)
    requires IsMax(m, v) && Enumerates(m - {v}, rest)
    ensures Enumerates(m, rest + [(v, m[v])])
  {
    var rows := rest + [(v, m[v])];
    forall i, j | 0 <= i < j < |rows| ensures rows[i].0.t < rows[j].0.t {
      assert rest[i] in rest && rest[i].0 in m - {v};
    }
    forall w <- m ensures (w, m[w]) in rows {
      if w == v {
        assert rows[|rest|] == (w, m[w]);
      } else {
        var others := m - {v};
        assert w in others && others[w] == m[w];
        assert (w, others[w]) in rest;
      }
    }
  }

  ghost function Docs(rows: seq<(Timestamp, Json)>): (docs: seq<Json>)
    ensures |docs| == |rows|
    ensures forall i :: 0 <= i < |docs| ==> docs[i] == rows[i].1
  {
    seq(|rows|, i requires 0 <= i < |rows| => rows[i].1)
  }

  /** The version-ordered fold of an object's payloads. */
  ghost function FoldVersions(m: map<Timestamp, Json>): Json
    requires m != map[]
  {
    NonEmptyAscending(m);
    Fold(Docs(Ascending(m)))
  }

  function UpTo(m: map<Timestamp, Json>, v: Timestamp): map<Timestamp, Json> {
    map w | w in m && w.t <= v.t :: m[w]
  }

  function After(m: map<Timestamp, Json>, v: Timestamp): map<Timestamp, Json> {
    map w | w in m && v.t < w.t :: m[w]
  }

  lemma LatestUnique(m: map<Timestamp, Json>, v: Timestamp)
    requires IsMax(m, v)
    ensures LatestVersion(m) == v
  {
  }

  lemma AscendingLast(m: map<Timestamp, Json>, v: Timestamp)
    requires IsMax(m, v)
    ensures Ascending(m) == Ascending(m - {v}) + [(v, m[v])]
  {
    LatestUnique(m, v);
  }

  /** Reading in order splits at any version. */
  lemma {:induction false} AscendingSplit(m: map<Timestamp, Json>, v: Timestamp)
    ensures Ascending(m) == Ascending(UpTo(m, v)) + Ascending(After(m, v))
    decreases m.Keys
  {
    if m == map[] {
      assert UpTo(m, v) == map[] == After(m, v);
    } else {
      var w := LatestVersion(m);
      if w.t <= v.t {
        assert UpTo(m, v) == m && After(m, v) == map[];
      } else {
        assert UpTo(m - {w}, v) == UpTo(m, v) && After(m - {w}, v) == After(m, v) - {w};
        AscendingLast(m, w);
        AscendingLast(After(m, v), w);
        AscendingSplit(m - {w}, v);
      }
    }
  }

  lemma NonEmptyAscending(m: map<Timestamp, Json>)
    requires m != map[]
    ensures Ascending(m) != []
  {
  }

  lemma DocsConcat(a: seq<(Timestamp, Json)>, b: seq<(Timestamp, Json)>)
    ensures Docs(a + b) == Docs(a) + Docs(b)
  {
  }

  /** A fold may start from the fold of everything up to some version. */
  lemma FoldThrough(m: map<Timestamp, Json>, v: Timestamp)
    requires UpTo(m, v) != map[] && m != map[]
    ensures FoldVersions(m) == Fold([FoldVersions(UpTo(m, v))] + Docs(Ascending(After(m, v))))
  {
    var low, high := Docs(Ascending(UpTo(m, v))), Docs(Ascending(After(m, v)));
    NonEmptyAscending(UpTo(m, v));
    AscendingSplit(m, v);
    DocsConcat(Ascending(UpTo(m, v)), Ascending(After(m, v)));
    FoldPrefix(low + high, |low|);
    assert (low + high)[..|low|] == low;
    assert (low + high)[|low|..] == high;
  }

  /** Payloads that fold alike up to a version and agree after it fold alike altogether. */
  lemma FoldAgreement(a: map<Timestamp, Json>, b: map<Timestamp, Json>, v: Timestamp)
    requires UpTo(a, v) != map[] && UpTo(b, v) != map[]
    requires FoldVersions(UpTo(a, v)) == FoldVersions(UpTo(b, v))
    requires After(a, v) == After(b, v)
    ensures a != map[] && b != map[]
    ensures FoldVersions(a) == FoldVersions(b)
  {
    var w :| w in UpTo(a, v);
    var x :| x in UpTo(b, v);
    assert w in a && x in b;
    FoldThrough(a, v);
    FoldThrough(b, v);
  }

  lemma FoldSingleton(v: Timestamp, doc: Json)
    ensures map[v := doc] != map[]
    ensures FoldVersions(map[v := doc]) == doc
  {
    var m := map[v := doc];
    assert v in m;
    LatestUnique(m, v);
    assert m - {v} == map[];
    assert Ascending(m) == [(v, doc)];
  }
}
