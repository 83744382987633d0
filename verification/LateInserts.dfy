/**
 Rows that arrive while or after an object is shrunk, in any version order: exactly when the document
 survives whatever the payloads.
 */
module LateInserts {
  import opened Wrappers
  import opened Json
  import opened Documents
  import opened Shrinker

  function Only(m: map<Timestamp, Json>, versions: set<Timestamp>): map<Timestamp, Json> {
    map w | w in m && w in versions :: m[w]
  }

  /** What is left of the payloads `m` when the versions `read`, the newest of them `v`, were folded and
      committed, the versions `during` having arrived before the commit and all others after it. */
  ghost function Left(m: map<Timestamp, Json>, read: set<Timestamp>, during: set<Timestamp>, v: Timestamp)
    : (left: map<Timestamp, Json>)
    requires v in m && v in read && v !in during
    ensures v in left
  {
    assert v in Only(m, read);
    map w | w in m && (w in read ==> w == v) && (w in during ==> v.t < w.t) ::
      if w == v then FoldVersions(Only(m, read)) else m[w]
  }

  ghost predicate Preserved(m: map<Timestamp, Json>, read: set<Timestamp>, during: set<Timestamp>, v: Timestamp) {
    v in m && v in read && v !in during && FoldVersions(Left(m, read, during, v)) == FoldVersions(m)
  }

  /** Nothing arrives below the version committed; after the commit of a single row, which changes nothing,
      anything may. */
  predicate InTime(read: set<Timestamp>, during: set<Timestamp>, later: set<Timestamp>, v: Timestamp) {
    && (forall w <- during :: v.t < w.t)
    && (read == {v} || forall w <- later :: v.t < w.t)
  }

  lemma InTimePreserves(m: map<Timestamp, Json>, read: set<Timestamp>, during: set<Timestamp>, later: set<Timestamp>,
                        v: Timestamp)
    requires v in read && (forall w <- read :: w.t <= v.t) && read !! during !! later
    requires m.Keys == read + during + later && InTime(read, during, later, v)
    ensures Preserved(m, read, during, v)
  {
    var left, folded := Left(m, read, during, v), Only(m, read);
    assert v in folded;
    if read == {v} {
      assert folded == map[v := m[v]];
      FoldSingleton(v, m[v]);
      assert left == m;
    } else {
      assert UpTo(m, v) == folded && v in UpTo(left, v);
      assert UpTo(left, v) == map[v := FoldVersions(folded)];
      FoldSingleton(v, FoldVersions(folded));
      assert After(left, v) == After(m, v);
      FoldAgreement(left, m, v);
    }
  }

  // ----- Payloads that tell -----

  const Mark: Path := ["x"]
  const Blank := Object(map[])

  function Marked(n: int): Json {
    Object(map["x" := Number(n)])
  }

  lemma Marks(n: int)
    ensures !Writes(Blank, Mark) && Writes(Marked(n), Mark) && Writes(Json.Null, Mark)
    ensures At(Marked(n), Mark) == Some(Number(n)) && At(Json.Null, Mark) == None && At(Blank, Mark) == None
  {
    assert Mark[..0] == [];
    assert At(Marked(n), Mark) == At(Number(n), Mark[1..]);
    assert At(Json.Null, Mark[..0]) == Some(Json.Null);
  }

  lemma LastMark(docs: seq<Json>, i: nat, leaf: Json)
    requires i < |docs| && Writes(docs[i], Mark) && !leaf.Object?
    requires forall j :: i < j < |docs| ==> docs[j] == Blank
    ensures At(Fold(docs), Mark) == Some(leaf) <==> At(docs[i], Mark) == Some(leaf)
  {
    Marks(0);
    LastWriterPerPath(docs, Mark, leaf);
    assert LastWriter(docs, Mark, i);
  }

  /** Below empty objects the newest document writing the mark decides it. */
  lemma NewestMark(m: map<Timestamp, Json>, w: Timestamp, leaf: Json)
    requires w in m && Writes(m[w], Mark) && !leaf.Object?
    requires forall u <- m :: w.t < u.t ==> m[u] == Blank
    ensures At(FoldVersions(m), Mark) == Some(leaf) <==> At(m[w], Mark) == Some(leaf)
  {
    var rows := Ascending(m);
    AscendingEnumerates(m);
    NonEmptyAscending(m);
    var i := IndexOf(rows, (w, m[w]));
    forall j | i < j < |rows| ensures rows[j].1 == Blank {
      assert rows[j] in rows && rows[i].0.t < rows[j].0.t;
    }
    LastMark(Docs(rows), i, leaf);
  }

  lemma IndexOf(rows: seq<(Timestamp, Json)>, row: (Timestamp, Json)) returns (i: nat)
    requires row in rows
    ensures i < |rows| && rows[i] == row
  {
    i :| 0 <= i < |rows| && rows[i] == row;
  }

  lemma {:induction false} FoldBare(docs: seq<Json>)
    requires docs != [] && forall d <- docs :: d == Json.Null || d == Blank
    ensures Fold(docs) == docs[|docs| - 1]
  {
    var n := |docs| - 1;
    assert docs[n] in docs;
    if n > 0 {
      assert forall d <- docs[..n] :: d in docs;
      FoldBare(docs[..n]);
      assert docs[n - 1] in docs;
      assert Merge(Blank, Blank).fields == map[];
    }
  }

  /** Of nulls and empty objects the newest is left. */
  lemma BareNewest(m: map<Timestamp, Json>, v: Timestamp)
    requires IsMax(m, v) && forall w <- m :: m[w] == Json.Null || m[w] == Blank
    ensures FoldVersions(m) == m[v]
  {
    AscendingLast(m, v);
    AscendingEnumerates(m);
    NonEmptyAscending(m);
    var rows := Ascending(m);
    var docs := Docs(rows);
    forall d | d in docs ensures d == Json.Null || d == Blank {
      var i :| 0 <= i < |docs| && docs[i] == d;
      assert rows[i] in rows;
    }
    FoldBare(docs);
  }

  /** Two documents among empty objects. */
  function Told(keys: set<Timestamp>, u: Timestamp, a: Json, w: Timestamp, b: Json): map<Timestamp, Json> {
    map x | x in keys :: if x == u then a else if x == w then b else Blank
  }

  /** A mark that arrives below the version before the commit is deleted. */
  lemma DuringLoses(read: set<Timestamp>, during: set<Timestamp>, later: set<Timestamp>, v: Timestamp, w: Timestamp)
    requires v in read && (forall u <- read :: u.t <= v.t) && read !! during !! later
    requires w in during && w.t < v.t
    ensures !Preserved(Told(read + during + later, w, Marked(1), w, Blank), read, during, v)
  {
    var m := Told(read + during + later, w, Marked(1), w, Blank);
    Marks(1);
    var left := Left(m, read, during, v);
    BareNewest(Only(m, read), v);
    BareNewest(left, LatestVersion(left));
    NewestMark(m, w, Number(1));
  }

  /** The version read at `u` marks the fold, and nothing newer than the committed version overwrites it. */
  lemma FoldKeepsMark(read: set<Timestamp>, during: set<Timestamp>, later: set<Timestamp>, v: Timestamp, w: Timestamp,
                      u: Timestamp)
    requires v in read && (forall x <- read :: x.t <= v.t) && read !! during !! later
    requires w in later && u in read && u.t < w.t < v.t
    ensures At(FoldVersions(Left(Told(read + during + later, u, Marked(1), w, Marked(2)), read, during, v)), Mark)
            == Some(Number(1))
  {
    var m := Told(read + during + later, u, Marked(1), w, Marked(2));
    Marks(1);
    var left, folded := Left(m, read, during, v), Only(m, read);
    NewestMark(folded, u, Number(1));
    assert Writes(left[v], Mark);
    NewestMark(left, v, Number(1));
  }

  /** A mark that arrives after the commit, between two versions read, no longer overwrites the older one. */
  lemma BetweenLoses(read: set<Timestamp>, during: set<Timestamp>, later: set<Timestamp>, v: Timestamp, w: Timestamp,
                     u: Timestamp)
    requires v in read && (forall x <- read :: x.t <= v.t) && read !! during !! later
    requires w in later && u in read && u.t < w.t < v.t
    ensures !Preserved(Told(read + during + later, u, Marked(1), w, Marked(2)), read, during, v)
  {
    FoldKeepsMark(read, during, later, v, w, u);
    Marks(2);
    NewestMark(Told(read + during + later, u, Marked(1), w, Marked(2)), w, Number(1));
  }

  /** The null read at `u` leaves no trace in the fold. */
  lemma FoldForgetsNull(read: set<Timestamp>, during: set<Timestamp>, later: set<Timestamp>, v: Timestamp, w: Timestamp,
                        u: Timestamp)
    requires v in read && (forall x <- read :: x.t <= v.t) && read !! during !! later
    requires w in later && u in read && w.t < u.t < v.t
    ensures At(FoldVersions(Left(Told(read + during + later, u, Json.Null, w, Marked(1)), read, during, v)), Mark)
            == Some(Number(1))
  {
    var m := Told(read + during + later, u, Json.Null, w, Marked(1));
    Marks(1);
    var left := Left(m, read, during, v);
    BareNewest(Only(m, read), v);
    assert left[v] == Blank;
    NewestMark(left, w, Number(1));
  }

  /** A mark that arrives after the commit, below a null that was read, is no longer wiped out by it. */
  lemma BelowLoses(read: set<Timestamp>, during: set<Timestamp>, later: set<Timestamp>, v: Timestamp, w: Timestamp,
                   u: Timestamp)
    requires v in read && (forall x <- read :: x.t <= v.t) && read !! during !! later
    requires w in later && u in read && w.t < u.t < v.t
    ensures !Preserved(Told(read + during + later, u, Json.Null, w, Marked(1)), read, during, v)
  {
    FoldForgetsNull(read, during, later, v, w, u);
    Marks(1);
    NewestMark(Told(read + during + later, u, Json.Null, w, Marked(1)), u, Number(1));
  }

  // ----- Three such histories -----

  lemma ToldThree(keys: set<Timestamp>, u: Timestamp, a: Json, w: Timestamp, b: Json, v: Timestamp)
    requires keys == {u, w, v} && u != w && u != v && w != v
    ensures Told(keys, u, a, w, b) == map[u := a, w := b, v := Blank]
  {
  }

  /** An older row inserted before the commit is deleted with its field. */
  lemma LateOldInsertIsLost(one: Timestamp, two: Timestamp)
    requires one.t < two.t
    ensures var m := map[one := Marked(1), two := Blank];
            two in m && FoldVersions(Left(m, {two}, {one}, two)) != FoldVersions(m)
  {
    var read, during := {two}, {one};
    DuringLoses(read, during, {}, two, one);
    assert Told({two} + {one} + {}, one, Marked(1), one, Blank) == map[one := Marked(1), two := Blank];
  }

  /** A row inserted between two rows already folded is overwritten by the older of them. */
  lemma InsertBetweenFolded(zero: Timestamp, one: Timestamp, two: Timestamp)
    requires zero.t < one.t < two.t
    ensures var m := map[zero := Marked(1), one := Marked(2), two := Blank];
            two in m && FoldVersions(Left(m, {zero, two}, {}, two)) != FoldVersions(m)
  {
    var read, later := {zero, two}, {one};
    BetweenLoses(read, {}, later, two, one, zero);
    ToldThree(read + {} + later, zero, Marked(1), one, Marked(2), two);
  }

  /** A row inserted below a null already folded is not wiped out by it. */
  lemma InsertBelowFoldedNull(zero: Timestamp, one: Timestamp, two: Timestamp)
    requires zero.t < one.t < two.t
    ensures var m := map[one := Json.Null, zero := Marked(1), two := Blank];
            two in m && FoldVersions(Left(m, {one, two}, {}, two)) != FoldVersions(m)
  {
    var read, later := {one, two}, {zero};
    BelowLoses(read, {}, later, two, zero, one);
    ToldThree(read + {} + later, one, Json.Null, zero, Marked(1), two);
  }

  // ----- Exactly when -----

  /** Payloads that give a late arrival away. */
  lemma TooLate(read: set<Timestamp>, during: set<Timestamp>, later: set<Timestamp>, v: Timestamp)
    returns (m: map<Timestamp, Json>)
    requires v in read && (forall w <- read :: w.t <= v.t) && read !! during !! later
    requires !InTime(read, during, later, v)
    ensures m.Keys == read + during + later && !Preserved(m, read, during, v)
  {
    var keys := read + during + later;
    if w :| w in during && w.t <= v.t {
      m := Told(keys, w, Marked(1), w, Blank);
      DuringLoses(read, during, later, v, w);
    } else {
      var w :| w in later && w.t <= v.t;
      var u :| u in read && u != v;
      if u.t < w.t {
        m := Told(keys, u, Marked(1), w, Marked(2));
        BetweenLoses(read, during, later, v, w, u);
      } else {
        m := Told(keys, u, Json.Null, w, Marked(1));
        BelowLoses(read, during, later, v, w, u);
      }
    }
  }

  /** The document survives, whatever the payloads, exactly when nothing arrives too late. */
  lemma PreservedIff(read: set<Timestamp>, during: set<Timestamp>, later: set<Timestamp>, v: Timestamp)
    requires v in read && (forall w <- read :: w.t <= v.t) && read !! during !! later
    ensures (forall m: map<Timestamp, Json> | m.Keys == read + during + later :: Preserved(m, read, during, v))
            <==> InTime(read, during, later, v)
  {
    if InTime(read, during, later, v) {
      forall m: map<Timestamp, Json> | m.Keys == read + during + later ensures Preserved(m, read, during, v) {
        InTimePreserves(m, read, during, later, v);
      }
    } else {
      var m := TooLate(read, during, later, v);
    }
  }

  // ----- The same on tables -----

  function Rows(t: Table, keys: set<RowKey>): Table {
    map k | k in t && k in keys :: t[k]
  }

  function VersionsOf(keys: set<RowKey>, id: Uuid): set<Timestamp> {
    set k | k in keys && k.id == id :: k.version
  }

  /** The rows of `t` inserted around a shrinker that read the keys `read`, committed when those in `during`
      had arrived as well, and saw the others come later. */
  ghost function AfterShrinking(t: Table, id: Uuid, read: set<RowKey>, during: set<RowKey>, later: set<RowKey>): Table
    requires Payloads(Rows(t, read), id) != map[]
  {
    var p := Payloads(Rows(t, read), id);
    Committed(Rows(t, read + during), id, LatestVersion(p), FoldVersions(p)) + Rows(t, later)
  }

  ghost predicate DocumentSurvives(t: Table, id: Uuid, read: set<RowKey>, during: set<RowKey>, later: set<RowKey>) {
    && Payloads(Rows(t, read), id) != map[]
    && Payloads(AfterShrinking(t, id, read, during, later), id) != map[] && Payloads(t, id) != map[]
    && FoldVersions(Payloads(AfterShrinking(t, id, read, during, later), id)) == FoldVersions(Payloads(t, id))
  }

  lemma VersionAt(keys: set<RowKey>, id: Uuid, w: Timestamp)
    ensures w in VersionsOf(keys, id) <==> RowKey(id, w) in keys
  {
    assert RowKey(id, w) in keys ==> RowKey(id, w).version in VersionsOf(keys, id);
  }

  lemma PayloadAt(t: Table, id: Uuid, w: Timestamp)
    ensures w in Payloads(t, id) <==> RowKey(id, w) in t
    ensures w in Payloads(t, id) ==> Payloads(t, id)[w] == t[RowKey(id, w)].payload
  {
  }

  lemma ReadVersions(t: Table, id: Uuid, keys: set<RowKey>)
    requires keys <= t.Keys
    ensures Payloads(Rows(t, keys), id).Keys == VersionsOf(keys, id)
    ensures Payloads(Rows(t, keys), id) == Only(Payloads(t, id), VersionsOf(keys, id))
  {
    var left, right := Payloads(Rows(t, keys), id), Only(Payloads(t, id), VersionsOf(keys, id));
    forall w
      ensures w in left <==> w in VersionsOf(keys, id)
      ensures (w in left <==> w in right) && (w in left ==> left[w] == right[w])
    {
      VersionAt(keys, id, w);
      PayloadAt(Rows(t, keys), id, w);
      PayloadAt(t, id, w);
    }
    SameMap(left, right);
  }

  /** Which rows of the object are left, and what they hold. */
  lemma SurvivorRow(t: Table, id: Uuid, read: set<RowKey>, during: set<RowKey>, later: set<RowKey>, v: Timestamp,
                    document: Json, k: RowKey)
    requires t.Keys == read + during + later && read !! during !! later && k.id == id
    requires RowKey(id, v) in read && (k in read ==> k.version.t <= v.t)
    ensures var after := Committed(Rows(t, read + during), id, v, document) + Rows(t, later);
            && (k in after <==> k in t && (k in read ==> k.version == v) && (k in during ==> v.t < k.version.t))
            && (k in after ==> after[k].payload == if k.version == v then document else t[k].payload)
  {
    assert k.version == v ==> k == RowKey(id, v);
    assert k in during ==> k.version != v;
  }

  lemma SurvivorAt(t: Table, id: Uuid, read: set<RowKey>, during: set<RowKey>, later: set<RowKey>, v: Timestamp,
                   w: Timestamp)
    requires t.Keys == read + during + later && read !! during !! later
    requires Payloads(Rows(t, read), id) != map[] && v == LatestVersion(Payloads(Rows(t, read), id))
    requires v in Payloads(t, id) && v in VersionsOf(read, id) && v !in VersionsOf(during, id)
    ensures var left := Payloads(AfterShrinking(t, id, read, during, later), id);
            var right := Left(Payloads(t, id), VersionsOf(read, id), VersionsOf(during, id), v);
            (w in left <==> w in right) && (w in left ==> left[w] == right[w])
  {
    var k, p := RowKey(id, w), Payloads(Rows(t, read), id);
    ReadVersions(t, id, read);
    VersionAt(read, id, v);
    VersionAt(read, id, w);
    VersionAt(during, id, w);
    PayloadAt(t, id, w);
    PayloadAt(AfterShrinking(t, id, read, during, later), id, w);
    SurvivorRow(t, id, read, during, later, v, FoldVersions(p), k);
  }

  lemma VersionsDisjoint(a: set<RowKey>, b: set<RowKey>, id: Uuid)
    requires a !! b
    ensures VersionsOf(a, id) !! VersionsOf(b, id)
    ensures VersionsOf(a + b, id) == VersionsOf(a, id) + VersionsOf(b, id)
  {
    forall w | w in VersionsOf(a, id) ensures w !in VersionsOf(b, id) {
      assert RowKey(id, w) in a;
    }
  }

  lemma VersionsSplit(read: set<RowKey>, during: set<RowKey>, later: set<RowKey>, id: Uuid)
    requires read !! during !! later
    ensures VersionsOf(read, id) !! VersionsOf(during, id) !! VersionsOf(later, id)
    ensures VersionsOf(read + during + later, id) ==
            VersionsOf(read, id) + VersionsOf(during, id) + VersionsOf(later, id)
  {
    VersionsDisjoint(read, during, id);
    VersionsDisjoint(read + during, later, id);
  }

  /** `newest` is the newest row read of the object. */
  ghost predicate NewestRead(id: Uuid, read: set<RowKey>, newest: RowKey) {
    newest in read && newest.id == id && forall k <- read :: k.id == id ==> k.version.t <= newest.version.t
  }

  lemma LateTable(id: Uuid, read: set<RowKey>, during: set<RowKey>, later: set<RowKey>, newest: RowKey,
                  m: map<Timestamp, Json>)
    requires read !! during !! later && NewestRead(id, read, newest)
    requires m.Keys == VersionsOf(read + during + later, id)
    requires !Preserved(m, VersionsOf(read, id), VersionsOf(during, id), newest.version)
    ensures !DocumentSurvives(Filled(read + during + later, id, m), id, read, during, later)
  {
    var t := Filled(read + during + later, id, m);
    FilledKeys(read + during + later, id, m);
    FilledPayloads(read + during + later, id, m);
    assert Payloads(t, id) == m;
    SurvivesIffPreserved(t, id, read, during, later, newest);
  }

  lemma LateWitness(id: Uuid, read: set<RowKey>, during: set<RowKey>, later: set<RowKey>, newest: RowKey)
    returns (t: Table)
    requires read !! during !! later && NewestRead(id, read, newest)
    requires !InTime(VersionsOf(read, id), VersionsOf(during, id), VersionsOf(later, id), newest.version)
    ensures t.Keys == read + during + later && !DocumentSurvives(t, id, read, during, later)
  {
    VersionsSplit(read, during, later, id);
    NewestVersion(id, read, newest);
    var m := TooLate(VersionsOf(read, id), VersionsOf(during, id), VersionsOf(later, id), newest.version);
    t := Filled(read + during + later, id, m);
    FilledKeys(read + during + later, id, m);
    LateTable(id, read, during, later, newest, m);
  }

  lemma NewestVersion(id: Uuid, read: set<RowKey>, newest: RowKey)
    requires NewestRead(id, read, newest)
    ensures newest.version in VersionsOf(read, id) && forall w <- VersionsOf(read, id) :: w.t <= newest.version.t
  {
  }

  function Filled(keys: set<RowKey>, id: Uuid, m: map<Timestamp, Json>): Table {
    map k | k in keys :: Row(id, if k.id == id && k.version in m then m[k.version] else Json.Null)
  }

  lemma FilledKeys(keys: set<RowKey>, id: Uuid, m: map<Timestamp, Json>)
    ensures Filled(keys, id, m).Keys == keys
  {
  }

  lemma FilledPayloads(keys: set<RowKey>, id: Uuid, m: map<Timestamp, Json>)
    requires m.Keys == VersionsOf(keys, id)
    ensures Payloads(Filled(keys, id, m), id) == m
  {
    var p := Payloads(Filled(keys, id, m), id);
    forall w ensures (w in p <==> w in m) && (w in p ==> p[w] == m[w]) {
      PayloadAt(Filled(keys, id, m), id, w);
      VersionAt(keys, id, w);
    }
    SameMap(p, m);
  }

  /** For given keys the object's document survives the shrinker, whatever the rows hold, exactly when no
      row of the object arrives below the version committed before the commit, nor after it unless a single
      row was read. */
  lemma ShrinkingSafeIff(id: Uuid, read: set<RowKey>, during: set<RowKey>, later: set<RowKey>, newest: RowKey)
    requires read !! during !! later && NewestRead(id, read, newest)
    ensures (forall t: Table | t.Keys == read + during + later :: DocumentSurvives(t, id, read, during, later)) <==>
            && (forall k <- during :: k.id == id ==> newest.version.t < k.version.t)
            && ((forall k <- read :: k.id == id ==> k == newest) ||
                forall k <- later :: k.id == id ==> newest.version.t < k.version.t)
  {
    KeysInTime(id, read, during, later, newest);
    if InTime(VersionsOf(read, id), VersionsOf(during, id), VersionsOf(later, id), newest.version) {
      forall t: Table | t.Keys == read + during + later ensures DocumentSurvives(t, id, read, during, later) {
        InTimeSurvives(t, id, read, during, later, newest);
      }
    } else {
      var t := LateWitness(id, read, during, later, newest);
    }
  }

  lemma InTimeSurvives(t: Table, id: Uuid, read: set<RowKey>, during: set<RowKey>, later: set<RowKey>, newest: RowKey)
    requires read !! during !! later && NewestRead(id, read, newest) && t.Keys == read + during + later
    requires InTime(VersionsOf(read, id), VersionsOf(during, id), VersionsOf(later, id), newest.version)
    ensures DocumentSurvives(t, id, read, during, later)
  {
    VersionsSplit(read, during, later, id);
    NewestVersion(id, read, newest);
    SurvivesIffPreserved(t, id, read, during, later, newest);
    InTimePreserves(Payloads(t, id), VersionsOf(read, id), VersionsOf(during, id), VersionsOf(later, id),
                    newest.version);
  }

  lemma KeysInTime(id: Uuid, read: set<RowKey>, during: set<RowKey>, later: set<RowKey>, newest: RowKey)
    requires NewestRead(id, read, newest)
    ensures InTime(VersionsOf(read, id), VersionsOf(during, id), VersionsOf(later, id), newest.version) <==>
            && (forall k <- during :: k.id == id ==> newest.version.t < k.version.t)
            && ((forall k <- read :: k.id == id ==> k == newest) ||
                forall k <- later :: k.id == id ==> newest.version.t < k.version.t)
  {
    var v := newest.version;
    forall k | k in read && k.id == id ensures k.version in VersionsOf(read, id) {}
    forall k | k in during && k.id == id ensures k.version in VersionsOf(during, id) {}
    forall k | k in later && k.id == id ensures k.version in VersionsOf(later, id) {}
    assert VersionsOf(read, id) == {v} <==> forall k <- read :: k.id == id ==> k == newest;
  }

  lemma SurvivesIffPreserved(t: Table, id: Uuid, read: set<RowKey>, during: set<RowKey>, later: set<RowKey>,
                             newest: RowKey)
    requires t.Keys == read + during + later && read !! during !! later
    requires NewestRead(id, read, newest)
    ensures Payloads(t, id).Keys == VersionsOf(read, id) + VersionsOf(during, id) + VersionsOf(later, id)
    ensures DocumentSurvives(t, id, read, during, later) <==>
            Preserved(Payloads(t, id), VersionsOf(read, id), VersionsOf(during, id), newest.version)
  {
    VersionsSplit(read, during, later, id);
    ReadVersions(t, id, t.Keys);
    assert Rows(t, t.Keys) == t;
    ReadVersions(t, id, read);
    var p := Payloads(Rows(t, read), id);
    assert newest.version in VersionsOf(read, id);
    forall w | w in p ensures w.t <= newest.version.t {
      assert RowKey(id, w) in read;
    }
    LatestUnique(p, newest.version);
    VersionAt(during, id, newest.version);
    var left := Payloads(AfterShrinking(t, id, read, during, later), id);
    var right := Left(Payloads(t, id), VersionsOf(read, id), VersionsOf(during, id), newest.version);
    forall w ensures (w in left <==> w in right) && (w in left ==> left[w] == right[w]) {
      SurvivorAt(t, id, read, during, later, newest.version, w);
    }
    SameMap(left, right);
  }
}
