/**
 The JSON values the platform stores and the in-place `merge` of the document shrinker.

 `merge` looks like a JSON merge patch, but a null in the update is stored and deletes
 nothing, so an absent key and a key holding null behave alike as merge targets.
 */
module Json {
  import opened Wrappers

  datatype Json =
    | Null
    | Bool(b: bool)
    | Number(n: int)
    | String(s: string)
    | Array(items: seq<Json>)
    | Object(fields: map<string, Json>)

  /** The value `entry(k).or_insert(Null)` leaves under a key. */
  function EntryOrNull(fields: map<string, Json>, k: string): Json {
    if k in fields then fields[k] else Null
  }

  /** What `merge(&mut a, b)` leaves in `a`. */
  function Merge(a: Json, b: Json): Json
    decreases b
  {
    if a.Object? && b.Object? then
      Object(map k | k in a.fields.Keys + b.fields.Keys ::
               if k in b.fields then Merge(EntryOrNull(a.fields, k), b.fields[k]) else a.fields[k])
    else
      b
  }

  /** The recursive in-place merge, key by key, in whatever order the update's map yields its keys. */
  method MergeInPlace(a: Json, b: Json) returns (r: Json)
    ensures r == Merge(a, b)
    decreases b
  {
    if a.Object? && b.Object? {
      var fields, todo := a.fields, b.fields.Keys;
      while todo != {}
        invariant todo <= b.fields.Keys
        invariant fields.Keys == a.fields.Keys + (b.fields.Keys - todo)
        invariant forall k <- fields ::
                    fields[k] == if k in b.fields && k !in todo
                                 then Merge(EntryOrNull(a.fields, k), b.fields[k])
                                 else a.fields[k]
      {
        var k :| k in todo;
        var merged := MergeInPlace(EntryOrNull(fields, k), b.fields[k]);
        fields, todo := fields[k := merged], todo - {k};
      }
      r := Object(fields);
      assert fields == Merge(a, b).fields;
    } else {
      r := b;
    }
  }

  lemma {:induction false} MergeSelf(b: Json)
    ensures Merge(b, b) == b
    decreases b
  {
    if b.Object? {
      forall k | k in b.fields
        ensures Merge(b.fields[k], b.fields[k]) == b.fields[k]
      {
        MergeSelf(b.fields[k]);
      }
      assert Merge(b, b).fields == b.fields;
    }
  }

  /** Applying the same update twice is applying it once. */
  lemma {:induction false} MergeIdempotent(a: Json, b: Json)
    ensures Merge(Merge(a, b), b) == Merge(a, b)
    decreases b
  {
    if a.Object? && b.Object? {
      var once := Merge(a, b);
      forall k | k in b.fields
        ensures Merge(once.fields[k], b.fields[k]) == once.fields[k]
      {
        MergeIdempotent(EntryOrNull(a.fields, k), b.fields[k]);
      }
      assert Merge(once, b).fields == once.fields;
    } else {
      MergeSelf(b);
    }
  }

  /** `b` has an object at every path where `c` has an object and `b` has a value. */
  predicate Compatible(b: Json, c: Json)
    decreases c
  {
    c.Object? ==>
      && b.Object?
      && forall k | k in b.fields && k in c.fields :: Compatible(b.fields[k], c.fields[k])
  }

  lemma {:induction false} MergeAssociative(a: Json, b: Json, c: Json)
    requires Compatible(b, c)
    ensures Merge(Merge(a, b), c) == Merge(a, Merge(b, c))
    decreases c
  {
    if a.Object? && c.Object? {
      var left, right := Merge(Merge(a, b), c), Merge(a, Merge(b, c));
      forall k | k in left.fields
        ensures left.fields[k] == right.fields[k]
      {
        if k in b.fields && k in c.fields {
          MergeAssociative(EntryOrNull(a.fields, k), b.fields[k], c.fields[k]);
        } else if k in c.fields {
          assert Merge(b, c).fields[k] == Merge(Json.Null, c.fields[k]) == c.fields[k];
        }
      }
      assert left.fields == right.fields;
    }
  }

  /** Some key outside any finite set: one longer than all of them. */
  lemma {:induction false} LongerKey(keys: set<string>) returns (longer: string)
    ensures forall k <- keys :: |k| < |longer|
  {
    if keys == {} {
      longer := "";
    } else {
      var k :| k in keys;
      var other := LongerKey(keys - {k});
      longer := (if |k| < |other| then other else k) + "+";
    }
  }

  /** Without compatibility some target document tells the two groupings apart. */
  lemma {:induction false} IncompatibleWitness(b: Json, c: Json) returns (a: Json)
    requires !Compatible(b, c)
    ensures Merge(Merge(a, b), c) != Merge(a, Merge(b, c))
    decreases c
  {
    if b.Object? {
      var k :| k in b.fields && k in c.fields && !Compatible(b.fields[k], c.fields[k]);
      var inner := IncompatibleWitness(b.fields[k], c.fields[k]);
      a := Object(map[k := inner]);
      assert Merge(Merge(a, b), c).fields[k] == Merge(Merge(inner, b.fields[k]), c.fields[k]);
      assert Merge(a, Merge(b, c)).fields[k] == Merge(inner, Merge(b.fields[k], c.fields[k]));
    } else {
      var longer := LongerKey(c.fields.Keys);
      a := Object(map[longer := Json.Null]);
      assert longer in Merge(a, c).fields;
    }
  }

  /** Merging groups freely for every target document exactly when the two updates are compatible. */
  lemma AssociativeIffCompatible(b: Json, c: Json)
    ensures (forall a :: Merge(Merge(a, b), c) == Merge(a, Merge(b, c))) <==> Compatible(b, c)
  {
    if Compatible(b, c) {
      forall a ensures Merge(Merge(a, b), c) == Merge(a, Merge(b, c)) {
        MergeAssociative(a, b, c);
      }
    } else {
      var a := IncompatibleWitness(b, c);
    }
  }

  /** An object, a null and another object: the two groupings of `merge` differ. */
  lemma NotAssociative()
    ensures var a, b, c := Object(map["x" := Number(1)]), Json.Null, Object(map["y" := Number(2)]);
            Merge(Merge(a, b), c) == c && "x" in Merge(a, Merge(b, c)).fields
  {
    var a, c := Object(map["x" := Number(1)]), Object(map["y" := Number(2)]);
    assert "x" in Merge(a, c).fields;
  }

  type Path = seq<string>

  /** The value at the end of a path of object keys, if the path exists. */
  function At(doc: Json, path: Path): Option<Json> {
    if path == [] then Some(doc)
    else if doc.Object? && path[0] in doc.fields then At(doc.fields[path[0]], path[1..])
    else None
  }

  /** `doc` has the path, or cuts it off with a non-object at a proper prefix. */
  ghost predicate Writes(doc: Json, path: Path) {
    || At(doc, path).Some?
    || exists i :: 0 <= i < |path| && At(doc, path[..i]).Some? && !At(doc, path[..i]).value.Object?
  }

  lemma {:induction false} WritesStep(doc: Json, path: Path)
    requires path != [] && doc.Object?
    ensures Writes(doc, path) <==>
            path[0] in doc.fields && Writes(doc.fields[path[0]], path[1..])
  {
    if path[0] in doc.fields {
      var sub := doc.fields[path[0]];
      forall i | 0 <= i < |path[1..]|
        ensures At(doc, path[..i + 1]) == At(sub, path[1..][..i])
      {
        assert path[..i + 1][1..] == path[1..][..i];
      }
      if j :| 0 <= j < |path| && At(doc, path[..j]).Some? && !At(doc, path[..j]).value.Object? {
        assert j > 0;
        assert At(doc, path[..(j - 1) + 1]) == At(sub, path[1..][..j - 1]);
      }
      if i :| 0 <= i < |path[1..]| && At(sub, path[1..][..i]).Some? && !At(sub, path[1..][..i]).value.Object? {
        assert At(doc, path[..i + 1]) == At(sub, path[1..][..i]);
      }
    } else {
      forall j | 0 <= j < |path|
        ensures At(doc, path[..j]).Some? ==> At(doc, path[..j]).value.Object?
      {
        if j > 0 { assert path[..j][0] == path[0]; }
      }
    }
  }

  /** A leaf of a merge comes from the update if the update writes its path, else from the target. */
  lemma {:induction false} MergeLeaf(a: Json, b: Json, path: Path, leaf: Json)
    requires !leaf.Object?
    ensures At(Merge(a, b), path) == Some(leaf) <==>
            (if Writes(b, path) then At(b, path) == Some(leaf) else At(a, path) == Some(leaf))
    decreases b
  {
    if path == [] {
    } else if !b.Object? {
      assert At(b, path[..0]) == Some(b);
    } else {
      WritesStep(b, path);
      var k, rest := path[0], path[1..];
      if k in b.fields {
        if a.Object? {
          MergeLeaf(EntryOrNull(a.fields, k), b.fields[k], rest, leaf);
          if k !in a.fields && !Writes(b.fields[k], rest) {
            assert rest != [];
          }
        } else {
          assert Merge(a, b) == b;
          MergeLeaf(Json.Null, b.fields[k], rest, leaf);
          assert Merge(Json.Null, b.fields[k]) == b.fields[k];
          if !Writes(b.fields[k], rest) {
            assert rest != [];
          }
        }
      }
    }
  }

  /** A path is in a merge if it is in the update, or in the target and not cut off by the update. */
  lemma {:induction false} MergePaths(a: Json, b: Json, path: Path)
    ensures At(Merge(a, b), path).Some? <==> At(b, path).Some? || (At(a, path).Some? && !Writes(b, path))
    decreases b
  {
    if path == [] {
    } else if !b.Object? {
      assert At(b, path[..0]) == Some(b);
    } else {
      WritesStep(b, path);
      var k, rest := path[0], path[1..];
      if a.Object? && k in b.fields {
        MergePaths(EntryOrNull(a.fields, k), b.fields[k], rest);
      }
    }
  }

  lemma KeyAt(doc: Json, k: string)
    requires doc.Object?
    ensures At(doc, [k]).Some? <==> k in doc.fields
  {
    assert [k][0] == k && [k][1..] == [];
  }

  /** Paths and what is not an object on them determine a document. */
  lemma {:induction false} SamePaths(a: Json, b: Json)
    requires forall path :: At(a, path).Some? <==> At(b, path).Some?
    requires forall path, leaf: Json :: !leaf.Object? ==> (At(a, path) == Some(leaf) <==> At(b, path) == Some(leaf))
    ensures a == b
    decreases a
  {
    assert At(a, []) == Some(a) && At(b, []) == Some(b);
    if a.Object? && b.Object? {
      forall k ensures k in a.fields <==> k in b.fields {
        KeyAt(a, k);
        KeyAt(b, k);
        assert At(a, [k]).Some? <==> At(b, [k]).Some?;
      }
      forall k | k in a.fields ensures a.fields[k] == b.fields[k] {
        forall path ensures At(a.fields[k], path) == At(a, [k] + path) && At(b.fields[k], path) == At(b, [k] + path) {
          assert ([k] + path)[1..] == path;
        }
        SamePaths(a.fields[k], b.fields[k]);
      }
      assert a.fields == b.fields;
    }
  }

  /** The left fold of `merge` over payloads in version order. */
  function Fold(docs: seq<Json>): Json
    requires docs != []
  {
    if |docs| == 1 then docs[0] else Merge(Fold(docs[..|docs| - 1]), docs[|docs| - 1])
  }

  /** `i` is the last document writing the path. */
  ghost predicate LastWriter(docs: seq<Json>, path: Path, i: nat) {
    && i < |docs|
    && Writes(docs[i], path)
    && forall j :: i < j < |docs| ==> !Writes(docs[j], path)
  }

  /** A non-object sits at a path of the fold exactly when the last writer of that path put it there. */
  lemma {:induction false} LastWriterPerPath(docs: seq<Json>, path: Path, leaf: Json)
    requires docs != [] && !leaf.Object?
    ensures At(Fold(docs), path) == Some(leaf) <==>
            exists i: nat :: LastWriter(docs, path, i) && At(docs[i], path) == Some(leaf)
    decreases |docs|
  {
    var n := |docs| - 1;
    if n == 0 {
      assert At(docs[0], path) == Some(leaf) ==> LastWriter(docs, path, 0);
    } else {
      var init := docs[..n];
      LastWriterPerPath(init, path, leaf);
      MergeLeaf(Fold(init), docs[n], path, leaf);
      if Writes(docs[n], path) {
        assert LastWriter(docs, path, n);
      } else {
        assert forall i: nat :: i < n ==> (LastWriter(docs, path, i) <==> LastWriter(init, path, i));
      }
    }
  }

  /** A prefix of the versions may be replaced by its own fold. */
  lemma {:induction false} FoldPrefix(docs: seq<Json>, n: nat)
    requires 0 < n <= |docs|
    ensures Fold([Fold(docs[..n])] + docs[n..]) == Fold(docs)
    decreases |docs|
  {
    if n == |docs| {
      assert docs[..n] == docs;
    } else {
      var m := |docs| - 1;
      FoldPrefix(docs[..m], n);
      assert docs[..m][..n] == docs[..n];
      var shrunk, rest := [Fold(docs[..n])] + docs[n..], docs[n..];
      assert rest[..m - n] == docs[..m][n..] && rest[m - n] == docs[m];
      assert shrunk[..|shrunk| - 1] == [Fold(docs[..n])] + rest[..m - n];
    }
  }
}
