/**
 The registry's database calls: every mutation writes vertices, edges and loose properties one by one
 into the datastore, and does to the registry behind the graph what its operation says.
 */
module Database {
  import opened Wrappers
  import opened Json
  import opened Semver
  import opened RegistryTypes
  import opened PropertyGraph
  import opened PropertyLists
  import opened Refinement
  import opened Transfer
  import R = Registry

  /** The graph datastore, as far as the registry relies on it. */
  class Datastore {
    var vertices: map<Uuid, Vertex>
    var edges: map<EdgeKey, Props>

    function Contents(): Graph
      reads this
    {
      Graph(vertices, edges)
    }

    constructor ()
      ensures Contents() == EmptyGraph
    {
      vertices, edges := map[], map[];
    }

    /** Nothing is inserted over an existing vertex. */
    method CreateVertex(id: Uuid, t: VertexType) returns (inserted: bool)
      modifies this
      ensures inserted <==> id !in old(vertices)
      ensures vertices == if inserted then old(vertices)[id := Vertex(t, map[])] else old(vertices)
      ensures edges == old(edges)
    {
      inserted := id !in vertices;
      if inserted {
        vertices := vertices[id := Vertex(t, map[])];
      }
    }

    method SetVertexProperty(id: Uuid, p: Property, x: Value)
      modifies this
      ensures Contents() == SetProperty(old(Contents()), id, p, x)
    {
      if id in vertices {
        vertices := vertices[id := vertices[id].(props := vertices[id].props[p := x])];
      }
    }

    /** An edge needs both its endpoints; an existing edge keeps its properties. */
    method CreateEdge(k: EdgeKey) returns (created: bool)
      modifies this
      ensures created <==> Endpoints(old(Contents()), k)
      ensures vertices == old(vertices)
      ensures edges == if created && k !in old(edges) then old(edges)[k := map[]] else old(edges)
    {
      created := k.outbound in vertices && k.inbound in vertices;
      if created && k !in edges {
        edges := edges[k := map[]];
      }
    }

    /** The properties of a vertex, or of an edge, in whatever order the store has them. */
    method ListProperties(m: Props) returns (props: Named)
      ensures ListOf(props, m)
    {
      var todo := m.Keys;
      props := [];
      while todo != {}
        invariant todo <= m.Keys && ListOf(props, m - todo)
      {
        var n :| n in todo;
        ListedOneMore(props, m, todo, n);
        props, todo := props + [(n, m[n])], todo - {n};
      }
      assert m - {} == m;
    }

    method SetEdgeProperty(k: EdgeKey, p: Property, x: Value)
      modifies this
      ensures vertices == old(vertices)
      ensures edges == if k in old(edges) then old(edges)[k := old(edges)[k][p := x]] else old(edges)
    {
      if k in edges {
        edges := edges[k := edges[k][p := x]];
      }
    }
  }

  /** `filter` and then `max_by_key`, which keeps the last of several greatest. */
  method MaxByVersion(found: seq<(Version, Uuid)>, req: VersionReq) returns (best: Option<(Version, Uuid)>)
    ensures best.None? ==> forall p <- found :: !req(p.0)
    ensures best.Some? ==> best.value in found && req(best.value.0)
    ensures best.Some? ==> forall p <- found :: req(p.0) ==> !Before(best.value.0, p.0)
  {
    best := None;
    for i := 0 to |found|
      invariant best.None? ==> forall j :: 0 <= j < i ==> !req(found[j].0)
      invariant best.Some? ==> best.value in found && req(best.value.0)
      invariant best.Some? ==> forall j :: 0 <= j < i ==> NotBetter(found[j].0, req, best.value.0)
    {
      if req(found[i].0) && (best.None? || !Before(found[i].0, best.value.0)) {
        forall j | 0 <= j < i ensures NotBetter(found[j].0, req, found[i].0) {
          if best.Some? {
            StillNotBetter(found[j].0, req, best.value.0, found[i].0);
          }
        }
        best := Some(found[i]);
      }
      TotalOrder(found[i].0, found[i].0, found[i].0);
      if best.Some? {
        TotalOrder(found[i].0, best.value.0, found[i].0);
      }
    }
  }

  predicate NotBetter(v: Version, req: VersionReq, best: Version) {
    req(v) ==> !Before(best, v)
  }

  lemma StillNotBetter(v: Version, req: VersionReq, best: Version, better: Version)
    requires NotBetter(v, req, best) && !Before(better, best)
    ensures NotBetter(v, req, better)
  {
    TotalOrder(better, v, best);
    TotalOrder(best, better, v);
    TotalOrder(best, v, better);
  }

  class SchemaDb {
    const db: Datastore
    const env: Env

    constructor (db: Datastore, env: Env)
      ensures this.db == db && this.env == env
    {
      this.db, this.env := db, env;
    }

    // ----- Writing vertices and edges -----

    /** A requested id must be free; a generated one is. */
    method CreateVertexWithProperties(v: Stored, uuid: Option<Uuid>, generated: Uuid)
      returns (r: Result<Uuid, RegistryError>)
      requires uuid.None? ==> generated !in db.vertices
      modifies db
      ensures r.Err? <==> uuid.Some? && uuid.value in old(db.vertices)
      ensures r.Err? ==> r.error == DuplicatedUuid(uuid.value) && db.Contents() == old(db.Contents())
      ensures r.Ok? ==>
                && r.value == (if uuid.Some? then uuid.value else generated)
                && db.Contents() == PutVertex(old(db.Contents()), r.value, v)
    {
      var properties := IntoProperties(v);
      var id := if uuid.Some? then uuid.value else generated;
      var inserted := db.CreateVertex(id, DbType(v));
      if !inserted {
        return Err(DuplicatedUuid(id));
      }
      for i := 0 to |properties|
        invariant db.edges == old(db.edges)
        invariant db.vertices == old(db.vertices)[id := Vertex(DbType(v), Collected(properties[..i]))]
      {
        db.SetVertexProperty(id, properties[i].0, properties[i].1);
        assert properties[..i + 1][..i] == properties[..i];
      }
      assert properties[..|properties|] == properties;
      WrittenIsEncoded(v);
      r := Ok(id);
    }

    method SetEdgeProperties(e: StoredEdge)
      modifies db
      ensures db.Contents() == PutEdge(old(db.Contents()), e)
    {
      var k, properties := KeyOf(e), EdgeProperties(e);
      var _ := db.CreateEdge(k);
      if |properties| > 0 {
        db.SetEdgeProperty(k, properties[0].0, properties[0].1);
      }
      ghost var before := if k in old(db.edges) then old(db.edges)[k] else map[];
      assert before + EncodedEdge(e) ==
             if e.DefinitionEdge? then before[VersionProperty := VersionValue(e.version)] else before;
      assert db.edges == PutEdge(old(db.Contents()), e).edges;
    }

    // ----- Reading -----

    /** Only the vertex is looked for, not its type: on a well-formed graph this tells whether the registry has
        the schema exactly when the vertex is a schema's or there is none. */
    method EnsureSchemaExists(id: Uuid) returns (r: Result<(), RegistryError>)
      ensures r.Ok? <==> id in db.vertices
      ensures r.Err? ==> r.error == NoSchemaWithId(id)
      ensures WellFormed(db.Contents()) ==>
                ((r.Ok? <==> id in Abs(db.Contents()).schemas) <==> SchemaOrUnknown(db.Contents(), id))
    {
      r := if id in db.vertices then Ok(()) else Err(NoSchemaWithId(id));
    }

    /** The versions along a schema's edges with their vertices, in whatever order the edges come; edges
        without a version property are not returned, and one that does not decode makes the call fail. */
    method GetSchemaVersions(id: Uuid) returns (r: Result<seq<(Version, Uuid)>, RegistryError>)
      ensures r.Ok? <==> forall k :: Versioned(db.Contents(), k, id) ==> db.edges[k][VersionProperty].VersionValue?
      ensures r.Ok? ==> VersionsAlong(db.Contents(), id, r.value, VersionedEdges(db.Contents(), id))
      ensures r.Err? ==> r.error == MalformedError(id)
    {
      var g := db.Contents();
      var todo := VersionedEdges(g, id);
      ghost var all, done: set<EdgeKey> := todo, {};
      var found := [];
      while todo != {}
        invariant done <= all && todo == all - done
        invariant VersionsAlong(g, id, found, done)
        invariant forall k <- done :: g.edges[k][VersionProperty].VersionValue?
      {
        var k :| k in todo;
        if !g.edges[k][VersionProperty].VersionValue? {
          assert Versioned(g, k, id);
          return Err(MalformedError(id));
        }
        VersionsAlongOneMore(g, id, found, done, k);
        assert all - done - {k} == all - (done + {k});
        found, todo, done := found + [(VersionOf(g, k), k.inbound)], todo - {k}, done + {k};
      }
      assert done == all;
      r := Ok(found);
    }

    /** The greatest version that matches, whatever the order of the edges. */
    method GetLatestValidSchemaVersion(id: Uuid, req: VersionReq) returns (r: Result<(Version, Uuid), RegistryError>)
      requires WellFormed(db.Contents())
      ensures var latest := R.Latest(VersionsOf(db.Contents(), id).Keys, req);
              match r
              case Ok(p) => latest == Some(p.0) && Found(db.Contents(), id, p)
              case Err(e) => latest == None && e == NoVersionMatchesRequirement
    {
      var versions := GetSchemaVersions(id);
      AllVersioned(db.Contents(), id);
      assert versions.Ok?;
      var best := MaxByVersion(versions.value, req);
      LatestAmong(db.Contents(), id, req, versions.value, best);
      r := if best.Some? then Ok(best.value) else Err(NoVersionMatchesRequirement);
    }

    /** The definition of the latest version that matches. */
    method GetSchemaDefinition(id: Uuid, req: VersionReq) returns (r: Result<(Version, Json), RegistryError>)
      requires WellFormed(db.Contents())
      ensures var versions := VersionsOf(db.Contents(), id);
              var latest := R.Latest(versions.Keys, req);
              match r
              case Ok(p) => latest == Some(p.0) && p.1 == versions[p.0]
              case Err(e) => latest == None && e == NoVersionMatchesRequirement
    {
      var found := GetLatestValidSchemaVersion(id, req);
      if found.Err? {
        return Err(found.error);
      }
      ghost var k := EdgeKey(id, SchemaDefinitionEdge, found.value.1);
      assert Found(db.Contents(), id, found.value);
      VersionAt(db.Contents(), id, k);
      assert EdgeOk(db.Contents(), k);
      var vertex := db.vertices[found.value.1];
      assert VertexOk(vertex);
      r := Ok((found.value.0, vertex.props[DefinitionValue].json));
    }

    /** What a reference to schema `id` is replaced with. */
    method Retrieve(id: Uuid) returns (r: Result<Json, RegistryError>)
      requires WellFormed(db.Contents())
      ensures var resolved := R.Resolve(Abs(db.Contents()), id);
              r == if resolved.Some? then Ok(resolved.value) else Err(NoVersionMatchesRequirement)
    {
      var found := GetSchemaDefinition(id, AnyVersion);
      ResolveIs(db.Contents(), id);
      r := if found.Ok? then Ok(found.value.1) else Err(found.error);
    }

    /** The references are collected first and then replaced one by one. */
    method Inline(defs: map<string, Json>) returns (r: Result<map<string, Json>, RegistryError>)
      requires WellFormed(db.Contents())
      ensures var registry := Abs(db.Contents());
              r == if R.Resolvable(registry, env, defs) then Ok(R.ResolvedDefs(registry, env, defs))
                   else Err(NoVersionMatchesRequirement)
    {
      ghost var registry := Abs(db.Contents());
      var todo := References(env, defs);
      var full := defs;
      ghost var done := {};
      while todo != {}
        invariant done + todo == References(env, defs)
        invariant AllResolve(registry, env, defs, done) && full == PartlyResolved(registry, env, defs, done)
      {
        var k :| k in todo;
        var found := Retrieve(R.RefOf(env, defs[k]).value);
        if found.Err? {
          return Err(found.error);
        }
        ResolvedOneMore(registry, env, defs, done, k);
        full, todo, done := full[k := found.value], todo - {k}, done + {k};
      }
      ResolvedAll(registry, env, defs);
      r := Ok(full);
    }

    method BuildFullSchema(definition: Json) returns (r: Result<Json, RegistryError>)
      requires WellFormed(db.Contents())
      ensures r == R.BuildFullSchema(Abs(db.Contents()), env, definition)
      ensures r.Ok? <==> R.Builds(Abs(db.Contents()), env, definition)
      ensures r.Ok? ==> R.InlinedFrom(Abs(db.Contents()), env, definition, r.value) && env.compiles(r.value)
    {
      AbsConsistent(db.Contents());
      R.BuildsIff(Abs(db.Contents()), env, definition);
      var schema := definition;
      if R.DefsOf(definition).Some? {
        var full := Inline(R.DefsOf(definition).value);
        if full.Err? {
          return Err(full.error);
        }
        schema := R.Inlined(definition, full.value);
      }
      r := if env.compiles(schema) then Ok(schema) else Err(InvalidSchema);
    }

    /** The vertex's property list, drained by the extractors of its type. */
    method DecodeVertex(id: Uuid) returns (r: Option<Stored>)
      requires id in db.vertices
      ensures r == FromProperties(db.vertices[id])
    {
      var vertex := db.vertices[id];
      var props := db.ListProperties(vertex.props);
      var list := new PropertyList(props);
      DecodedIs(vertex.t, props, vertex.props);
      match vertex.t {
        case SchemaVertex => r := list.SchemaFromProperties();
        case DefinitionVertex => r := list.DefinitionFromProperties();
        case ViewVertex => r := list.ViewFromProperties();
      }
    }

    method DecodeEdge(k: EdgeKey) returns (r: Option<StoredEdge>)
      requires k in db.edges
      ensures r == EdgeFromProperties(k, db.edges[k])
    {
      if k.t.SchemaViewEdge? {
        return Some(ViewEdge(k.outbound, k.inbound));
      }
      var props := db.ListProperties(db.edges[k]);
      var list := new PropertyList(props);
      r := list.DefinitionEdgeFromProperties(k, db.edges[k]);
    }

    /** The view, if the vertex is one. */
    method GetView(id: Uuid) returns (r: Result<View, RegistryError>)
      requires WellFormed(db.Contents())
      ensures var views := Abs(db.Contents()).views;
              r == if id in views then Ok(views[id]) else Err(NoViewWithId(id))
    {
      if id !in db.vertices || !db.vertices[id].t.ViewVertex? {
        return Err(NoViewWithId(id));
      }
      assert VertexOk(db.vertices[id]);
      var stored := DecodeVertex(id);
      r := if stored.None? then Err(MalformedError(id)) else Ok(stored.value.view);
    }

    // ----- Mutating -----

    method AddSchema(schema: NewSchema, newId: Option<Uuid>, generated: Uuid, definitionId: Uuid)
      returns (r: Result<Uuid, RegistryError>)
      requires WellFormed(db.Contents())
      requires (newId.None? ==> generated !in db.vertices) && definitionId !in db.vertices
      requires definitionId != (if newId.Some? then newId.value else generated)
      modifies db
      ensures var id := if newId.Some? then newId.value else generated;
              && Refines(old(db.Contents()), db.Contents(),
                         R.AddSchema(Abs(old(db.Contents())), env, schema, id, definitionId), ErrorOf(r))
              && (r.Ok? ==> r.value == id)
      ensures var g, id := old(db.Contents()), if newId.Some? then newId.value else generated;
              var full := R.BuildFullSchema(Abs(g), env, schema.definition);
              && ErrorOf(r) == (if full.Err? then Some(full.error)
                                else if id in g.vertices then Some(DuplicatedUuid(id)) else None)
              && (r.Ok? ==> db.Contents() == WithSchemaVertex(g, schema.schema, id, definitionId, full.value))
    {
      ghost var g := db.Contents();
      IdsAreVertices(g);
      var full := BuildFullSchema(schema.definition);
      if full.Err? {
        return Err(full.error);
      }
      var id := CreateVertexWithProperties(StoredSchema(schema.schema), newId, generated);
      if id.Err? {
        return Err(id.error);
      }
      var d := CreateVertexWithProperties(StoredDefinition(full.value), None, definitionId);
      SetEdgeProperties(DefinitionEdge(id.value, d.value, FirstVersion));
      AddSchemaRefines(g, env, schema, id.value, definitionId);
      r := Ok(id.value);
    }

    /** `update_schema_name`, `_topic`, `_query_address` and `_type`. */
    method UpdateSchema(id: Uuid, f: FieldUpdate) returns (r: Result<(), RegistryError>)
      modifies db
      ensures r.Ok? <==> id in old(db.vertices)
      ensures r.Err? ==> r.error == NoSchemaWithId(id)
      ensures db.Contents() == SetField(old(db.Contents()), id, f)
      ensures var g := old(db.Contents());
              WellFormed(g) ==>
                && (SchemaOrUnknown(g, id) ==> Refines(g, db.Contents(), R.UpdateField(Abs(g), id, f), ErrorOf(r)))
                && (ErrorOf(R.UpdateField(Abs(g), id, f)) == ErrorOf(r) <==> SchemaOrUnknown(g, id))
    {
      ghost var g := db.Contents();
      var checked := EnsureSchemaExists(id);
      if checked.Err? {
        return checked;
      }
      if WellFormed(g) {
        IdsAreVertices(g);
        if HasType(g, id, SchemaVertex) {
          SetFieldRefines(g, id, f);
        }
      }
      db.SetVertexProperty(id, FieldProperty(f).0, FieldProperty(f).1);
      r := Ok(());
    }

    method AddNewVersionOfSchema(id: Uuid, v: NewSchemaVersion, definitionId: Uuid)
      returns (r: Result<(), RegistryError>)
      requires WellFormed(db.Contents()) && definitionId !in db.vertices
      modifies db
      ensures SchemaOrUnknown(old(db.Contents()), id) ==>
                Refines(old(db.Contents()), db.Contents(),
                        R.AddVersion(Abs(old(db.Contents())), env, id, v, definitionId), ErrorOf(r))
      ensures ErrorOf(R.AddVersion(Abs(old(db.Contents())), env, id, v, definitionId)) == ErrorOf(r) <==>
              SchemaOrUnknown(old(db.Contents()), id)
      ensures r.Err? ==> db.Contents() == old(db.Contents())
      ensures var g := old(db.Contents());
              var full := R.BuildFullSchema(Abs(g), env, v.definition);
              && (r.Ok? <==> id in g.vertices && Newest(VersionsOf(g, id).Keys, v.version) && full.Ok?)
              && (r.Ok? ==> db.Contents() == WithDefinition(g, id, v.version, definitionId, full.value))
    {
      ghost var g := db.Contents();
      ghost var versions := VersionsOf(g, id).Keys;
      IdsAreVertices(g);
      VersionsNeverTie(g, id);
      R.AfterLatestIff(versions, v.version);
      if !SchemaOrUnknown(g, id) {
        StrayVersionAnswer(g, env, id, v, definitionId);
      }
      var checked := EnsureSchemaExists(id);
      if checked.Err? {
        return checked;
      }
      var latest := GetLatestValidSchemaVersion(id, AnyVersion);
      if latest.Ok? && !Before(latest.value.0, v.version) {
        VersionsOnlyOfSchemas(g, id, latest.value.0);
        return Err(NewVersionMustBeGreatest(id, latest.value.0));
      }
      var full := BuildFullSchema(v.definition);
      if full.Err? {
        return Err(full.error);
      }
      var d := CreateVertexWithProperties(StoredDefinition(full.value), None, definitionId);
      SetEdgeProperties(DefinitionEdge(id, d.value, v.version));
      if HasType(g, id, SchemaVertex) {
        AddVersionRefines(g, env, id, v, definitionId);
      }
      r := Ok(());
    }

    method AddViewToSchema(schemaId: Uuid, view: View, viewId: Option<Uuid>, generated: Uuid)
      returns (r: Result<Uuid, RegistryError>)
      requires WellFormed(db.Contents()) && (viewId.None? ==> generated !in db.vertices)
      modifies db
      ensures var id := if viewId.Some? then viewId.value else generated;
              var g := old(db.Contents());
              && (SchemaOrUnknown(g, schemaId) ==>
                    Refines(g, db.Contents(), R.AddView(Abs(g), env, schemaId, view, id), ErrorOf(r)))
              && (ErrorOf(R.AddView(Abs(g), env, schemaId, view, id)) == ErrorOf(r) <==> SchemaOrUnknown(g, schemaId))
              && (r.Ok? <==> schemaId in g.vertices && env.validView(view.jmespath) && id !in g.vertices)
              && (r.Ok? ==> r.value == id && db.Contents() == WithViewVertex(g, schemaId, view, id))
      ensures r.Err? ==> db.Contents() == old(db.Contents())
    {
      ghost var g := db.Contents();
      IdsAreVertices(g);
      var checked := EnsureSchemaExists(schemaId);
      if checked.Err? {
        return Err(checked.error);
      }
      if !env.validView(view.jmespath) {
        return Err(InvalidView);
      }
      var id := CreateVertexWithProperties(StoredView(view), viewId, generated);
      if id.Err? {
        return Err(id.error);
      }
      SetEdgeProperties(ViewEdge(schemaId, id.value));
      if HasType(g, schemaId, SchemaVertex) {
        AddViewRefines(g, env, schemaId, view, id.value);
      }
      r := Ok(id.value);
    }

    /** The new expression is validated before anything is written; the old view is returned. */
    method UpdateView(id: Uuid, u: ViewUpdate) returns (r: Result<View, RegistryError>)
      requires WellFormed(db.Contents())
      modifies db
      ensures Refines(old(db.Contents()), db.Contents(), R.UpdateView(Abs(old(db.Contents())), env, id, u), ErrorOf(r))
      ensures var g := old(db.Contents());
              && ErrorOf(r) == (if !HasType(g, id, ViewVertex) then Some(NoViewWithId(id))
                                else if u.jmespath.Some? && !env.validView(u.jmespath.value) then Some(InvalidView)
                                else None)
              && (r.Ok? ==> db.Contents() == WithView(g, id, u))
      ensures r.Ok? ==> id in Abs(old(db.Contents())).views && r.value == Abs(old(db.Contents())).views[id]
    {
      ghost var g := db.Contents();
      IdsAreVertices(g);
      var oldView := GetView(id);
      if oldView.Err? {
        return oldView;
      }
      if u.jmespath.Some? && !env.validView(u.jmespath.value) {
        return Err(InvalidView);
      }
      if u.name.Some? {
        db.SetVertexProperty(id, ViewName, Text(u.name.value));
      }
      if u.jmespath.Some? {
        db.SetVertexProperty(id, ViewExpression, Text(u.jmespath.value));
      }
      UpdateViewRefines(g, env, id, u);
      r := oldView;
    }

    // ----- Import and export -----

    method ImportVertices(vs: map<Uuid, Stored>) returns (r: Result<(), RegistryError>)
      modifies db
      ensures r.Ok? <==> vs.Keys !! old(db.vertices).Keys
      ensures r.Ok? ==> db.Contents() == WithVertices(old(db.Contents()), vs)
    {
      var todo := vs.Keys;
      ghost var g, done := db.Contents(), {};
      assert WithVertices(g, Taken(vs, done)) == g;
      while todo != {}
        invariant done + todo == vs.Keys && done !! todo && done !! g.vertices.Keys
        invariant db.Contents() == WithVertices(g, Taken(vs, done))
      {
        var id :| id in todo;
        WithVerticesKeys(g, Taken(vs, done));
        assert Taken(vs, done).Keys == done;
        var created := CreateVertexWithProperties(vs[id], Some(id), id);
        if created.Err? {
          return Err(created.error);
        }
        TakeOneMore(g, vs, done, id);
        todo, done := todo - {id}, done + {id};
      }
      assert Taken(vs, done) == vs;
      r := Ok(());
    }

    method ImportEdges(es: seq<StoredEdge>)
      modifies db
      ensures db.Contents() == WithEdges(old(db.Contents()), es)
    {
      for i := 0 to |es|
        invariant db.Contents() == WithEdges(old(db.Contents()), es[..i])
      {
        assert es[..i + 1][..i] == es[..i];
        SetEdgeProperties(es[i]);
      }
      assert es[..|es|] == es;
    }

    method ImportInto(x: DbExport) returns (r: Result<(), RegistryError>)
      modifies db
      ensures r.Ok? <==> IdsDistinct(old(db.Contents()), x)
      ensures r.Ok? ==> db.Contents() == Imported(old(db.Contents()), x)
    {
      IdsDistinctIff(db.Contents(), x);
      r := ImportVertices(StoredSchemas(x));
      if r.Err? {
        return;
      }
      r := ImportVertices(StoredDefinitions(x));
      if r.Err? {
        return;
      }
      r := ImportVertices(StoredViews(x));
      if r.Err? {
        return;
      }
      ImportEdges(x.schemaDefinitions);
      ImportEdges(x.schemaViews);
    }

    /** A database that has schemas is left alone. */
    method ImportAll(x: DbExport) returns (r: Result<(), RegistryError>)
      requires WellFormed(db.Contents())
      modifies db
      ensures Abs(old(db.Contents())).schemas != map[] ==> r == Ok(()) && db.Contents() == old(db.Contents())
      ensures Abs(old(db.Contents())).schemas == map[] ==>
                && (r.Ok? <==> IdsDistinct(old(db.Contents()), x))
                && (r.Ok? ==> db.Contents() == Imported(old(db.Contents()), x))
    {
      var schemas := set id | id in db.vertices && db.vertices[id].t.SchemaVertex?;
      assert schemas == Abs(db.Contents()).schemas.Keys;
      if schemas != {} {
        return Ok(());
      }
      r := ImportInto(x);
    }

    /** All vertices of a type by id, decoded one by one; the first that does not decode makes the call fail. */
    method DecodeVertices(t: VertexType) returns (r: Result<map<Uuid, Stored>, RegistryError>)
      ensures r.Ok? <==> forall id <- db.vertices :: db.vertices[id].t == t ==> FromProperties(db.vertices[id]).Some?
      ensures r.Ok? ==> DecodedAll(db.Contents(), t, r.value)
    {
      var todo := set id | id in db.vertices && db.vertices[id].t == t;
      ghost var all := todo;
      var decoded: map<Uuid, Stored> := map[];
      while todo != {}
        invariant todo <= all && decoded.Keys == all - todo
        invariant forall id <- decoded :: FromProperties(db.vertices[id]) == Some(decoded[id])
      {
        var id :| id in todo;
        var stored := DecodeVertex(id);
        if stored.None? {
          return Err(MalformedError(id));
        }
        decoded, todo := decoded[id := stored.value], todo - {id};
      }
      r := Ok(decoded);
    }

    /** All edges of a kind, once each, in whatever order they come. */
    method ListEdges(t: EdgeType) returns (r: Result<seq<StoredEdge>, RegistryError>)
      ensures r.Ok? <==> forall k <- db.edges :: k.t == t ==> EdgeFromProperties(k, db.edges[k]).Some?
      ensures r.Ok? ==> Lists(db.Contents(), r.value, t)
    {
      var todo := set k | k in db.edges && k.t == t;
      ghost var all := todo;
      var es: seq<StoredEdge> := [];
      while todo != {}
        invariant todo <= all
        invariant forall k <- all - todo :: EdgeFromProperties(k, db.edges[k]).Some?
        invariant forall e :: e in es <==> HasEdge(db.Contents(), e) && KeyOf(e) in all - todo
        invariant forall i, j :: 0 <= i < j < |es| ==> es[i] != es[j]
      {
        var k :| k in todo;
        var e := DecodeEdge(k);
        if e.None? {
          return Err(MalformedError(k.outbound));
        }
        assert e.value !in es;
        es, todo := es + [e.value], todo - {k};
      }
      r := Ok(es);
    }

    /** A vertex or an edge that does not decode makes the export fail; a well-formed graph has none. */
    method ExportAll() returns (r: Result<DbExport, RegistryError>)
      ensures r.Ok? <==> Decodes(db.Contents())
      ensures r.Ok? ==> Exports(db.Contents(), r.value)
      ensures WellFormed(db.Contents()) ==> r.Ok?
    {
      WellFormedDecodes(db.Contents());
      var definitions := DecodeVertices(DefinitionVertex);
      if definitions.Err? {
        return Err(definitions.error);
      }
      var schemas := DecodeVertices(SchemaVertex);
      if schemas.Err? {
        return Err(schemas.error);
      }
      var views := DecodeVertices(ViewVertex);
      if views.Err? {
        return Err(views.error);
      }
      var schemaDefinitions := ListEdges(SchemaDefinitionEdge);
      if schemaDefinitions.Err? {
        return Err(schemaDefinitions.error);
      }
      var schemaViews := ListEdges(SchemaViewEdge);
      assert schemaViews.Ok?;  // these edges hold nothing that could fail to decode
      ExportedAre(db.Contents(), schemas.value, definitions.value, views.value);
      r := Ok(DbExport(SchemasOf(schemas.value), DefinitionsOf(definitions.value), ViewsIn(views.value),
                       schemaDefinitions.value, schemaViews.value));
    }
  }

  lemma ListedOneMore(props: Named, m: Props, todo: set<Property>, n: Property)
    requires todo <= m.Keys && n in todo && ListOf(props, m - todo)
    ensures ListOf(props + [(n, m[n])], m - (todo - {n}))
  {
    var more, rest := props + [(n, m[n])], m - (todo - {n});
    forall i | 0 <= i < |props| ensures props[i].0 != n {
      assert props[i] in props;
    }
    forall x | x in rest ensures (x, rest[x]) in more {
      if x == n {
        assert more[|props|] == (x, rest[x]);
      } else {
        assert (x, (m - todo)[x]) in props;
      }
    }
  }

  ghost predicate DecodedAll(g: Graph, t: VertexType, decoded: map<Uuid, Stored>) {
    && (forall id :: id in decoded <==> HasType(g, id, t))
    && (forall id <- decoded :: FromProperties(g.vertices[id]) == Some(decoded[id]))
  }

  function SchemasOf(m: map<Uuid, Stored>): map<Uuid, Schema> {
    map id | id in m && m[id].StoredSchema? :: m[id].schema
  }

  function DefinitionsOf(m: map<Uuid, Stored>): map<Uuid, Json> {
    map id | id in m && m[id].StoredDefinition? :: m[id].definition
  }

  function ViewsIn(m: map<Uuid, Stored>): map<Uuid, View> {
    map id | id in m && m[id].StoredView? :: m[id].view
  }

  /** What decodes from a vertex is a value of the vertex's type. */
  lemma DecodedType(v: Vertex)
    ensures FromProperties(v).Some? ==> DbType(FromProperties(v).value) == v.t
  {
  }

  lemma ExportedSchemas(g: Graph, m: map<Uuid, Stored>)
    requires DecodedAll(g, SchemaVertex, m)
    ensures SchemasOf(m) == SchemasIn(g)
  {
    forall id | id in m ensures m[id].StoredSchema? {
      DecodedType(g.vertices[id]);
    }
    assert forall id :: id in m <==> HasType(g, id, SchemaVertex);
  }

  lemma ExportedDefinitions(g: Graph, m: map<Uuid, Stored>)
    requires DecodedAll(g, DefinitionVertex, m)
    ensures DefinitionsOf(m) == DefinitionsIn(g)
  {
    forall id | id in m ensures m[id].StoredDefinition? {
      DecodedType(g.vertices[id]);
    }
    assert forall id :: id in m <==> HasType(g, id, DefinitionVertex);
  }

  lemma ExportedViews(g: Graph, m: map<Uuid, Stored>)
    requires DecodedAll(g, ViewVertex, m)
    ensures ViewsIn(m) == Views(g)
  {
    forall id | id in m ensures m[id].StoredView? {
      DecodedType(g.vertices[id]);
    }
    assert forall id :: id in m <==> HasType(g, id, ViewVertex);
  }

  lemma ExportedAre(g: Graph, schemas: map<Uuid, Stored>, definitions: map<Uuid, Stored>, views: map<Uuid, Stored>)
    requires DecodedAll(g, SchemaVertex, schemas) && DecodedAll(g, DefinitionVertex, definitions)
    requires DecodedAll(g, ViewVertex, views)
    ensures forall es, vs | Lists(g, es, SchemaDefinitionEdge) && Lists(g, vs, SchemaViewEdge) ::
              Exports(g, DbExport(SchemasOf(schemas), DefinitionsOf(definitions), ViewsIn(views), es, vs))
  {
    ExportedSchemas(g, schemas);
    ExportedDefinitions(g, definitions);
    ExportedViews(g, views);
  }

  /** The version comes after all others. */
  ghost predicate Newest(versions: set<Version>, v: Version) {
    forall w <- versions :: Before(w, v)
  }

  /** Adding a version to a vertex that is no schema never answers that there is no such schema. */
  lemma StrayVersionAnswer(g: Graph, env: Env, id: Uuid, v: NewSchemaVersion, d: Uuid)
    requires WellFormed(g) && !SchemaOrUnknown(g, id)
    ensures R.AddVersion(Abs(g), env, id, v, d) == Err(NoSchemaWithId(id))
    ensures var full := R.BuildFullSchema(Abs(g), env, v.definition); full.Err? ==> full.error != NoSchemaWithId(id)
    ensures VersionsOf(g, id) == map[]
  {
    IdsAreVertices(g);
    EdgesFromSchemas(g, id);
  }

  function ErrorOf<T>(r: Result<T, RegistryError>): Option<RegistryError> {
    if r.Err? then Some(r.error) else None
  }

  /** The call did to the registry behind the graph what the operation does; a rejected call did nothing. */
  ghost predicate Refines(before: Graph, after: Graph, op: Result<R.Registry, RegistryError>,
                          error: Option<RegistryError>)
  {
    match op
    case Ok(r) => error == None && WellFormed(after) && Abs(after) == r
    case Err(e) => error == Some(e) && after == before
  }

  predicate SchemaOrUnknown(g: Graph, id: Uuid) {
    id in g.vertices ==> g.vertices[id].t.SchemaVertex?
  }

  lemma VersionsOnlyOfSchemas(g: Graph, id: Uuid, v: Version)
    requires WellFormed(g) && v in VersionsOf(g, id)
    ensures HasType(g, id, SchemaVertex)
  {
    if !HasType(g, id, SchemaVertex) {
      EdgesFromSchemas(g, id);
    }
  }

  /** A reference resolves to the definition of the latest version. */
  lemma ResolveIs(g: Graph, id: Uuid)
    requires WellFormed(g)
    ensures var versions := VersionsOf(g, id);
            var latest := R.Latest(versions.Keys, AnyVersion);
            R.Resolve(Abs(g), id) == if latest.None? then None else Some(versions[latest.value])
  {
    IdsAreVertices(g);
    if !HasType(g, id, SchemaVertex) {
      EdgesFromSchemas(g, id);
    }
  }

  function References(env: Env, defs: map<string, Json>): set<string> {
    set k | k in defs && R.RefOf(env, defs[k]).Some?
  }

  ghost predicate AllResolve(r: R.Registry, env: Env, defs: map<string, Json>, done: set<string>) {
    forall k <- done :: k in References(env, defs) && R.Resolve(r, R.RefOf(env, defs[k]).value).Some?
  }

  /** The definitions when the references in `done` have been replaced. */
  ghost function PartlyResolved(r: R.Registry, env: Env, defs: map<string, Json>, done: set<string>): map<string, Json>
    requires AllResolve(r, env, defs, done)
  {
    map k | k in defs :: if k in done then R.Resolve(r, R.RefOf(env, defs[k]).value).value else defs[k]
  }

  lemma ResolvedOneMore(r: R.Registry, env: Env, defs: map<string, Json>, done: set<string>, k: string)
    requires AllResolve(r, env, defs, done) && k in References(env, defs)
    requires R.Resolve(r, R.RefOf(env, defs[k]).value).Some?
    ensures AllResolve(r, env, defs, done + {k})
    ensures PartlyResolved(r, env, defs, done + {k}) ==
            PartlyResolved(r, env, defs, done)[k := R.Resolve(r, R.RefOf(env, defs[k]).value).value]
  {
  }

  lemma ResolvedAll(r: R.Registry, env: Env, defs: map<string, Json>)
    requires AllResolve(r, env, defs, References(env, defs))
    ensures R.Resolvable(r, env, defs)
    ensures PartlyResolved(r, env, defs, References(env, defs)) == R.ResolvedDefs(r, env, defs)
  {
  }

  /** A version and definition vertex found along one of the schema's edges. */
  ghost predicate Found(g: Graph, id: Uuid, p: (Version, Uuid)) {
    var k := EdgeKey(id, SchemaDefinitionEdge, p.1);
    DefinesFor(g, k, id) && VersionOf(g, k) == p.0
  }

  predicate Versioned(g: Graph, k: EdgeKey, id: Uuid) {
    DefinesFor(g, k, id) && VersionProperty in g.edges[k]
  }

  function VersionedEdges(g: Graph, id: Uuid): set<EdgeKey> {
    set k | k in g.edges && Versioned(g, k, id)
  }

  lemma AllVersioned(g: Graph, id: Uuid)
    requires WellFormed(g)
    ensures forall k :: DefinesFor(g, k, id) ==>
              k in VersionedEdges(g, id) && g.edges[k][VersionProperty].VersionValue?
  {
    forall k | DefinesFor(g, k, id) ensures k in VersionedEdges(g, id) && g.edges[k][VersionProperty].VersionValue? {
      assert EdgeOk(g, k);
    }
  }

  /** The versions found are those along the edges `done`, all of the schema. */
  ghost predicate VersionsAlong(g: Graph, id: Uuid, found: seq<(Version, Uuid)>, done: set<EdgeKey>) {
    && (forall p <- found :: Found(g, id, p))
    && (forall k <- done :: (VersionOf(g, k), k.inbound) in found)
  }

  lemma VersionsAlongOneMore(g: Graph, id: Uuid, found: seq<(Version, Uuid)>, done: set<EdgeKey>, k: EdgeKey)
    requires VersionsAlong(g, id, found, done) && DefinesFor(g, k, id)
    ensures VersionsAlong(g, id, found + [(VersionOf(g, k), k.inbound)], done + {k})
  {
    var more := found + [(VersionOf(g, k), k.inbound)];
    assert more[|found|] == (VersionOf(g, k), k.inbound);
    assert Found(g, id, more[|found|]);
    forall p | p in more ensures Found(g, id, p) {
      assert p in found || p == more[|found|];
    }
    forall l | l in done + {k} ensures (VersionOf(g, l), l.inbound) in more {
      assert l == k || (VersionOf(g, l), l.inbound) in found;
    }
  }

  lemma LatestAmong(g: Graph, id: Uuid, req: VersionReq, found: seq<(Version, Uuid)>, best: Option<(Version, Uuid)>)
    requires WellFormed(g)
    requires VersionsAlong(g, id, found, VersionedEdges(g, id))
    requires best.None? ==> forall p <- found :: !req(p.0)
    requires best.Some? ==> best.value in found && req(best.value.0)
    requires best.Some? ==> forall p <- found :: req(p.0) ==> !Before(best.value.0, p.0)
    ensures R.Latest(VersionsOf(g, id).Keys, req) == if best.Some? then Some(best.value.0) else None
  {
    var vs := VersionsOf(g, id).Keys;
    VersionsNeverTie(g, id);
    R.LatestFound(vs, req);
    forall v | v in vs ensures exists p :: p in found && p.0 == v {
      var k := EdgeAt(g, id, v);
      AllVersioned(g, id);
      assert (VersionOf(g, k), k.inbound) in found;
    }
    if best.Some? {
      VersionAt(g, id, EdgeKey(id, SchemaDefinitionEdge, best.value.1));
      assert R.IsLatest(vs, req, best.value.0);
      R.LatestUnique(vs, req, best.value.0, R.Latest(vs, req).value);
    }
  }
}
