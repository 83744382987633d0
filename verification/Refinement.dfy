/**
 The registry's operations as sequences of changes to a well-formed graph, each sequence doing to the
 graph what the operation does to the registry the graph stands for.
 */
module Refinement {
  import opened Wrappers
  import opened Json
  import opened Semver
  import opened RegistryTypes
  import opened PropertyGraph
  import R = Registry

  lemma IdsAreVertices(g: Graph)
    requires WellFormed(g)
    ensures R.Ids(Abs(g)) == g.vertices.Keys
    ensures forall id :: id in Abs(g).schemas <==> HasType(g, id, SchemaVertex)
    ensures forall id :: id in Abs(g).views <==> HasType(g, id, ViewVertex)
  {
  }

  /** No version of a schema ties with another one. */
  lemma VersionsNeverTie(g: Graph, id: Uuid)
    requires VersionsTellEdges(g)
    ensures R.NoTies(VersionsOf(g, id).Keys)
  {
    forall v, w | v in VersionsOf(g, id) && w in VersionsOf(g, id) && v != w
      ensures Before(v, w) || Before(w, v)
    {
      var k := EdgeAt(g, id, v);
      var l := EdgeAt(g, id, w);
      assert DefinesFor(g, k, id) && DefinesFor(g, l, id) && k != l;
      TotalOrder(v, w, v);
    }
  }

  lemma AbsConsistent(g: Graph)
    requires WellFormed(g)
    ensures R.Consistent(Abs(g))
  {
    forall id | id in Abs(g).schemas ensures R.NoTies(Abs(g).schemas[id].versions.Keys) {
      VersionsNeverTie(g, id);
    }
  }

  lemma EdgesFromSchemas(g: Graph, id: Uuid)
    requires WellFormed(g) && !HasType(g, id, SchemaVertex)
    ensures VersionsOf(g, id) == map[] && forall k :: !DefinesFor(g, k, id)
  {
    forall k ensures !DefinesFor(g, k, id) {
      assert k in g.edges ==> EdgeOk(g, k);
    }
  }

  /** A new definition vertex and its edge, for a version after all others of its schema. */
  function WithDefinition(g: Graph, id: Uuid, version: Version, d: Uuid, full: Json): Graph {
    PutEdge(PutVertex(g, d, StoredDefinition(full)), DefinitionEdge(id, d, version))
  }

  lemma WithDefinitionFits(g: Graph, id: Uuid, version: Version, d: Uuid, full: Json)
    requires WellFormed(g) && HasType(g, id, SchemaVertex) && d !in g.vertices
    requires forall v <- VersionsOf(g, id) :: !SamePrecedence(v, version)
    ensures var g1 := PutVertex(g, d, StoredDefinition(full));
            WellFormed(g1) && Fits(g1, DefinitionEdge(id, d, version)) && DefinitionOf(g1, d) == full
  {
    var v := StoredDefinition(full);
    PutVertexRefines(g, d, v);
    PutVertexEdges(g, d, v, id);
    EncodedContents(v);
    var k := KeyOf(DefinitionEdge(id, d, version));
    assert k in g.edges ==> EdgeOk(g, k);
  }

  lemma WithDefinitionRefines(g: Graph, id: Uuid, version: Version, d: Uuid, full: Json)
    requires WellFormed(g) && HasType(g, id, SchemaVertex) && d !in g.vertices
    requires forall v <- VersionsOf(g, id) :: !SamePrecedence(v, version)
    ensures WellFormed(WithDefinition(g, id, version, d, full))
    ensures id in Abs(g).schemas
    ensures var r := Abs(g);
            Abs(WithDefinition(g, id, version, d, full)) ==
            r.(schemas := r.schemas[id := r.schemas[id].(versions := r.schemas[id].versions[version := full])],
               definitions := r.definitions + {d})
  {
    WithDefinitionFits(g, id, version, d, full);
    PutVertexRefines(g, d, StoredDefinition(full));
    PutEdgeRefines(PutVertex(g, d, StoredDefinition(full)), DefinitionEdge(id, d, version));
  }

  /** A new schema vertex, a definition vertex and the edge between them. */
  function WithSchemaVertex(g: Graph, s: Schema, id: Uuid, d: Uuid, full: Json): Graph {
    WithDefinition(PutVertex(g, id, StoredSchema(s)), id, FirstVersion, d, full)
  }

  /** A schema without versions that is then given its first. */
  lemma FirstVersionGiven(r: R.Registry, id: Uuid, s: Schema, d: Uuid, full: Json)
    ensures var r1 := WithVertex(r, id, StoredSchema(s));
            var record := r1.schemas[id];
            r1.(schemas := r1.schemas[id := record.(versions := record.versions[FirstVersion := full])],
                definitions := r1.definitions + {d}) ==
            r.(schemas := r.schemas[id := R.Record(s, map[FirstVersion := full], {})],
               definitions := r.definitions + {d})
  {
    var r1 := WithVertex(r, id, StoredSchema(s));
    var record := r1.schemas[id];
    assert record.(versions := record.versions[FirstVersion := full]) == R.Record(s, map[FirstVersion := full], {});
  }

  lemma AddSchemaGraph(g: Graph, id: Uuid, s: Schema, d: Uuid, full: Json)
    requires WellFormed(g) && id !in g.vertices && d !in g.vertices && d != id
    ensures var g' := WithSchemaVertex(g, s, id, d, full);
            var r := Abs(g);
            && WellFormed(g')
            && Abs(g') == r.(schemas := r.schemas[id := R.Record(s, map[FirstVersion := full], {})],
                             definitions := r.definitions + {d})
  {
    PutVertexRefines(g, id, StoredSchema(s));
    PutVertexEdges(g, id, StoredSchema(s), id);
    WithDefinitionRefines(PutVertex(g, id, StoredSchema(s)), id, FirstVersion, d, full);
    FirstVersionGiven(Abs(g), id, s, d, full);
  }

  /** The schema vertex, the definition vertex and the edge between them make up a new schema. */
  lemma AddSchemaRefines(g: Graph, env: Env, s: NewSchema, id: Uuid, d: Uuid)
    requires WellFormed(g) && id !in g.vertices && d !in g.vertices && d != id
    requires R.BuildFullSchema(Abs(g), env, s.definition).Ok?
    ensures var full := R.BuildFullSchema(Abs(g), env, s.definition).value;
            var g' := WithSchemaVertex(g, s.schema, id, d, full);
            WellFormed(g') && R.AddSchema(Abs(g), env, s, id, d) == Ok(Abs(g'))
  {
    IdsAreVertices(g);
    AddSchemaGraph(g, id, s.schema, d, R.BuildFullSchema(Abs(g), env, s.definition).value);
  }

  /** A definition vertex and its edge make up a new version. */
  lemma AddVersionRefines(g: Graph, env: Env, id: Uuid, v: NewSchemaVersion, d: Uuid)
    requires WellFormed(g) && HasType(g, id, SchemaVertex) && d !in g.vertices
    requires R.AddVersion(Abs(g), env, id, v, d).Ok?
    ensures var full := R.BuildFullSchema(Abs(g), env, v.definition);
            && full.Ok?
            && WellFormed(WithDefinition(g, id, v.version, d, full.value))
            && R.AddVersion(Abs(g), env, id, v, d) == Ok(Abs(WithDefinition(g, id, v.version, d, full.value)))
  {
    IdsAreVertices(g);
    AbsConsistent(g);
    R.AddVersionExtends(Abs(g), env, id, v, d);
    forall w | w in VersionsOf(g, id) ensures !SamePrecedence(w, v.version) {
      TotalOrder(w, v.version, w);
    }
    WithDefinitionRefines(g, id, v.version, d, R.BuildFullSchema(Abs(g), env, v.definition).value);
  }

  /** A new view vertex and its edge. */
  function WithViewVertex(g: Graph, schemaId: Uuid, view: View, viewId: Uuid): Graph {
    PutEdge(PutVertex(g, viewId, StoredView(view)), ViewEdge(schemaId, viewId))
  }

  /** A view vertex and its edge make up a new view. */
  lemma AddViewRefines(g: Graph, env: Env, schemaId: Uuid, view: View, viewId: Uuid)
    requires WellFormed(g) && HasType(g, schemaId, SchemaVertex) && viewId !in g.vertices
    requires env.validView(view.jmespath)
    ensures var g' := WithViewVertex(g, schemaId, view, viewId);
            WellFormed(g') && R.AddView(Abs(g), env, schemaId, view, viewId) == Ok(Abs(g'))
  {
    IdsAreVertices(g);
    PutVertexRefines(g, viewId, StoredView(view));
    var k := KeyOf(ViewEdge(schemaId, viewId));
    assert k in g.edges ==> EdgeOk(g, k);
    PutEdgeRefines(PutVertex(g, viewId, StoredView(view)), ViewEdge(schemaId, viewId));
  }

  /** Up to two properties of the view vertex are written. */
  function WithView(g: Graph, id: Uuid, u: ViewUpdate): Graph {
    var g1 := if u.name.Some? then SetProperty(g, id, ViewName, Text(u.name.value)) else g;
    if u.jmespath.Some? then SetProperty(g1, id, ViewExpression, Text(u.jmespath.value)) else g1
  }

  lemma WithViewRefines(g: Graph, id: Uuid, u: ViewUpdate)
    requires WellFormed(g) && HasType(g, id, ViewVertex)
    ensures WellFormed(WithView(g, id, u)) && id in Abs(g).views
    ensures var r := Abs(g); Abs(WithView(g, id, u)) == r.(views := r.views[id := Viewed(r.views[id], u)])
  {
    var r := Abs(g);
    var g1 := if u.name.Some? then SetProperty(g, id, ViewName, Text(u.name.value)) else g;
    SetViewPropertyRefines(g, id, if u.name.Some? then u.name.value else "");
    var w1 := Viewed(r.views[id], u.(jmespath := None));
    assert r.views[id := r.views[id]] == r.views;
    assert WellFormed(g1) && Abs(g1) == r.(views := r.views[id := w1]);
    if u.jmespath.Some? {
      SetViewPropertyRefines(g1, id, u.jmespath.value);
    }
  }

  /** The properties of the view vertex are the view's name and expression. */
  lemma UpdateViewRefines(g: Graph, env: Env, id: Uuid, u: ViewUpdate)
    requires WellFormed(g) && HasType(g, id, ViewVertex)
    requires u.jmespath.Some? ==> env.validView(u.jmespath.value)
    ensures WellFormed(WithView(g, id, u)) && R.UpdateView(Abs(g), env, id, u) == Ok(Abs(WithView(g, id, u)))
  {
    WithViewRefines(g, id, u);
  }
}
