/**
 Calls that name a definition's or a view's id where a schema's is meant. The check for the schema only
 looks for a vertex, so they are accepted; this is what each of them costs.
 */
module Strays {
  import opened Wrappers
  import opened Json
  import opened Semver
  import opened RegistryTypes
  import opened PropertyGraph
  import opened Refinement
  import opened Transfer
  import R = Registry

  /** A definition's or a view's vertex. */
  predicate NoSchema(g: Graph, id: Uuid) {
    id in g.vertices && !g.vertices[id].t.SchemaVertex?
  }

  // ----- A metadata field -----

  /** The decoder of another type does not look at the properties of schemas. */
  lemma FieldUnread(v: Vertex, f: FieldUpdate)
    requires !v.t.SchemaVertex?
    ensures FromProperties(v.(props := v.props[FieldProperty(f).0 := FieldProperty(f).1])) == FromProperties(v)
  {
  }

  lemma FieldReads(g: Graph, id: Uuid, f: FieldUpdate, x: Uuid)
    requires NoSchema(g, id)
    ensures var g' := SetField(g, id, f);
            && g'.edges == g.edges && (x in g'.vertices <==> x in g.vertices)
            && (x in g.vertices ==>
                  && g'.vertices[x].t == g.vertices[x].t
                  && FromProperties(g'.vertices[x]) == FromProperties(g.vertices[x]))
  {
    FieldUnread(g.vertices[id], f);
  }

  lemma FieldKeepsVersions(g: Graph, id: Uuid, f: FieldUpdate, x: Uuid)
    requires VersionsTellEdges(g) && VersionsTellEdges(SetField(g, id, f)) && NoSchema(g, id)
    ensures VersionsOf(SetField(g, id, f), x) == VersionsOf(g, x)
    ensures ViewsOf(SetField(g, id, f), x) == ViewsOf(g, x)
  {
    var g' := SetField(g, id, f);
    forall k ensures DefinesFor(g', k, x) <==> DefinesFor(g, k, x) {
      FieldReads(g, id, f, x);
    }
    forall k: EdgeKey ensures DefinitionOf(g', k.inbound) == DefinitionOf(g, k.inbound) {
      FieldReads(g, id, f, k.inbound);
    }
    SameVersions(g, g', x);
  }

  lemma FieldKeepsSchemas(g: Graph, id: Uuid, f: FieldUpdate)
    requires VersionsTellEdges(g) && NoSchema(g, id)
    ensures VersionsTellEdges(SetField(g, id, f)) && Schemas(SetField(g, id, f)) == Schemas(g)
  {
    var g' := SetField(g, id, f);
    SameEdgesTell(g, g');
    forall x ensures (x in Schemas(g') <==> x in Schemas(g)) && (x in Schemas(g') ==> Schemas(g')[x] == Schemas(g)[x]) {
      FieldReads(g, id, f, x);
      FieldKeepsVersions(g, id, f, x);
    }
    SameMap(Schemas(g'), Schemas(g));
  }

  lemma FieldKeepsOthers(g: Graph, id: Uuid, f: FieldUpdate)
    requires NoSchema(g, id)
    ensures Views(SetField(g, id, f)) == Views(g) && Definitions(SetField(g, id, f)) == Definitions(g)
  {
    var g' := SetField(g, id, f);
    forall x ensures (x in Views(g') <==> x in Views(g)) && (x in Views(g') ==> Views(g')[x] == Views(g)[x]) {
      FieldReads(g, id, f, x);
    }
    SameMap(Views(g'), Views(g));
    forall x ensures x in Definitions(g') <==> x in Definitions(g) {
      FieldReads(g, id, f, x);
    }
  }

  lemma FieldKeepsLists(g: Graph, id: Uuid, f: FieldUpdate)
    requires NoSchema(g, id)
    ensures SchemasIn(SetField(g, id, f)) == SchemasIn(g) && DefinitionsIn(SetField(g, id, f)) == DefinitionsIn(g)
  {
    var g' := SetField(g, id, f);
    forall x
      ensures (x in SchemasIn(g') <==> x in SchemasIn(g)) && (x in SchemasIn(g) ==> SchemasIn(g')[x] == SchemasIn(g)[x])
      ensures x in DefinitionsIn(g') <==> x in DefinitionsIn(g)
      ensures x in DefinitionsIn(g) ==> DefinitionsIn(g')[x] == DefinitionsIn(g)[x]
    {
      FieldReads(g, id, f, x);
    }
    SameMap(SchemasIn(g'), SchemasIn(g));
    SameMap(DefinitionsIn(g'), DefinitionsIn(g));
  }

  lemma FieldKeepsExports(g: Graph, id: Uuid, f: FieldUpdate, x: DbExport)
    requires NoSchema(g, id)
    ensures Exports(SetField(g, id, f), x) <==> Exports(g, x)
  {
    FieldKeepsLists(g, id, f);
    FieldKeepsOthers(g, id, f);
    FieldReads(g, id, f, id);
    assert forall e :: HasEdge(SetField(g, id, f), e) <==> HasEdge(g, e);
  }

  lemma StrayFieldAt(g: Graph, id: Uuid, f: FieldUpdate)
    requires WellFormed(g) && NoSchema(g, id)
    ensures Lookup(g.vertices[id].props, FieldProperty(f).0) == None
    ensures Lookup(SetField(g, id, f).vertices[id].props, FieldProperty(f).0) == Some(FieldProperty(f).1)
    ensures Decodes(SetField(g, id, f)) && g != SetField(g, id, f)
  {
    WellFormedDecodes(g);
    forall y | y in SetField(g, id, f).vertices ensures FromProperties(SetField(g, id, f).vertices[y]).Some? {
      FieldReads(g, id, f, y);
    }
    assert VertexOk(g.vertices[id]);
  }

  /** A stray metadata field is in nobody's way: everything decodes, the registry is the same, exports are
      the same. Only whoever asks for that one property of the vertex is told it, and an import of the
      export forgets it. */
  lemma StrayField(g: Graph, id: Uuid, f: FieldUpdate, x: DbExport)
    requires WellFormed(g) && NoSchema(g, id)
    ensures var g' := SetField(g, id, f);
            && Decodes(g') && VersionsTellEdges(g') && Abs(g') == Abs(g)
            && Lookup(g.vertices[id].props, FieldProperty(f).0) == None
            && Lookup(g'.vertices[id].props, FieldProperty(f).0) == Some(FieldProperty(f).1)
            && (Exports(g', x) <==> Exports(g, x))
            && (Exports(g', x) ==> Imported(EmptyGraph, x) == g != g')
  {
    var g' := SetField(g, id, f);
    FieldKeepsSchemas(g, id, f);
    FieldKeepsOthers(g, id, f);
    FieldKeepsExports(g, id, f, x);
    StrayFieldAt(g, id, f);
    WellFormedExact(g);
    if Exports(g', x) {
      ImportOfExport(g, x);
    }
  }

  // ----- A version or a view -----

  lemma StrayEdgeExact(g: Graph, w: Uuid, v: Stored, e: StoredEdge)
    requires WellFormed(g) && w !in g.vertices && e.schemaId in g.vertices && KeyOf(e).inbound == w
    ensures var g' := PutEdge(PutVertex(g, w, v), e); Exact(g') && Decodes(g')
  {
    PutVertexWellFormed(g, w, v);
    var g1 := PutVertex(g, w, v);
    WellFormedExact(g1);
    PutEdgeExact(g1, e);
    var g' := PutEdge(g1, e);
    forall x | x in g'.vertices ensures FromProperties(g'.vertices[x]).Some? {
      assert VertexOk(g1.vertices[x]);
    }
    forall k | k in g'.edges ensures EdgeFromProperties(k, g'.edges[k]).Some? {
      assert EdgeExact(g', k);
    }
  }

  /** The edge of a vertex that is no schema belongs to no record. */
  lemma StrayEdgeSchemas(g: Graph, e: StoredEdge)
    requires VersionsTellEdges(g) && VersionsTellEdges(PutEdge(g, e)) && KeyOf(e) !in g.edges
    requires NoSchema(g, e.schemaId) && Endpoints(g, KeyOf(e))
    ensures Schemas(PutEdge(g, e)) == Schemas(g)
  {
    var left, right := Schemas(PutEdge(g, e)), Schemas(g);
    assert PutEdge(g, e).vertices == g.vertices;
    forall x ensures (x in left <==> x in right) && (x in left ==> left[x] == right[x]) {
      if x in right {
        PutEdgeRecord(g, e, x);
      }
    }
    SameMap(left, right);
  }

  lemma StrayVersionTells(g: Graph, id: Uuid, version: Version, d: Uuid, full: Json)
    requires WellFormed(g) && NoSchema(g, id) && d !in g.vertices
    ensures var g1, e := PutVertex(g, d, StoredDefinition(full)), DefinitionEdge(id, d, version);
            && WellFormed(g1) && NoSchema(g1, id) && Endpoints(g1, KeyOf(e)) && KeyOf(e) !in g1.edges
            && VersionsOf(g1, id) == map[] && VersionsTellEdges(PutEdge(g1, e)) && DefinitionOf(g1, d) == full
  {
    var g1, e := PutVertex(g, d, StoredDefinition(full)), DefinitionEdge(id, d, version);
    PutVertexWellFormed(g, d, StoredDefinition(full));
    EncodedContents(StoredDefinition(full));
    EdgesFromSchemas(g1, id);
    forall k | k in g.edges ensures k.inbound != d {
      assert EdgeOk(g, k);
    }
    var g' := PutEdge(g1, e);
    forall x, k, l | DefinesFor(g', k, x) && DefinesFor(g', l, x) && k != l
      ensures !SamePrecedence(VersionOf(g', k), VersionOf(g', l))
    {
      PutEdgeKeys(g1, e, k, x);
      PutEdgeKeys(g1, e, l, x);
      assert DefinesFor(g1, k, x) && DefinesFor(g1, l, x);
    }
  }

  /** A stray version: no record of the registry has it, but whoever asks for the versions of the vertex is
      told it, so references to the vertex resolve. Exports carry it and imports rebuild it. */
  lemma StrayVersion(g: Graph, id: Uuid, version: Version, d: Uuid, full: Json, x: DbExport)
    requires WellFormed(g) && NoSchema(g, id) && d !in g.vertices
    ensures var g' := WithDefinition(g, id, version, d, full);
            && Decodes(g') && VersionsTellEdges(g')
            && Abs(g') == Abs(g).(definitions := Abs(g).definitions + {d})
            && VersionsOf(g, id) == map[] && VersionsOf(g', id) == map[version := full]
            && (Exports(g', x) ==> Imported(EmptyGraph, x) == g')
  {
    var v, e := StoredDefinition(full), DefinitionEdge(id, d, version);
    var g1, g' := PutVertex(g, d, v), WithDefinition(g, id, version, d, full);
    StrayVersionTells(g, id, version, d, full);
    EdgesFromSchemas(g, id);
    PutVertexRefines(g, d, v);
    StrayEdgeSchemas(g1, e);
    PutEdgeOthers(g1, e);
    PutEdgeNewVersion(g1, e);
    StrayEdgeExact(g, d, v, e);
    if Exports(g', x) {
      ImportOfExport(g', x);
    }
  }

  /** A stray view exists, but no record of the registry has it; only whoever asks for the views of the
      vertex is told it. Exports carry it and imports rebuild it. */
  lemma StrayView(g: Graph, id: Uuid, view: View, w: Uuid, x: DbExport)
    requires WellFormed(g) && NoSchema(g, id) && w !in g.vertices
    ensures var g' := WithViewVertex(g, id, view, w);
            && Decodes(g') && VersionsTellEdges(g')
            && Abs(g') == Abs(g).(views := Abs(g).views[w := view])
            && ViewsOf(g', id) == ViewsOf(g, id) + {w}
            && (Exports(g', x) ==> Imported(EmptyGraph, x) == g')
  {
    var v, e := StoredView(view), ViewEdge(id, w);
    var g1, g' := PutVertex(g, w, v), WithViewVertex(g, id, view, w);
    PutVertexRefines(g, w, v);
    PutVertexEdges(g, w, v, id);
    forall k | k in g.edges ensures k.inbound != w {
      assert EdgeOk(g, k);
    }
    forall y, k, l | DefinesFor(g', k, y) && DefinesFor(g', l, y) && k != l
      ensures !SamePrecedence(VersionOf(g', k), VersionOf(g', l))
    {
      PutEdgeKeys(g1, e, k, y);
      PutEdgeKeys(g1, e, l, y);
      assert DefinesFor(g1, k, y) && DefinesFor(g1, l, y);
    }
    StrayEdgeSchemas(g1, e);
    PutEdgeOthers(g1, e);
    PutEdgeViews(g1, e, id);
    StrayEdgeExact(g, w, v, e);
    if Exports(g', x) {
      ImportOfExport(g', x);
    }
  }
}
