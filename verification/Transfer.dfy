/**
 Moving a whole registry: what an export says of a graph, and the graph an import builds from it.
 */
module Transfer {
  import opened Wrappers
  import opened Json
  import opened RegistryTypes
  import opened PropertyGraph

  datatype DbExport = DbExport(
    schemas: map<Uuid, Schema>,
    definitions: map<Uuid, Json>,
    views: map<Uuid, View>,
    schemaDefinitions: seq<StoredEdge>,
    schemaViews: seq<StoredEdge>)

  // ----- Export -----

  /** The edge is in the graph, with this version if it leads to a definition. */
  predicate HasEdge(g: Graph, e: StoredEdge) {
    KeyOf(e) in g.edges && EdgeFromProperties(KeyOf(e), g.edges[KeyOf(e)]) == Some(e)
  }

  ghost predicate Lists(g: Graph, es: seq<StoredEdge>, t: EdgeType) {
    && (forall e :: e in es <==> HasEdge(g, e) && KeyOf(e).t == t)
    && (forall i, j :: 0 <= i < j < |es| ==> es[i] != es[j])
  }

  function SchemasIn(g: Graph): map<Uuid, Schema> {
    map id | id in g.vertices && g.vertices[id].t.SchemaVertex? :: SchemaIn(g.vertices[id])
  }

  function DefinitionsIn(g: Graph): map<Uuid, Json> {
    map id | id in g.vertices && g.vertices[id].t.DefinitionVertex? :: DefinitionIn(g.vertices[id])
  }

  /** Vertices by id; each edge once, the edges of a kind in any order. */
  ghost predicate Exports(g: Graph, x: DbExport) {
    && x.schemas == SchemasIn(g) && x.definitions == DefinitionsIn(g) && x.views == Views(g)
    && Lists(g, x.schemaDefinitions, SchemaDefinitionEdge)
    && Lists(g, x.schemaViews, SchemaViewEdge)
  }

  // ----- Import -----

  function StoredSchemas(x: DbExport): map<Uuid, Stored> {
    map id | id in x.schemas :: StoredSchema(x.schemas[id])
  }

  function StoredDefinitions(x: DbExport): map<Uuid, Stored> {
    map id | id in x.definitions :: StoredDefinition(x.definitions[id])
  }

  function StoredViews(x: DbExport): map<Uuid, Stored> {
    map id | id in x.views :: StoredView(x.views[id])
  }

  function EncodedAll(vs: map<Uuid, Stored>): map<Uuid, Vertex> {
    map id | id in vs :: Encoded(vs[id])
  }

  function WithVertices(g: Graph, vs: map<Uuid, Stored>): Graph {
    g.(vertices := g.vertices + EncodedAll(vs))
  }

  function WithEdges(g: Graph, es: seq<StoredEdge>): Graph {
    if es == [] then g else PutEdge(WithEdges(g, es[..|es| - 1]), es[|es| - 1])
  }

  function ImportedVertices(g: Graph, x: DbExport): Graph {
    WithVertices(WithVertices(WithVertices(g, StoredSchemas(x)), StoredDefinitions(x)), StoredViews(x))
  }

  /** All vertices first, then the edges, each created only between vertices that are there. */
  function Imported(g: Graph, x: DbExport): Graph {
    WithEdges(WithEdges(ImportedVertices(g, x), x.schemaDefinitions), x.schemaViews)
  }

  /** No id is used twice. */
  predicate IdsDistinct(g: Graph, x: DbExport) {
    g.vertices.Keys !! x.schemas.Keys !! x.definitions.Keys !! x.views.Keys
  }

  /** The vertices of `vs` with an id in `done`. */
  function Taken(vs: map<Uuid, Stored>, done: set<Uuid>): map<Uuid, Stored> {
    map id | id in vs && id in done :: vs[id]
  }

  lemma AddedLast<K, V>(a: map<K, V>, b: map<K, V>, k: K, v: V)
    ensures (a + b)[k := v] == a + b[k := v]
  {
  }

  lemma EncodedOneMore(vs: map<Uuid, Stored>, done: set<Uuid>, id: Uuid)
    requires id in vs
    ensures EncodedAll(Taken(vs, done + {id})) == EncodedAll(Taken(vs, done))[id := Encoded(vs[id])]
  {
  }

  lemma TakeOneMore(g: Graph, vs: map<Uuid, Stored>, done: set<Uuid>, id: Uuid)
    requires id in vs && id !in done
    ensures PutVertex(WithVertices(g, Taken(vs, done)), id, vs[id]) == WithVertices(g, Taken(vs, done + {id}))
  {
    EncodedOneMore(vs, done, id);
    AddedLast(g.vertices, EncodedAll(Taken(vs, done)), id, Encoded(vs[id]));
  }

  lemma WithVerticesKeys(g: Graph, vs: map<Uuid, Stored>)
    ensures WithVertices(g, vs).vertices.Keys == g.vertices.Keys + vs.Keys
  {
  }

  lemma DisjointInTurn(a: set<Uuid>, b: set<Uuid>, c: set<Uuid>, d: set<Uuid>)
    ensures (a !! b !! c !! d) <==> b !! a && c !! a + b && d !! a + b + c
  {
  }

  /** Ids are distinct exactly when each of the three loads finds its ids free. */
  lemma IdsDistinctIff(g: Graph, x: DbExport)
    ensures var g1 := WithVertices(g, StoredSchemas(x));
            var g2 := WithVertices(g1, StoredDefinitions(x));
            IdsDistinct(g, x) <==>
              && StoredSchemas(x).Keys !! g.vertices.Keys
              && StoredDefinitions(x).Keys !! g1.vertices.Keys
              && StoredViews(x).Keys !! g2.vertices.Keys
  {
    WithVerticesKeys(g, StoredSchemas(x));
    WithVerticesKeys(WithVertices(g, StoredSchemas(x)), StoredDefinitions(x));
    StoredKeys(x);
    DisjointInTurn(g.vertices.Keys, x.schemas.Keys, x.definitions.Keys, x.views.Keys);
  }

  lemma StoredKeys(x: DbExport)
    ensures StoredSchemas(x).Keys == x.schemas.Keys
    ensures StoredDefinitions(x).Keys == x.definitions.Keys
    ensures StoredViews(x).Keys == x.views.Keys
  {
  }

  // ----- Round trip -----

  /** The edge joins vertices that exist and holds nothing but what it encodes to. */
  ghost predicate EdgeExact(g: Graph, k: EdgeKey)
    requires k in g.edges
  {
    && Endpoints(g, k)
    && EdgeFromProperties(k, g.edges[k]).Some?
    && g.edges[k] == EncodedEdge(EdgeFromProperties(k, g.edges[k]).value)
  }

  ghost predicate EdgesExact(g: Graph) {
    forall k <- g.edges :: EdgeExact(g, k)
  }

  /** An export mentions everything there is in the graph. */
  ghost predicate Exact(g: Graph) {
    VerticesOk(g) && EdgesExact(g)
  }

  lemma WellFormedExact(g: Graph)
    requires WellFormed(g)
    ensures Exact(g)
  {
    forall k | k in g.edges ensures EdgeExact(g, k) {
      assert EdgeOk(g, k);
    }
  }

  lemma {:induction false} WithEdgesVertices(g: Graph, es: seq<StoredEdge>)
    ensures WithEdges(g, es).vertices == g.vertices
  {
    if es != [] {
      WithEdgesVertices(g, es[..|es| - 1]);
    }
  }

  /** Keys that are not listed are as before. */
  lemma {:induction false} WithEdgesAbsent(g: Graph, es: seq<StoredEdge>, k: EdgeKey)
    requires forall i :: 0 <= i < |es| ==> KeyOf(es[i]) != k
    ensures k in WithEdges(g, es).edges <==> k in g.edges
    ensures k in g.edges ==> WithEdges(g, es).edges[k] == g.edges[k]
  {
    if es != [] {
      WithEdgesAbsent(g, es[..|es| - 1], k);
    }
  }

  /** A listed edge between present vertices, its key listed once, ends up in the graph as it is. */
  lemma {:induction false} WithEdgesPresent(g: Graph, es: seq<StoredEdge>, i: nat)
    requires i < |es| && Endpoints(g, KeyOf(es[i])) && KeyOf(es[i]) !in g.edges
    requires forall j :: 0 <= j < |es| && j != i ==> KeyOf(es[j]) != KeyOf(es[i])
    ensures var g' := WithEdges(g, es); KeyOf(es[i]) in g'.edges && g'.edges[KeyOf(es[i])] == EncodedEdge(es[i])
  {
    var n := |es| - 1;
    var init, k := es[..n], KeyOf(es[i]);
    if i == n {
      WithEdgesVertices(g, init);
      WithEdgesAbsent(g, init, k);
      assert map[] + EncodedEdge(es[i]) == EncodedEdge(es[i]);
    } else {
      WithEdgesPresent(g, init, i);
    }
  }

  /** What is stored under an id of the exported graph is what its vertex decodes to. */
  lemma ExportedVertexAt(g: Graph, x: DbExport, id: Uuid)
    requires Exports(g, x)
    ensures id in StoredSchemas(x) <==> HasType(g, id, SchemaVertex)
    ensures id in StoredDefinitions(x) <==> HasType(g, id, DefinitionVertex)
    ensures id in StoredViews(x) <==> HasType(g, id, ViewVertex)
    ensures id in StoredSchemas(x) ==> StoredSchemas(x)[id] == StoredSchema(SchemaIn(g.vertices[id]))
    ensures id in StoredDefinitions(x) ==> StoredDefinitions(x)[id] == StoredDefinition(DefinitionIn(g.vertices[id]))
    ensures id in StoredViews(x) ==> StoredViews(x)[id] == StoredView(ViewIn(g.vertices[id]))
  {
  }

  lemma VertexContents(v: Vertex)
    requires VertexOk(v)
    ensures v.t.SchemaVertex? ==> Encoded(StoredSchema(SchemaIn(v))) == v
    ensures v.t.DefinitionVertex? ==> Encoded(StoredDefinition(DefinitionIn(v))) == v
    ensures v.t.ViewVertex? ==> Encoded(StoredView(ViewIn(v))) == v
  {
  }

  /** The later loads do not disturb what an earlier one put under an id. */
  lemma LoadedAt(a: map<Uuid, Stored>, b: map<Uuid, Stored>, c: map<Uuid, Stored>, id: Uuid)
    requires (id in a ==> id !in b && id !in c) && (id in b ==> id !in c)
    ensures var m := WithVertices(WithVertices(WithVertices(EmptyGraph, a), b), c).vertices;
            && (id in m <==> id in a || id in b || id in c)
            && (id in a ==> m[id] == Encoded(a[id]))
            && (id in b ==> m[id] == Encoded(b[id]))
            && (id in c ==> m[id] == Encoded(c[id]))
  {
  }

  lemma ImportedVertexAt(g: Graph, x: DbExport, id: Uuid)
    requires VerticesOk(g) && Exports(g, x)
    ensures var g1 := ImportedVertices(EmptyGraph, x);
            (id in g1.vertices <==> id in g.vertices) && (id in g.vertices ==> g1.vertices[id] == g.vertices[id])
  {
    ExportedVertexAt(g, x, id);
    LoadedAt(StoredSchemas(x), StoredDefinitions(x), StoredViews(x), id);
    if id in g.vertices {
      VertexContents(g.vertices[id]);
    }
  }

  lemma ImportedVerticesAre(g: Graph, x: DbExport)
    requires VerticesOk(g) && Exports(g, x)
    ensures ImportedVertices(EmptyGraph, x).vertices == g.vertices
  {
    var vertices := ImportedVertices(EmptyGraph, x).vertices;
    forall id
      ensures (id in vertices <==> id in g.vertices) && (id in vertices ==> vertices[id] == g.vertices[id])
    {
      ImportedVertexAt(g, x, id);
    }
    SameMap(vertices, g.vertices);
  }

  lemma ImportedVerticesIs(g: Graph, x: DbExport)
    requires VerticesOk(g) && Exports(g, x)
    ensures ImportedVertices(EmptyGraph, x) == Graph(g.vertices, map[])
  {
    ImportedVerticesAre(g, x);
  }

  lemma ExportedEdgesFit(g: Graph, es: seq<StoredEdge>, t: EdgeType)
    requires EdgesExact(g) && Lists(g, es, t)
    ensures forall e <- es :: Endpoints(g, KeyOf(e)) && KeyOf(e).t == t
    ensures forall i, j :: 0 <= i < |es| && 0 <= j < |es| && i != j ==> KeyOf(es[i]) != KeyOf(es[j])
  {
    forall e | e in es ensures Endpoints(g, KeyOf(e)) && KeyOf(e).t == t {
      assert EdgeExact(g, KeyOf(e));
    }
    forall i, j | 0 <= i < |es| && 0 <= j < |es| && i != j ensures KeyOf(es[i]) != KeyOf(es[j]) {
      assert es[i] in es && es[j] in es;
      assert HasEdge(g, es[i]) && HasEdge(g, es[j]);
    }
  }

  lemma EveryEdgeListed(g: Graph, x: DbExport, k: EdgeKey) returns (e: StoredEdge)
    requires EdgesExact(g) && Exports(g, x) && k in g.edges
    ensures KeyOf(e) == k && EncodedEdge(e) == g.edges[k]
    ensures if k.t.SchemaDefinitionEdge? then e in x.schemaDefinitions else e in x.schemaViews
  {
    assert EdgeExact(g, k);
    e := EdgeFromProperties(k, g.edges[k]).value;
    assert HasEdge(g, e);
  }

  /** Each edge of the exported graph is rebuilt. */
  lemma ImportedEdge(g: Graph, x: DbExport, k: EdgeKey)
    requires EdgesExact(g) && Exports(g, x) && k in g.edges
    ensures var g' := WithEdges(WithEdges(Graph(g.vertices, map[]), x.schemaDefinitions), x.schemaViews);
            k in g'.edges && g'.edges[k] == g.edges[k]
  {
    var g0 := Graph(g.vertices, map[]);
    var g1 := WithEdges(g0, x.schemaDefinitions);
    var e := EveryEdgeListed(g, x, k);
    assert EdgeExact(g, k);
    ExportedEdgesFit(g, x.schemaDefinitions, SchemaDefinitionEdge);
    ExportedEdgesFit(g, x.schemaViews, SchemaViewEdge);
    WithEdgesVertices(g0, x.schemaDefinitions);
    if k.t.SchemaDefinitionEdge? {
      var i :| 0 <= i < |x.schemaDefinitions| && x.schemaDefinitions[i] == e;
      WithEdgesPresent(g0, x.schemaDefinitions, i);
      WithEdgesAbsent(g1, x.schemaViews, k);
    } else {
      WithEdgesAbsent(g0, x.schemaDefinitions, k);
      var i :| 0 <= i < |x.schemaViews| && x.schemaViews[i] == e;
      WithEdgesPresent(g1, x.schemaViews, i);
    }
  }

  /** Nothing else is built. */
  lemma ImportedNothingElse(g: Graph, x: DbExport, k: EdgeKey)
    requires Exports(g, x) && k !in g.edges
    ensures k !in WithEdges(WithEdges(Graph(g.vertices, map[]), x.schemaDefinitions), x.schemaViews).edges
  {
    var g0 := Graph(g.vertices, map[]);
    forall i | 0 <= i < |x.schemaDefinitions| ensures KeyOf(x.schemaDefinitions[i]) != k {
      assert x.schemaDefinitions[i] in x.schemaDefinitions;
    }
    forall i | 0 <= i < |x.schemaViews| ensures KeyOf(x.schemaViews[i]) != k {
      assert x.schemaViews[i] in x.schemaViews;
    }
    WithEdgesAbsent(g0, x.schemaDefinitions, k);
    WithEdgesAbsent(WithEdges(g0, x.schemaDefinitions), x.schemaViews, k);
  }

  lemma ImportedEdgesAre(g: Graph, x: DbExport)
    requires EdgesExact(g) && Exports(g, x)
    ensures WithEdges(WithEdges(Graph(g.vertices, map[]), x.schemaDefinitions), x.schemaViews).edges == g.edges
  {
    var g2 := WithEdges(WithEdges(Graph(g.vertices, map[]), x.schemaDefinitions), x.schemaViews);
    forall k
      ensures k in g2.edges <==> k in g.edges
      ensures k in g.edges ==> g2.edges[k] == g.edges[k]
    {
      if k in g.edges {
        ImportedEdge(g, x, k);
      } else {
        ImportedNothingElse(g, x, k);
      }
    }
  }

  lemma ExportedIdsDistinct(g: Graph, x: DbExport)
    requires Exports(g, x)
    ensures IdsDistinct(EmptyGraph, x)
  {
  }

  /** Importing an export into an empty database rebuilds the graph, every edge included. */
  lemma ImportOfExport(g: Graph, x: DbExport)
    requires Exact(g) && Exports(g, x)
    ensures IdsDistinct(EmptyGraph, x) && Imported(EmptyGraph, x) == g
  {
    ExportedIdsDistinct(g, x);
    ImportedVerticesIs(g, x);
    var g0 := Graph(g.vertices, map[]);
    WithEdgesVertices(g0, x.schemaDefinitions);
    WithEdgesVertices(WithEdges(g0, x.schemaDefinitions), x.schemaViews);
    ImportedEdgesAre(g, x);
  }

  /** Any two exports of a graph agree, their edge lists read as sets. */
  lemma ExportsAgree(g: Graph, x: DbExport, y: DbExport)
    requires Exports(g, x) && Exports(g, y)
    ensures x.schemas == y.schemas && x.definitions == y.definitions && x.views == y.views
    ensures forall e :: e in x.schemaDefinitions <==> e in y.schemaDefinitions
    ensures forall e :: e in x.schemaViews <==> e in y.schemaViews
  {
  }

  /** Exporting what was imported from an export gives that export back. */
  lemma ExportOfImport(g: Graph, x: DbExport, y: DbExport)
    requires Exact(g) && Exports(g, x) && Exports(Imported(EmptyGraph, x), y)
    ensures x.schemas == y.schemas && x.definitions == y.definitions && x.views == y.views
    ensures forall e :: e in x.schemaDefinitions <==> e in y.schemaDefinitions
    ensures forall e :: e in x.schemaViews <==> e in y.schemaViews
  {
    ImportOfExport(g, x);
    ExportsAgree(g, x, y);
  }

  lemma LoadedOk(g: Graph, vs: map<Uuid, Stored>)
    requires VerticesOk(g)
    ensures VerticesOk(WithVertices(g, vs))
  {
    forall id | id in WithVertices(g, vs).vertices ensures VertexOk(WithVertices(g, vs).vertices[id]) {
      if id in vs {
        EncodedDecodes(vs[id]);
      } else {
        assert VertexOk(g.vertices[id]);
      }
    }
  }

  lemma PutEdgeExact(g: Graph, e: StoredEdge)
    requires EdgesExact(g)
    ensures EdgesExact(PutEdge(g, e))
  {
    var g', k0 := PutEdge(g, e), KeyOf(e);
    forall k | k in g'.edges ensures EdgeExact(g', k) {
      assert k in g.edges ==> EdgeExact(g, k);
      if k == k0 {
        assert g'.edges[k] == EncodedEdge(e);
      }
    }
  }

  lemma {:induction false} WithEdgesExact(g: Graph, es: seq<StoredEdge>)
    requires EdgesExact(g)
    ensures EdgesExact(WithEdges(g, es))
  {
    if es != [] {
      WithEdgesExact(g, es[..|es| - 1]);
      PutEdgeExact(WithEdges(g, es[..|es| - 1]), es[|es| - 1]);
    }
  }

  /** An import builds nothing else than what its export mentions. */
  lemma ImportedExact(x: DbExport)
    ensures Exact(Imported(EmptyGraph, x))
  {
    LoadedOk(EmptyGraph, StoredSchemas(x));
    LoadedOk(WithVertices(EmptyGraph, StoredSchemas(x)), StoredDefinitions(x));
    LoadedOk(WithVertices(WithVertices(EmptyGraph, StoredSchemas(x)), StoredDefinitions(x)), StoredViews(x));
    var g1 := ImportedVertices(EmptyGraph, x);
    WithEdgesExact(g1, x.schemaDefinitions);
    WithEdgesExact(WithEdges(g1, x.schemaDefinitions), x.schemaViews);
    WithEdgesVertices(g1, x.schemaDefinitions);
    WithEdgesVertices(WithEdges(g1, x.schemaDefinitions), x.schemaViews);
  }

  /** The import of an export is the graph again exactly when its vertices and edges hold nothing besides
      what they decode to. */
  lemma RebuiltIff(g: Graph, x: DbExport)
    requires Exports(g, x)
    ensures Imported(EmptyGraph, x) == g <==> Exact(g)
  {
    ImportedExact(x);
    if Exact(g) {
      ImportOfExport(g, x);
    }
  }
}
