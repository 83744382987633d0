/**
 The property graph behind the registry: how schemas, definitions and views become vertices, edges and
 loose properties, which graphs are well formed, and the registry such a graph stands for.
 */
module PropertyGraph {
  import opened Wrappers
  import opened Json
  import opened Semver
  import opened RegistryTypes
  import R = Registry

  datatype VertexType = SchemaVertex | DefinitionVertex | ViewVertex
  datatype EdgeType = SchemaDefinitionEdge | SchemaViewEdge

  datatype Property =
    | SchemaName | SchemaTopicName | SchemaQueryAddress | SchemaTypeName
    | DefinitionValue
    | ViewName | ViewExpression
    | VersionProperty

  /** A property's value is JSON; a version's JSON text is kept as the version it is. */
  datatype Value = JsonValue(json: Json) | VersionValue(version: Version)

  type Props = map<Property, Value>

  datatype Vertex = Vertex(t: VertexType, props: Props)
  datatype EdgeKey = EdgeKey(outbound: Uuid, t: EdgeType, inbound: Uuid)

  datatype Graph = Graph(vertices: map<Uuid, Vertex>, edges: map<EdgeKey, Props>)

  const EmptyGraph := Graph(map[], map[])

  // ----- Vertices -----

  /** What can be stored as a vertex. */
  datatype Stored = StoredSchema(schema: Schema) | StoredDefinition(definition: Json) | StoredView(view: View)

  function DbType(v: Stored): VertexType {
    match v
    case StoredSchema(_) => SchemaVertex
    case StoredDefinition(_) => DefinitionVertex
    case StoredView(_) => ViewVertex
  }

  function Text(s: string): Value {
    JsonValue(String(s))
  }

  function SchemaTypeText(t: SchemaType): string {
    match t case DocumentStorage => "DocumentStorage" case Timeseries => "Timeseries"
  }

  /** `into_properties`. */
  function IntoProperties(v: Stored): seq<(Property, Value)> {
    match v
    case StoredSchema(s) =>
      [(SchemaName, Text(s.name)), (SchemaTopicName, Text(s.kafkaTopic)), (SchemaQueryAddress, Text(s.queryAddress)),
       (SchemaTypeName, Text(SchemaTypeText(s.schemaType)))]
    case StoredDefinition(d) => [(DefinitionValue, JsonValue(d))]
    case StoredView(w) => [(ViewName, Text(w.name)), (ViewExpression, Text(w.jmespath))]
  }

  function TextIn(x: Option<Value>): Option<string> {
    if x.Some? && x.value.JsonValue? && x.value.json.String? then Some(x.value.json.s) else None
  }

  function SchemaTypeIn(x: Option<Value>): Option<SchemaType> {
    match TextIn(x)
    case Some(t) =>
      if t == "DocumentStorage" then Some(DocumentStorage) else if t == "Timeseries" then Some(Timeseries) else None
    case None => None
  }

  function Lookup(props: Props, name: Property): Option<Value> {
    if name in props then Some(props[name]) else None
  }

  /** `from_properties`, for the vertex's own type. */
  function FromProperties(v: Vertex): Option<Stored> {
    match v.t
    case SchemaVertex =>
      var name, topic := TextIn(Lookup(v.props, SchemaName)), TextIn(Lookup(v.props, SchemaTopicName));
      var address, t := TextIn(Lookup(v.props, SchemaQueryAddress)), SchemaTypeIn(Lookup(v.props, SchemaTypeName));
      if name.Some? && topic.Some? && address.Some? && t.Some? then
        Some(StoredSchema(Schema(name.value, topic.value, address.value, t.value)))
      else None
    case DefinitionVertex =>
      if DefinitionValue in v.props && v.props[DefinitionValue].JsonValue? then
        Some(StoredDefinition(v.props[DefinitionValue].json))
      else None
    case ViewVertex =>
      var name, jmespath := TextIn(Lookup(v.props, ViewName)), TextIn(Lookup(v.props, ViewExpression));
      if name.Some? && jmespath.Some? then Some(StoredView(View(name.value, jmespath.value))) else None
  }

  /** The properties written one after another. */
  function Collected(properties: seq<(Property, Value)>): Props {
    if properties == [] then map[]
    else var n := |properties| - 1; Collected(properties[..n])[properties[n].0 := properties[n].1]
  }

  function Encoded(v: Stored): Vertex {
    Vertex(DbType(v), match v
      case StoredSchema(s) =>
        map[SchemaName := Text(s.name), SchemaTopicName := Text(s.kafkaTopic),
            SchemaQueryAddress := Text(s.queryAddress), SchemaTypeName := Text(SchemaTypeText(s.schemaType))]
      case StoredDefinition(d) => map[DefinitionValue := JsonValue(d)]
      case StoredView(w) => map[ViewName := Text(w.name), ViewExpression := Text(w.jmespath)])
  }

  lemma {:induction false} CollectedStep(properties: seq<(Property, Value)>, p: Property, x: Value)
    ensures Collected(properties + [(p, x)]) == Collected(properties)[p := x]
  {
    assert (properties + [(p, x)])[..|properties|] == properties;
  }

  /** Writing a value's properties one after another encodes it. */
  lemma WrittenIsEncoded(v: Stored)
    ensures Collected(IntoProperties(v)) == Encoded(v).props
  {
    var properties := IntoProperties(v);
    match v
    case StoredSchema(s) =>
      CollectedStep([], properties[0].0, properties[0].1);
      CollectedStep(properties[..1], properties[1].0, properties[1].1);
      CollectedStep(properties[..2], properties[2].0, properties[2].1);
      CollectedStep(properties[..3], properties[3].0, properties[3].1);
      assert properties[..1] == [] + [properties[0]];
      assert properties[..2] == properties[..1] + [properties[1]];
      assert properties[..3] == properties[..2] + [properties[2]];
      assert properties == properties[..3] + [properties[3]];
    case StoredDefinition(d) =>
      CollectedStep([], properties[0].0, properties[0].1);
      assert properties == [] + [properties[0]];
    case StoredView(w) =>
      CollectedStep([], properties[0].0, properties[0].1);
      CollectedStep(properties[..1], properties[1].0, properties[1].1);
      assert properties[..1] == [] + [properties[0]];
      assert properties == properties[..1] + [properties[1]];
  }

  /** Decoding what was encoded gives it back. */
  lemma EncodedDecodes(v: Stored)
    ensures FromProperties(Encoded(v)) == Some(v)
  {
  }

  // ----- Edges -----

  datatype StoredEdge =
    | DefinitionEdge(schemaId: Uuid, definitionId: Uuid, version: Version)
    | ViewEdge(schemaId: Uuid, viewId: Uuid)

  function KeyOf(e: StoredEdge): EdgeKey {
    match e
    case DefinitionEdge(s, d, _) => EdgeKey(s, SchemaDefinitionEdge, d)
    case ViewEdge(s, v) => EdgeKey(s, SchemaViewEdge, v)
  }

  function EdgeProperties(e: StoredEdge): seq<(Property, Value)> {
    match e
    case DefinitionEdge(_, _, v) => [(VersionProperty, VersionValue(v))]
    case ViewEdge(_, _) => []
  }

  /** `from_properties` of the two edge types. */
  function EdgeFromProperties(k: EdgeKey, props: Props): Option<StoredEdge> {
    match k.t
    case SchemaDefinitionEdge =>
      if VersionProperty in props && props[VersionProperty].VersionValue? then
        Some(DefinitionEdge(k.outbound, k.inbound, props[VersionProperty].version))
      else None
    case SchemaViewEdge => Some(ViewEdge(k.outbound, k.inbound))
  }

  function EncodedEdge(e: StoredEdge): Props {
    match e
    case DefinitionEdge(_, _, v) => map[VersionProperty := VersionValue(v)]
    case ViewEdge(_, _) => map[]
  }

  // ----- Changes -----

  function PutVertex(g: Graph, id: Uuid, v: Stored): Graph {
    g.(vertices := g.vertices[id := Encoded(v)])
  }

  /** Properties can only be set on a vertex that exists. */
  function SetProperty(g: Graph, id: Uuid, p: Property, x: Value): Graph {
    if id in g.vertices then g.(vertices := g.vertices[id := g.vertices[id].(props := g.vertices[id].props[p := x])])
    else g
  }

  predicate Endpoints(g: Graph, k: EdgeKey) {
    k.outbound in g.vertices && k.inbound in g.vertices
  }

  /** An edge is created, or kept, only between vertices that exist; its properties are then set. */
  function PutEdge(g: Graph, e: StoredEdge): Graph {
    var k := KeyOf(e);
    if Endpoints(g, k) || k in g.edges then
      g.(edges := g.edges[k := (if k in g.edges then g.edges[k] else map[]) + EncodedEdge(e)])
    else g
  }

  // ----- Well-formed graphs -----

  /** The vertex decodes, and holds nothing but what its value encodes to. */
  ghost predicate VertexOk(v: Vertex) {
    FromProperties(v).Some? && v == Encoded(FromProperties(v).value)
  }

  predicate HasType(g: Graph, id: Uuid, t: VertexType) {
    id in g.vertices && g.vertices[id].t == t
  }

  /** The edge decodes, holds nothing else, and joins a schema to a definition or a view that exists. */
  ghost predicate EdgeOk(g: Graph, k: EdgeKey)
    requires k in g.edges
  {
    && HasType(g, k.outbound, SchemaVertex)
    && HasType(g, k.inbound, if k.t.SchemaDefinitionEdge? then DefinitionVertex else ViewVertex)
    && EdgeFromProperties(k, g.edges[k]).Some?
    && g.edges[k] == EncodedEdge(EdgeFromProperties(k, g.edges[k]).value)
  }

  function VersionOf(g: Graph, k: EdgeKey): Version {
    if k in g.edges && VersionProperty in g.edges[k] && g.edges[k][VersionProperty].VersionValue? then
      g.edges[k][VersionProperty].version
    else FirstVersion
  }

  /** `k` leads from schema `id` to one of its definitions. */
  predicate DefinesFor(g: Graph, k: EdgeKey, id: Uuid) {
    k in g.edges && k.t.SchemaDefinitionEdge? && k.outbound == id
  }

  ghost predicate VerticesOk(g: Graph) {
    forall id <- g.vertices :: VertexOk(g.vertices[id])
  }

  ghost predicate EdgesOk(g: Graph) {
    forall k <- g.edges :: EdgeOk(g, k)
  }

  /** No two versions of a schema have the same precedence. */
  ghost predicate VersionsTellEdges(g: Graph) {
    forall id, k, l :: DefinesFor(g, k, id) && DefinesFor(g, l, id) && k != l ==>
      !SamePrecedence(VersionOf(g, k), VersionOf(g, l))
  }

  ghost predicate WellFormed(g: Graph) {
    VerticesOk(g) && EdgesOk(g) && VersionsTellEdges(g)
  }

  /** Everything stored can be read back, whatever else is stored with it. */
  ghost predicate Decodes(g: Graph) {
    && (forall id <- g.vertices :: FromProperties(g.vertices[id]).Some?)
    && (forall k <- g.edges :: EdgeFromProperties(k, g.edges[k]).Some?)
  }

  lemma WellFormedDecodes(g: Graph)
    ensures WellFormed(g) ==> Decodes(g)
  {
    if WellFormed(g) {
      assert forall id <- g.vertices :: VertexOk(g.vertices[id]);
      assert forall k <- g.edges :: EdgeOk(g, k);
    }
  }

  // ----- The registry behind a graph -----

  function SchemaIn(v: Vertex): Schema {
    var s := FromProperties(v);
    if s.Some? && s.value.StoredSchema? then s.value.schema else Schema("", "", "", DocumentStorage)
  }

  function DefinitionIn(v: Vertex): Json {
    var s := FromProperties(v);
    if s.Some? && s.value.StoredDefinition? then s.value.definition else Json.Null
  }

  function ViewIn(v: Vertex): View {
    var s := FromProperties(v);
    if s.Some? && s.value.StoredView? then s.value.view else View("", "")
  }

  function DefinitionOf(g: Graph, id: Uuid): Json {
    if id in g.vertices then DefinitionIn(g.vertices[id]) else Json.Null
  }

  ghost function VersionsOf(g: Graph, id: Uuid): R.Versions
    requires VersionsTellEdges(g)
  {
    map k | k in g.edges && DefinesFor(g, k, id) :: VersionOf(g, k) := DefinitionOf(g, k.inbound)
  }

  function ViewsOf(g: Graph, id: Uuid): set<Uuid> {
    set k | k in g.edges && k.t.SchemaViewEdge? && k.outbound == id :: k.inbound
  }

  ghost function RecordOf(g: Graph, id: Uuid): R.Record
    requires VersionsTellEdges(g) && id in g.vertices
  {
    R.Record(SchemaIn(g.vertices[id]), VersionsOf(g, id), ViewsOf(g, id))
  }

  ghost function Schemas(g: Graph): map<Uuid, R.Record>
    requires VersionsTellEdges(g)
  {
    map id | id in g.vertices && g.vertices[id].t.SchemaVertex? :: RecordOf(g, id)
  }

  function Views(g: Graph): map<Uuid, View> {
    map id | id in g.vertices && g.vertices[id].t.ViewVertex? :: ViewIn(g.vertices[id])
  }

  function Definitions(g: Graph): set<Uuid> {
    set id | id in g.vertices && g.vertices[id].t.DefinitionVertex?
  }

  /** The registry a well-formed graph stands for. */
  ghost function Abs(g: Graph): R.Registry
    requires VersionsTellEdges(g)
  {
    R.Registry(Schemas(g), Views(g), Definitions(g))
  }

  // ----- What each change does to the registry -----

  /** A schema's versions depend only on its edges and the definitions they lead to. */
  lemma SameVersions(g: Graph, g': Graph, id: Uuid)
    requires VersionsTellEdges(g) && VersionsTellEdges(g')
    requires forall k :: DefinesFor(g, k, id) <==> DefinesFor(g', k, id)
    requires forall k :: DefinesFor(g, k, id) ==>
               VersionOf(g, k) == VersionOf(g', k) && DefinitionOf(g, k.inbound) == DefinitionOf(g', k.inbound)
    ensures VersionsOf(g, id) == VersionsOf(g', id)
  {
    var a, b := VersionsOf(g, id), VersionsOf(g', id);
    forall v
      ensures v in a <==> v in b
      ensures v in a ==> a[v] == b[v]
    {
      if v in a {
        var k :| DefinesFor(g, k, id) && VersionOf(g, k) == v;
        assert DefinesFor(g', k, id) && VersionOf(g', k) == v;
      }
      if v in b {
        var k :| DefinesFor(g', k, id) && VersionOf(g', k) == v;
        assert DefinesFor(g, k, id) && VersionOf(g, k) == v;
      }
    }
  }

  lemma SameEdgesTell(g: Graph, g': Graph)
    requires VersionsTellEdges(g) && g.edges == g'.edges
    ensures VersionsTellEdges(g')
  {
    forall x, k, l | DefinesFor(g', k, x) && DefinesFor(g', l, x) && k != l
      ensures !SamePrecedence(VersionOf(g', k), VersionOf(g', l))
    {
      assert DefinesFor(g, k, x) && DefinesFor(g, l, x);
      assert VersionOf(g', k) == VersionOf(g, k) && VersionOf(g', l) == VersionOf(g, l);
    }
  }

  lemma PutVertexWellFormed(g: Graph, id: Uuid, v: Stored)
    requires WellFormed(g) && id !in g.vertices
    ensures WellFormed(PutVertex(g, id, v))
  {
    var g' := PutVertex(g, id, v);
    EncodedDecodes(v);
    SameEdgesTell(g, g');
    forall k | k in g'.edges ensures EdgeOk(g', k) {
      assert EdgeOk(g, k);
    }
    forall x | x in g'.vertices ensures VertexOk(g'.vertices[x]) {
      assert x != id ==> VertexOk(g.vertices[x]);
    }
  }

  /** A new vertex leaves every other vertex's versions and views as they were, and has none itself. */
  lemma PutVertexEdges(g: Graph, id: Uuid, v: Stored, x: Uuid)
    requires EdgesOk(g) && VersionsTellEdges(g) && VersionsTellEdges(PutVertex(g, id, v)) && id !in g.vertices
    ensures VersionsOf(PutVertex(g, id, v), x) == VersionsOf(g, x)
    ensures ViewsOf(PutVertex(g, id, v), x) == ViewsOf(g, x)
    ensures x == id ==> VersionsOf(g, x) == map[] && ViewsOf(g, x) == {}
  {
    var g' := PutVertex(g, id, v);
    forall k | k in g.edges ensures k.inbound != id && k.outbound != id {
      assert EdgeOk(g, k);
    }
    forall k ensures DefinesFor(g, k, x) <==> DefinesFor(g', k, x) {}
    SameVersions(g, g', x);
  }

  /** What a new vertex adds to the registry. */
  function WithVertex(r: R.Registry, id: Uuid, v: Stored): R.Registry {
    match v
    case StoredSchema(s) => r.(schemas := r.schemas[id := R.Record(s, map[], {})])
    case StoredDefinition(_) => r.(definitions := r.definitions + {id})
    case StoredView(w) => r.(views := r.views[id := w])
  }

  lemma PutVertexSchemas(g: Graph, id: Uuid, v: Stored)
    requires EdgesOk(g) && VersionsTellEdges(g) && id !in g.vertices
    requires SchemaIn(Encoded(v)) == if v.StoredSchema? then v.schema else Schema("", "", "", DocumentStorage)
    ensures VersionsTellEdges(PutVertex(g, id, v))
    ensures Schemas(PutVertex(g, id, v)) ==
            if v.StoredSchema? then Schemas(g)[id := R.Record(v.schema, map[], {})] else Schemas(g)
  {
    var g' := PutVertex(g, id, v);
    SameEdgesTell(g, g');
    var left := Schemas(g');
    var right := if v.StoredSchema? then Schemas(g)[id := R.Record(v.schema, map[], {})] else Schemas(g);
    assert left.Keys == right.Keys;
    forall x | x in left ensures left[x] == right[x] {
      PutVertexEdges(g, id, v, x);
    }
  }

  lemma EncodedContents(v: Stored)
    ensures v.StoredSchema? ==> SchemaIn(Encoded(v)) == v.schema
    ensures v.StoredDefinition? ==> DefinitionIn(Encoded(v)) == v.definition
    ensures v.StoredView? ==> ViewIn(Encoded(v)) == v.view
    ensures !v.StoredSchema? ==> SchemaIn(Encoded(v)) == Schema("", "", "", DocumentStorage)
  {
    EncodedDecodes(v);
  }

  lemma PutVertexViews(g: Graph, id: Uuid, v: Stored)
    requires id !in g.vertices && (v.StoredView? ==> ViewIn(Encoded(v)) == v.view)
    ensures Views(PutVertex(g, id, v)) == if v.StoredView? then Views(g)[id := v.view] else Views(g)
    ensures Definitions(PutVertex(g, id, v)) == if v.StoredDefinition? then Definitions(g) + {id} else Definitions(g)
  {
  }

  /** A new vertex is a schema without versions and views, a view, or only an id in use. */
  lemma PutVertexRefines(g: Graph, id: Uuid, v: Stored)
    requires WellFormed(g) && id !in g.vertices
    ensures WellFormed(PutVertex(g, id, v))
    ensures Abs(PutVertex(g, id, v)) == WithVertex(Abs(g), id, v)
  {
    PutVertexWellFormed(g, id, v);
    EncodedContents(v);
    PutVertexSchemas(g, id, v);
    PutVertexViews(g, id, v);
  }

  // ----- Edges -----

  /** What a new edge adds to the registry. */
  function WithEdge(r: R.Registry, e: StoredEdge, definition: Json): R.Registry
    requires e.schemaId in r.schemas
  {
    var record := r.schemas[e.schemaId];
    match e
    case DefinitionEdge(s, _, v) => r.(schemas := r.schemas[s := record.(versions := record.versions[v := definition])])
    case ViewEdge(s, w) => r.(schemas := r.schemas[s := record.(views := record.views + {w})])
  }

  /** The new edge leads from a schema to a definition or view, and its version ties with no other. */
  ghost predicate Fits(g: Graph, e: StoredEdge)
    requires VersionsTellEdges(g)
  {
    && KeyOf(e) !in g.edges
    && HasType(g, e.schemaId, SchemaVertex)
    && HasType(g, KeyOf(e).inbound, if e.DefinitionEdge? then DefinitionVertex else ViewVertex)
    && (e.DefinitionEdge? ==> forall v <- VersionsOf(g, e.schemaId) :: !SamePrecedence(v, e.version))
  }

  lemma PutEdgeKeys(g: Graph, e: StoredEdge, k: EdgeKey, x: Uuid)
    requires Endpoints(g, KeyOf(e)) && KeyOf(e) !in g.edges
    ensures k != KeyOf(e) ==> (DefinesFor(PutEdge(g, e), k, x) <==> DefinesFor(g, k, x))
    ensures k != KeyOf(e) ==> VersionOf(PutEdge(g, e), k) == VersionOf(g, k)
    ensures DefinesFor(PutEdge(g, e), KeyOf(e), x) <==> e.DefinitionEdge? && x == e.schemaId
    ensures e.DefinitionEdge? ==> VersionOf(PutEdge(g, e), KeyOf(e)) == e.version
  {
  }

  lemma PutEdgeTells(g: Graph, e: StoredEdge)
    requires VersionsTellEdges(g) && Fits(g, e)
    ensures VersionsTellEdges(PutEdge(g, e))
  {
    var g', k0 := PutEdge(g, e), KeyOf(e);
    forall x, k, l | DefinesFor(g', k, x) && DefinesFor(g', l, x) && k != l
      ensures !SamePrecedence(VersionOf(g', k), VersionOf(g', l))
    {
      PutEdgeKeys(g, e, k, x);
      PutEdgeKeys(g, e, l, x);
      if k == k0 {
        assert VersionOf(g, l) in VersionsOf(g, x);
      } else if l == k0 {
        assert VersionOf(g, k) in VersionsOf(g, x);
      }
    }
  }

  lemma PutEdgeEdgesOk(g: Graph, e: StoredEdge)
    requires EdgesOk(g) && VersionsTellEdges(g) && Fits(g, e)
    ensures EdgesOk(PutEdge(g, e))
  {
    var g', k0 := PutEdge(g, e), KeyOf(e);
    forall k | k in g'.edges ensures EdgeOk(g', k) {
      if k == k0 {
        assert g'.edges[k0] == EncodedEdge(e);
        assert EdgeFromProperties(k0, g'.edges[k0]) == Some(e);
      } else {
        assert EdgeOk(g, k) && g'.edges[k] == g.edges[k];
      }
    }
  }

  lemma PutEdgeWellFormed(g: Graph, e: StoredEdge)
    requires WellFormed(g) && Fits(g, e)
    ensures WellFormed(PutEdge(g, e))
  {
    PutEdgeTells(g, e);
    PutEdgeEdgesOk(g, e);
    assert PutEdge(g, e).vertices == g.vertices;
  }

  lemma PutEdgeSameVersions(g: Graph, e: StoredEdge, x: Uuid)
    requires VersionsTellEdges(g) && VersionsTellEdges(PutEdge(g, e)) && Endpoints(g, KeyOf(e)) && KeyOf(e) !in g.edges
    requires !(e.DefinitionEdge? && x == e.schemaId)
    ensures VersionsOf(PutEdge(g, e), x) == VersionsOf(g, x)
  {
    var g' := PutEdge(g, e);
    forall k
      ensures DefinesFor(g', k, x) <==> DefinesFor(g, k, x)
      ensures DefinesFor(g, k, x) ==> VersionOf(g', k) == VersionOf(g, k)
    {
      PutEdgeKeys(g, e, k, x);
    }
    SameVersions(g, g', x);
  }

  /** Each definition edge is found under its version, and each version has its edge. */
  lemma VersionAt(g: Graph, x: Uuid, k: EdgeKey)
    requires VersionsTellEdges(g) && DefinesFor(g, k, x)
    ensures VersionOf(g, k) in VersionsOf(g, x) && VersionsOf(g, x)[VersionOf(g, k)] == DefinitionOf(g, k.inbound)
  {
  }

  lemma EdgeAt(g: Graph, x: Uuid, v: Version) returns (k: EdgeKey)
    requires VersionsTellEdges(g) && v in VersionsOf(g, x)
    ensures DefinesFor(g, k, x) && VersionOf(g, k) == v
  {
    k :| DefinesFor(g, k, x) && VersionOf(g, k) == v;
  }

  lemma PutEdgeOldVersion(g: Graph, e: StoredEdge, x: Uuid, v: Version)
    requires VersionsTellEdges(g) && VersionsTellEdges(PutEdge(g, e)) && Endpoints(g, KeyOf(e)) && KeyOf(e) !in g.edges
    requires e.DefinitionEdge? && v != e.version
    ensures v in VersionsOf(PutEdge(g, e), x) <==> v in VersionsOf(g, x)
    ensures v in VersionsOf(g, x) ==> VersionsOf(PutEdge(g, e), x)[v] == VersionsOf(g, x)[v]
  {
    var g' := PutEdge(g, e);
    if v in VersionsOf(g', x) {
      var k := EdgeAt(g', x, v);
      PutEdgeKeys(g, e, k, x);
      VersionAt(g, x, k);
    }
    if v in VersionsOf(g, x) {
      var k := EdgeAt(g, x, v);
      PutEdgeKeys(g, e, k, x);
      VersionAt(g, x, k);
      VersionAt(g', x, k);
    }
  }

  lemma PutEdgeNewVersion(g: Graph, e: StoredEdge)
    requires VersionsTellEdges(g) && VersionsTellEdges(PutEdge(g, e)) && Endpoints(g, KeyOf(e)) && KeyOf(e) !in g.edges
    requires e.DefinitionEdge?
    ensures VersionsOf(PutEdge(g, e), e.schemaId) ==
            VersionsOf(g, e.schemaId)[e.version := DefinitionOf(g, e.definitionId)]
  {
    var g', x := PutEdge(g, e), e.schemaId;
    PutEdgeKeys(g, e, KeyOf(e), x);
    VersionAt(g', x, KeyOf(e));
    forall v | v != e.version
      ensures v in VersionsOf(g', x) <==> v in VersionsOf(g, x)
      ensures v in VersionsOf(g, x) ==> VersionsOf(g', x)[v] == VersionsOf(g, x)[v]
    {
      PutEdgeOldVersion(g, e, x, v);
    }
  }

  lemma PutEdgeViews(g: Graph, e: StoredEdge, x: Uuid)
    requires Endpoints(g, KeyOf(e))
    ensures ViewsOf(PutEdge(g, e), x) ==
            if e.ViewEdge? && x == e.schemaId then ViewsOf(g, x) + {e.viewId} else ViewsOf(g, x)
  {
    assert KeyOf(e) in PutEdge(g, e).edges;
  }

  lemma PutEdgeRecord(g: Graph, e: StoredEdge, x: Uuid)
    requires VersionsTellEdges(g) && VersionsTellEdges(PutEdge(g, e)) && Endpoints(g, KeyOf(e)) && KeyOf(e) !in g.edges
    requires x in g.vertices
    ensures x != e.schemaId ==> RecordOf(PutEdge(g, e), x) == RecordOf(g, x)
    ensures x == e.schemaId ==>
              RecordOf(PutEdge(g, e), x) ==
              match e
              case DefinitionEdge(_, d, v) =>
                RecordOf(g, x).(versions := RecordOf(g, x).versions[v := DefinitionOf(g, d)])
              case ViewEdge(_, w) => RecordOf(g, x).(views := RecordOf(g, x).views + {w})
  {
    PutEdgeViews(g, e, x);
    if e.DefinitionEdge? && x == e.schemaId {
      PutEdgeNewVersion(g, e);
    } else {
      PutEdgeSameVersions(g, e, x);
    }
  }

  /** A definition edge adds its version, a view edge its view, to the schema it leads from. */
  lemma PutEdgeRefines(g: Graph, e: StoredEdge)
    requires WellFormed(g) && Fits(g, e)
    ensures WellFormed(PutEdge(g, e))
    ensures Abs(PutEdge(g, e)) == WithEdge(Abs(g), e, DefinitionOf(g, KeyOf(e).inbound))
  {
    PutEdgeWellFormed(g, e);
    PutEdgeSchemas(g, e);
    PutEdgeOthers(g, e);
  }

  lemma PutEdgeOthers(g: Graph, e: StoredEdge)
    ensures Views(PutEdge(g, e)) == Views(g) && Definitions(PutEdge(g, e)) == Definitions(g)
  {
    assert PutEdge(g, e).vertices == g.vertices;
  }

  lemma PutEdgeSchemas(g: Graph, e: StoredEdge)
    requires VersionsTellEdges(g) && VersionsTellEdges(PutEdge(g, e)) && KeyOf(e) !in g.edges
    requires HasType(g, e.schemaId, SchemaVertex) && Endpoints(g, KeyOf(e))
    ensures Schemas(PutEdge(g, e)) == WithEdge(Abs(g), e, DefinitionOf(g, KeyOf(e).inbound)).schemas
  {
    var left, right := Schemas(PutEdge(g, e)), WithEdge(Abs(g), e, DefinitionOf(g, KeyOf(e).inbound)).schemas;
    assert left.Keys == right.Keys;
    forall x | x in left ensures left[x] == right[x] {
      PutEdgeRecord(g, e, x);
    }
  }

  // ----- Properties -----

  /** The property behind a metadata field, and the value written to it. */
  function FieldProperty(f: FieldUpdate): (Property, Value) {
    match f
    case SetName(name) => (SchemaName, Text(name))
    case SetTopic(topic) => (SchemaTopicName, Text(topic))
    case SetAddress(address) => (SchemaQueryAddress, Text(address))
    case SetType(t) => (SchemaTypeName, Text(SchemaTypeText(t)))
  }

  function SetField(g: Graph, id: Uuid, f: FieldUpdate): Graph {
    SetProperty(g, id, FieldProperty(f).0, FieldProperty(f).1)
  }

  /** A series of metadata writes. */
  function SetFields(g: Graph, id: Uuid, fs: seq<FieldUpdate>): Graph
    decreases |fs|
  {
    if fs == [] then g else SetFields(SetField(g, id, fs[0]), id, fs[1..])
  }

  lemma FieldEncoded(s: Schema, f: FieldUpdate)
    ensures var v := Encoded(StoredSchema(s));
            v.(props := v.props[FieldProperty(f).0 := FieldProperty(f).1]) == Encoded(StoredSchema(Applied(s, f)))
  {
  }

  /** Exchanging a vertex for another one of its type keeps the graph well formed. */
  lemma ReplaceWellFormed(g: Graph, id: Uuid, v: Vertex)
    requires WellFormed(g) && id in g.vertices && v.t == g.vertices[id].t && VertexOk(v)
    ensures WellFormed(g.(vertices := g.vertices[id := v]))
  {
    var g' := g.(vertices := g.vertices[id := v]);
    SameEdgesTell(g, g');
    forall k | k in g'.edges ensures EdgeOk(g', k) {
      assert EdgeOk(g, k);
    }
    forall x | x in g'.vertices ensures VertexOk(g'.vertices[x]) {
      assert x != id ==> VertexOk(g.vertices[x]);
    }
  }

  lemma ReplaceVersions(g: Graph, id: Uuid, v: Vertex, x: Uuid)
    requires EdgesOk(g) && VersionsTellEdges(g) && id in g.vertices && !g.vertices[id].t.DefinitionVertex?
    ensures var g' := g.(vertices := g.vertices[id := v]);
            VersionsTellEdges(g') && VersionsOf(g', x) == VersionsOf(g, x) && ViewsOf(g', x) == ViewsOf(g, x)
  {
    var g' := g.(vertices := g.vertices[id := v]);
    SameEdgesTell(g, g');
    forall k | DefinesFor(g, k, x) ensures DefinitionOf(g, k.inbound) == DefinitionOf(g', k.inbound) {
      assert EdgeOk(g, k);
    }
    forall k ensures DefinesFor(g, k, x) <==> DefinesFor(g', k, x) {}
    SameVersions(g, g', x);
  }

  lemma ReplaceSchemas(g: Graph, id: Uuid, v: Vertex)
    requires EdgesOk(g) && VersionsTellEdges(g) && id in g.vertices && v.t == g.vertices[id].t
    requires !g.vertices[id].t.DefinitionVertex?
    ensures var g' := g.(vertices := g.vertices[id := v]);
            && VersionsTellEdges(g')
            && Schemas(g') == if v.t.SchemaVertex? then Schemas(g)[id := Schemas(g)[id].(schema := SchemaIn(v))]
                              else Schemas(g)
  {
    var g' := g.(vertices := g.vertices[id := v]);
    SameEdgesTell(g, g');
    var right := if v.t.SchemaVertex? then Schemas(g)[id := Schemas(g)[id].(schema := SchemaIn(v))] else Schemas(g);
    assert Schemas(g').Keys == right.Keys;
    forall x | x in Schemas(g') ensures Schemas(g')[x] == right[x] {
      ReplaceVersions(g, id, v, x);
    }
  }

  lemma ReplaceOthers(g: Graph, id: Uuid, v: Vertex)
    requires id in g.vertices && v.t == g.vertices[id].t
    ensures var g' := g.(vertices := g.vertices[id := v]);
            && Views(g') == (if v.t.ViewVertex? then Views(g)[id := ViewIn(v)] else Views(g))
            && Definitions(g') == Definitions(g)
  {
  }

  lemma ReplaceSchemaRefines(g: Graph, id: Uuid, s: Schema)
    requires WellFormed(g) && HasType(g, id, SchemaVertex)
    ensures var g' := g.(vertices := g.vertices[id := Encoded(StoredSchema(s))]);
            && WellFormed(g')
            && Abs(g') == Abs(g).(schemas := Abs(g).schemas[id := Abs(g).schemas[id].(schema := s)])
  {
    var v := Encoded(StoredSchema(s));
    EncodedContents(StoredSchema(s));
    EncodedDecodes(StoredSchema(s));
    ReplaceWellFormed(g, id, v);
    ReplaceSchemas(g, id, v);
    ReplaceOthers(g, id, v);
  }

  lemma ReplaceViewRefines(g: Graph, id: Uuid, w: View)
    requires WellFormed(g) && HasType(g, id, ViewVertex)
    ensures var g' := g.(vertices := g.vertices[id := Encoded(StoredView(w))]);
            && WellFormed(g')
            && Abs(g') == Abs(g).(views := Abs(g).views[id := w])
  {
    var v := Encoded(StoredView(w));
    EncodedContents(StoredView(w));
    EncodedDecodes(StoredView(w));
    ReplaceWellFormed(g, id, v);
    ReplaceSchemas(g, id, v);
    ReplaceOthers(g, id, v);
  }

  /** Writing one metadata property of a schema changes that field and nothing else. */
  lemma SetFieldRefines(g: Graph, id: Uuid, f: FieldUpdate)
    requires WellFormed(g) && HasType(g, id, SchemaVertex)
    ensures WellFormed(SetField(g, id, f))
    ensures R.UpdateField(Abs(g), id, f) == Ok(Abs(SetField(g, id, f)))
  {
    assert VertexOk(g.vertices[id]);
    var s := SchemaIn(g.vertices[id]);
    assert g.vertices[id] == Encoded(StoredSchema(s));
    FieldEncoded(s, f);
    ReplaceSchemaRefines(g, id, Applied(s, f));
    assert id in Schemas(g) && Schemas(g)[id].schema == s;
  }

  lemma ViewPropertyEncoded(w: View, name: string)
    ensures var v := Encoded(StoredView(w));
            && v.(props := v.props[ViewName := Text(name)]) == Encoded(StoredView(w.(name := name)))
            && v.(props := v.props[ViewExpression := Text(name)]) == Encoded(StoredView(w.(jmespath := name)))
  {
  }

  lemma SetViewPropertyRefines(g: Graph, id: Uuid, x: string)
    requires WellFormed(g) && HasType(g, id, ViewVertex)
    ensures id in Abs(g).views
    ensures WellFormed(SetProperty(g, id, ViewName, Text(x))) && WellFormed(SetProperty(g, id, ViewExpression, Text(x)))
    ensures var r := Abs(g);
            && Abs(SetProperty(g, id, ViewName, Text(x))) == r.(views := r.views[id := r.views[id].(name := x)])
            && Abs(SetProperty(g, id, ViewExpression, Text(x))) ==
               r.(views := r.views[id := r.views[id].(jmespath := x)])
  {
    assert VertexOk(g.vertices[id]);
    var w := ViewIn(g.vertices[id]);
    assert g.vertices[id] == Encoded(StoredView(w));
    ViewPropertyEncoded(w, x);
    ReplaceViewRefines(g, id, w.(name := x));
    ReplaceViewRefines(g, id, w.(jmespath := x));
    assert id in Views(g) && Views(g)[id] == w;
  }
}
