/**
 Replication of the registry: the master's handlers turn each successful mutation into an event, and
 a slave replays the events, in order, through the same operations.
 */
module Replication {
  import opened Wrappers
  import opened Json
  import opened Semver
  import opened RegistryTypes
  import opened R = Registry

  datatype Event =
    | SchemaAdded(schema: NewSchema, id: Uuid)
    | VersionAdded(id: Uuid, newVersion: NewSchemaVersion)
    | MetadataUpdated(id: Uuid, name: Option<string>, topic: Option<string>, queryAddress: Option<string>,
                      schemaType: Option<SchemaType>)
    | ViewAdded(schemaId: Uuid, view: View, viewId: Uuid)
    | ViewUpdated(id: Uuid, update: ViewUpdate)

  /** The message queue's answer about a topic. */
  datatype TopicCheck = Exists | Missing | Unavailable

  /** A call of a mutating handler, with the ids the node generates while serving it. */
  datatype Request =
    | AddSchemaRequest(schema: NewSchema, schemaId: Option<Uuid>, check: TopicCheck, newId: Uuid, definitionId: Uuid)
    | AddVersionRequest(id: Uuid, newVersion: NewSchemaVersion, definitionId: Uuid)
    | UpdateMetadataRequest(id: Uuid, name: Option<string>, topic: Option<string>, address: Option<string>,
                            schemaType: Option<int>, check: TopicCheck)
    | AddViewRequest(parentId: Uuid, view: View, viewId: Option<Uuid>, newId: Uuid)
    | UpdateViewRequest(id: Uuid, update: ViewUpdate)

  /** What a handler leaves: the registry, its answer and the event it emits. */
  datatype Reply = Reply(registry: Registry, error: Option<RegistryError>, event: Option<Event>)

  function Chosen(id: Option<Uuid>, generated: Uuid): Uuid {
    if id.Some? then id.value else generated
  }

  /** The schema types of the wire format. */
  function FromI32(n: int): Option<SchemaType> {
    if n == 0 then Some(DocumentStorage) else if n == 1 then Some(Timeseries) else None
  }

  function TopicError(check: TopicCheck, topic: string): Option<RegistryError> {
    match check
    case Exists => None
    case Missing => Some(NoTopic(topic))
    case Unavailable => Some(MQError)
  }

  /** The updates of the metadata calls, in their order. */
  function Fields(name: Option<string>, topic: Option<string>, address: Option<string>, t: Option<SchemaType>)
    : seq<FieldUpdate>
  {
    (if name.Some? then [SetName(name.value)] else [])
    + (if topic.Some? then [SetTopic(topic.value)] else [])
    + (if address.Some? then [SetAddress(address.value)] else [])
    + (if t.Some? then [SetType(t.value)] else [])
  }

  ghost function Mutated(r: Registry, result: Result<Registry, RegistryError>, event: Event): Reply {
    match result
    case Ok(r') => Reply(r', None, Some(event))
    case Err(e) => Reply(r, Some(e), None)
  }

  ghost function UpdateMetadata(r: Registry, q: Request): Reply
    requires q.UpdateMetadataRequest?
  {
    var noTopic := if q.topic.Some? then TopicError(q.check, q.topic.value) else None;
    if noTopic.Some? then Reply(r, noTopic, None)
    else
      var (r', failed) := UpdateFields(r, q.id, Fields(q.name, q.topic, q.address, None));
      if failed.Some? then Reply(r', failed, None)
      else if q.schemaType.None? then Reply(r', None, Some(MetadataEvent(q)))
      else
        var t := FromI32(q.schemaType.value);
        if t.None? then Reply(r', Some(InvalidSchemaType), None)
        else Mutated(r', UpdateField(r', q.id, SetType(t.value)), MetadataEvent(q))
  }

  /** The handler never puts the schema type into its event. */
  function MetadataEvent(q: Request): Event
    requires q.UpdateMetadataRequest?
  {
    MetadataUpdated(q.id, q.name, q.topic, q.address, None)
  }

  /** One handler call on the master. */
  ghost function Serve(r: Registry, env: Env, q: Request): Reply {
    match q
    case AddSchemaRequest(schema, id, check, newId, definitionId) =>
      var noTopic := TopicError(check, schema.schema.kafkaTopic);
      if noTopic.Some? then Reply(r, noTopic, None)
      else
        Mutated(r, AddSchema(r, env, schema, Chosen(id, newId), definitionId), SchemaAdded(schema, Chosen(id, newId)))
    case AddVersionRequest(id, v, definitionId) =>
      Mutated(r, AddVersion(r, env, id, v, definitionId), VersionAdded(id, v))
    case UpdateMetadataRequest(_, _, _, _, _, _) => UpdateMetadata(r, q)
    case AddViewRequest(schemaId, view, viewId, newId) =>
      Mutated(r, AddView(r, env, schemaId, view, Chosen(viewId, newId)),
              ViewAdded(schemaId, view, Chosen(viewId, newId)))
    case UpdateViewRequest(id, update) => Mutated(r, UpdateView(r, env, id, update), ViewUpdated(id, update))
  }

  /** The wire numbers of the schema types. */
  lemma WireTypes(n: int)
    ensures FromI32(0) == Some(DocumentStorage) && FromI32(1) == Some(Timeseries)
    ensures FromI32(n).Some? <==> n == 0 || n == 1
  {
  }

  /** A schema or a metadata call for a topic that cannot be confirmed changes nothing and emits nothing. */
  lemma UnconfirmedTopicRefused(r: Registry, env: Env, q: Request)
    requires q.AddSchemaRequest? || (q.UpdateMetadataRequest? && q.topic.Some?)
    requires q.check != Exists
    ensures Serve(r, env, q).registry == r && Serve(r, env, q).event == None
    ensures var topic := if q.AddSchemaRequest? then q.schema.schema.kafkaTopic else q.topic.value;
            Serve(r, env, q).error == Some(if q.check == Missing then NoTopic(topic) else MQError)
  {
  }

  ghost function Replayed(r: Registry, result: Result<Registry, RegistryError>): (Registry, Option<RegistryError>) {
    match result
    case Ok(r') => (r', None)
    case Err(e) => (r, Some(e))
  }

  /** One event consumed by a slave, which generates its own id for a definition. */
  ghost function Consume(r: Registry, env: Env, e: Event, definitionId: Uuid): (Registry, Option<RegistryError>) {
    match e
    case SchemaAdded(schema, id) => Replayed(r, AddSchema(r, env, schema, id, definitionId))
    case VersionAdded(id, v) => Replayed(r, AddVersion(r, env, id, v, definitionId))
    case MetadataUpdated(id, name, topic, address, t) => UpdateFields(r, id, Fields(name, topic, address, t))
    case ViewAdded(schemaId, view, viewId) => Replayed(r, AddView(r, env, schemaId, view, viewId))
    case ViewUpdated(id, update) => Replayed(r, UpdateView(r, env, id, update))
  }

  /** Ids given for schemas are schema ids or unknown, and generated ids are new. */
  ghost predicate Permitted(r: Registry, q: Request) {
    match q
    case AddSchemaRequest(_, id, _, newId, definitionId) =>
      (id.None? ==> newId !in Ids(r)) && definitionId !in Ids(r) && definitionId != Chosen(id, newId)
    case AddVersionRequest(id, _, definitionId) => SchemaOrUnknown(r, id) && definitionId !in Ids(r)
    case UpdateMetadataRequest(id, _, _, _, _, _) => SchemaOrUnknown(r, id)
    case AddViewRequest(schemaId, _, viewId, newId) =>
      SchemaOrUnknown(r, schemaId) && (viewId.None? ==> newId !in Ids(r))
    case UpdateViewRequest(_, _) => true
  }

  ghost predicate SchemaOrUnknown(r: Registry, id: Uuid) {
    id in r.schemas || id !in Ids(r)
  }

  /** A schema type the wire format knows, or none. */
  predicate KnownType(q: Request) {
    q.UpdateMetadataRequest? && q.schemaType.Some? ==> FromI32(q.schemaType.value).Some?
  }

  // ----- What replicas share -----

  ghost predicate SameRecord(a: Record, b: Record) {
    && a.schema.(schemaType := b.schema.schemaType) == b.schema
    && a.versions == b.versions && a.views == b.views
  }

  /** Alike up to schema types and definition vertex ids. */
  ghost predicate Same(m: Registry, s: Registry) {
    && m.schemas.Keys == s.schemas.Keys
    && (forall id <- m.schemas :: SameRecord(m.schemas[id], s.schemas[id]))
    && m.views == s.views
  }

  /** The slave draws its definition ids from a pool the master's ids never touch. */
  ghost predicate Synced(m: Registry, s: Registry, pool: set<Uuid>) {
    && Consistent(m) && Consistent(s) && Same(m, s)
    && s.definitions <= pool && m.schemas.Keys !! pool && m.views.Keys !! pool
  }

  ghost predicate Outside(q: Request, pool: set<Uuid>) {
    match q
    case AddSchemaRequest(_, id, _, newId, _) => Chosen(id, newId) !in pool
    case AddViewRequest(_, _, viewId, newId) => Chosen(viewId, newId) !in pool
    case _ => true
  }

  lemma SameResolve(m: Registry, s: Registry, id: Uuid)
    requires Same(m, s)
    ensures Resolve(m, id) == Resolve(s, id)
  {
  }

  /** Equal registries inline references alike. */
  lemma SameBuild(m: Registry, s: Registry, env: Env, definition: Json)
    requires Same(m, s)
    ensures BuildFullSchema(m, env, definition) == BuildFullSchema(s, env, definition)
  {
    forall id ensures Resolve(m, id) == Resolve(s, id) {
      SameResolve(m, s, id);
    }
    var defs := DefsOf(definition);
    if defs.Some? && Resolvable(m, env, defs.value) {
      assert ResolvedDefs(m, env, defs.value) == ResolvedDefs(s, env, defs.value);
    }
  }

  // ----- Convergence -----

  lemma AddSchemaConverges(m: Registry, s: Registry, env: Env, x: NewSchema, id: Uuid, mDef: Uuid, sDef: Uuid,
                           pool: set<Uuid>)
    requires Synced(m, s, pool) && id !in pool && sDef in pool && sDef !in s.definitions
    requires mDef !in Ids(m) && mDef != id
    requires AddSchema(m, env, x, id, mDef).Ok?
    ensures AddSchema(s, env, x, id, sDef).Ok?
    ensures Synced(AddSchema(m, env, x, id, mDef).value, AddSchema(s, env, x, id, sDef).value, pool)
  {
    SameBuild(m, s, env, x.definition);
    AddSchemaExtends(m, env, x, id, mDef);
    assert id !in Ids(s);
    AddSchemaExtends(s, env, x, id, sDef);
  }

  lemma AddVersionConverges(m: Registry, s: Registry, env: Env, id: Uuid, v: NewSchemaVersion, mDef: Uuid, sDef: Uuid,
                            pool: set<Uuid>)
    requires Synced(m, s, pool) && sDef in pool && sDef !in s.definitions && mDef !in Ids(m)
    requires AddVersion(m, env, id, v, mDef).Ok?
    ensures AddVersion(s, env, id, v, sDef).Ok?
    ensures Synced(AddVersion(m, env, id, v, mDef).value, AddVersion(s, env, id, v, sDef).value, pool)
  {
    SameBuild(m, s, env, v.definition);
    assert SameRecord(m.schemas[id], s.schemas[id]);
    AddVersionExtends(m, env, id, v, mDef);
    AddVersionExtends(s, env, id, v, sDef);
    AddVersionSame(m, s, env, id, v, mDef, sDef);
    AddVersionKeys(m, env, id, v, mDef);
    AddVersionKeys(s, env, id, v, sDef);
  }

  lemma AddVersionKeys(r: Registry, env: Env, id: Uuid, v: NewSchemaVersion, definitionId: Uuid)
    requires AddVersion(r, env, id, v, definitionId).Ok?
    ensures var r' := AddVersion(r, env, id, v, definitionId).value;
            r'.schemas.Keys == r.schemas.Keys && r'.views == r.views && r'.definitions == r.definitions + {definitionId}
  {
  }

  lemma AddVersionSame(m: Registry, s: Registry, env: Env, id: Uuid, v: NewSchemaVersion, mDef: Uuid, sDef: Uuid)
    requires Same(m, s) && BuildFullSchema(m, env, v.definition) == BuildFullSchema(s, env, v.definition)
    requires AddVersion(m, env, id, v, mDef).Ok? && AddVersion(s, env, id, v, sDef).Ok?
    ensures Same(AddVersion(m, env, id, v, mDef).value, AddVersion(s, env, id, v, sDef).value)
  {
    assert SameRecord(m.schemas[id], s.schemas[id]);
  }

  lemma AddViewConverges(m: Registry, s: Registry, env: Env, schemaId: Uuid, view: View, viewId: Uuid, pool: set<Uuid>)
    requires Synced(m, s, pool) && viewId !in pool && AddView(m, env, schemaId, view, viewId).Ok?
    ensures AddView(s, env, schemaId, view, viewId).Ok?
    ensures Synced(AddView(m, env, schemaId, view, viewId).value, AddView(s, env, schemaId, view, viewId).value, pool)
  {
    assert SameRecord(m.schemas[schemaId], s.schemas[schemaId]);
    assert viewId !in Ids(s);
    AddViewExtends(m, env, schemaId, view, viewId);
    AddViewExtends(s, env, schemaId, view, viewId);
    AddViewSame(m, s, env, schemaId, view, viewId);
  }

  lemma AddViewSame(m: Registry, s: Registry, env: Env, schemaId: Uuid, view: View, viewId: Uuid)
    requires Same(m, s) && AddView(m, env, schemaId, view, viewId).Ok? && AddView(s, env, schemaId, view, viewId).Ok?
    ensures Same(AddView(m, env, schemaId, view, viewId).value, AddView(s, env, schemaId, view, viewId).value)
  {
    assert SameRecord(m.schemas[schemaId], s.schemas[schemaId]);
  }

  ghost function Renamed(r: Registry, id: Uuid, schema: Schema): Registry
    requires id in r.schemas
  {
    r.(schemas := r.schemas[id := r.schemas[id].(schema := schema)])
  }

  /** Replacing a schema's metadata alike on both sides keeps them synced. */
  lemma RenamedSynced(m: Registry, s: Registry, id: Uuid, a: Schema, b: Schema, pool: set<Uuid>)
    requires Synced(m, s, pool) && id in m.schemas && a.(schemaType := b.schemaType) == b
    ensures Synced(Renamed(m, id, a), Renamed(s, id, b), pool)
  {
    var m', s' := Renamed(m, id, a), Renamed(s, id, b);
    assert m'.schemas.Keys == m.schemas.Keys && s'.schemas.Keys == s.schemas.Keys;
    forall x | x in m.schemas
      ensures m'.schemas[x].versions == m.schemas[x].versions
      ensures s'.schemas[x].versions == s.schemas[x].versions
      ensures SameRecord(m'.schemas[x], s'.schemas[x])
    {
      assert SameRecord(m.schemas[x], s.schemas[x]);
    }
  }

  /** Applying the same fields to schemas alike up to their type leaves them so. */
  lemma {:induction false} AppliedAlike(a: Schema, b: Schema, fs: seq<FieldUpdate>)
    requires a.(schemaType := b.schemaType) == b
    ensures AppliedAll(a, fs).(schemaType := AppliedAll(b, fs).schemaType) == AppliedAll(b, fs)
    decreases |fs|
  {
    if fs != [] {
      AppliedAlike(Applied(a, fs[0]), Applied(b, fs[0]), fs[1..]);
    }
  }

  /** The metadata a successful call leaves, the schema type included. */
  ghost function NewMetadata(was: Schema, q: Request): Schema
    requires q.UpdateMetadataRequest? && KnownType(q)
  {
    var applied := AppliedAll(was, Fields(q.name, q.topic, q.address, None));
    if q.schemaType.Some? then applied.(schemaType := FromI32(q.schemaType.value).value) else applied
  }

  lemma MetadataServed(m: Registry, q: Request)
    requires q.UpdateMetadataRequest? && KnownType(q)
    ensures var reply := UpdateMetadata(m, q);
            if reply.event.Some? then
              && reply.event == Some(MetadataEvent(q))
              && (if q.id in m.schemas then reply.registry == Renamed(m, q.id, NewMetadata(m.schemas[q.id].schema, q))
                  else reply.registry == m && Fields(q.name, q.topic, q.address, None) == [])
            else reply.registry == m
  {
    UpdateFieldsAll(m, q.id, Fields(q.name, q.topic, q.address, None));
  }

  lemma UpdateMetadataConverges(m: Registry, s: Registry, env: Env, q: Request, sDef: Uuid, pool: set<Uuid>)
    requires Synced(m, s, pool) && q.UpdateMetadataRequest? && KnownType(q)
    ensures var reply := Serve(m, env, q);
            match reply.event
            case None => Synced(reply.registry, s, pool)
            case Some(e) =>
              Consume(s, env, e, sDef).1 == None && Synced(reply.registry, Consume(s, env, e, sDef).0, pool)
  {
    var fs := Fields(q.name, q.topic, q.address, None);
    MetadataServed(m, q);
    UpdateFieldsAll(s, q.id, fs);
    if UpdateMetadata(m, q).event.Some? && q.id in m.schemas {
      assert SameRecord(m.schemas[q.id], s.schemas[q.id]);
      var a, b := m.schemas[q.id].schema, s.schemas[q.id].schema;
      AppliedAlike(a, b, fs);
      RenamedSynced(m, s, q.id, NewMetadata(a, q), AppliedAll(b, fs), pool);
    }
  }

  /** One handler call and the consumption of its event keep master and slave alike; a call that emits
      nothing changed nothing the slave shares. */
  lemma ServeConverges(m: Registry, s: Registry, env: Env, q: Request, sDef: Uuid, pool: set<Uuid>)
    requires Synced(m, s, pool) && Permitted(m, q) && KnownType(q) && Outside(q, pool)
    requires sDef in pool && sDef !in s.definitions
    ensures var reply := Serve(m, env, q);
            match reply.event
            case None => Synced(reply.registry, s, pool)
            case Some(e) =>
              Consume(s, env, e, sDef).1 == None && Synced(reply.registry, Consume(s, env, e, sDef).0, pool)
  {
    match q
    case AddSchemaRequest(x, id, _, newId, mDef) =>
      if Serve(m, env, q).event.Some? {
        AddSchemaConverges(m, s, env, x, Chosen(id, newId), mDef, sDef, pool);
      }
    case AddVersionRequest(id, v, mDef) =>
      if Serve(m, env, q).event.Some? {
        AddVersionConverges(m, s, env, id, v, mDef, sDef, pool);
      }
    case UpdateMetadataRequest(_, _, _, _, _, _) => UpdateMetadataConverges(m, s, env, q, sDef, pool);
    case AddViewRequest(id, view, viewId, newId) =>
      if Serve(m, env, q).event.Some? {
        AddViewConverges(m, s, env, id, view, Chosen(viewId, newId), pool);
      }
    case UpdateViewRequest(_, _) =>
  }

  /** A run of the master: every call permitted where it happens. */
  ghost predicate Legal(m: Registry, env: Env, qs: seq<Request>, pool: set<Uuid>)
    decreases |qs|
  {
    qs == [] ||
    (Permitted(m, qs[0]) && KnownType(qs[0]) && Outside(qs[0], pool)
     && Legal(Serve(m, env, qs[0]).registry, env, qs[1..], pool))
  }

  /** The master after a run and the events it emitted. */
  ghost function ServeAll(m: Registry, env: Env, qs: seq<Request>): (Registry, seq<Event>)
    decreases |qs|
  {
    if qs == [] then (m, [])
    else
      var reply := Serve(m, env, qs[0]);
      var (m', events) := ServeAll(reply.registry, env, qs[1..]);
      (m', if reply.event.Some? then [reply.event.value] + events else events)
  }

  /** The slave after consuming events, generating one id for each; and whether all were accepted. */
  ghost function ConsumeAll(s: Registry, env: Env, events: seq<Event>, ids: seq<Uuid>): (Registry, bool)
    requires |events| <= |ids|
    decreases |events|
  {
    if events == [] then (s, true)
    else
      var (s', failed) := Consume(s, env, events[0], ids[0]);
      var (s'', accepted) := ConsumeAll(s', env, events[1..], ids[1..]);
      (s'', failed.None? && accepted)
  }

  ghost predicate FreshIds(s: Registry, ids: seq<Uuid>, pool: set<Uuid>) {
    && (forall i :: 0 <= i < |ids| ==> ids[i] in pool && ids[i] !in s.definitions)
    && (forall i, j :: 0 <= i < j < |ids| ==> ids[i] != ids[j])
  }

  lemma ConsumeDefinitions(s: Registry, env: Env, e: Event, id: Uuid)
    ensures Consume(s, env, e, id).0.definitions <= s.definitions + {id}
  {
    if e.MetadataUpdated? {
      UpdateFieldsAll(s, e.id, Fields(e.name, e.topic, e.queryAddress, e.schemaType));
    }
  }

  /** From an equal start, every run of the master and the in-order replay of its events end alike: same
      names, topics, addresses, versions with their definitions, and views. No event is rejected. */
  lemma {:induction false} Convergence(m: Registry, s: Registry, env: Env, qs: seq<Request>, ids: seq<Uuid>,
                                       pool: set<Uuid>)
    requires Synced(m, s, pool) && Legal(m, env, qs, pool)
    requires FreshIds(s, ids, pool) && |ids| >= |qs|
    ensures var (m', events) := ServeAll(m, env, qs);
            && |events| <= |ids|
            && ConsumeAll(s, env, events, ids).1
            && Synced(m', ConsumeAll(s, env, events, ids).0, pool)
    decreases |qs|
  {
    if qs != [] {
      ServeConverges(m, s, env, qs[0], ids[0], pool);
      var reply := Serve(m, env, qs[0]);
      if reply.event.Some? {
        ConsumeDefinitions(s, env, reply.event.value, ids[0]);
        var s' := Consume(s, env, reply.event.value, ids[0]).0;
        Convergence(reply.registry, s', env, qs[1..], ids[1..], pool);
        var events := ServeAll(m, env, qs).1;
        assert events[1..] == ServeAll(reply.registry, env, qs[1..]).1;
      } else {
        Convergence(reply.registry, s, env, qs[1..], ids, pool);
      }
    }
  }

  // ----- Where a metadata update is not replicated -----

  /** The call would fail on its schema type after changing what the replicas share. */
  ghost predicate HalfDone(m: Registry, q: Request)
    requires q.UpdateMetadataRequest?
  {
    && !KnownType(q)
    && (q.topic.Some? ==> q.check.Exists?)
    && q.id in m.schemas
    && var was := m.schemas[q.id].schema;
       || (q.name.Some? && q.name.value != was.name)
       || (q.topic.Some? && q.topic.value != was.kafkaTopic)
       || (q.address.Some? && q.address.value != was.queryAddress)
  }

  ghost function AfterEvent(s: Registry, env: Env, event: Option<Event>, id: Uuid): Registry {
    match event
    case None => s
    case Some(e) => Consume(s, env, e, id).0
  }

  lemma {:induction false} AppliedInParts(s: Schema, a: seq<FieldUpdate>, b: seq<FieldUpdate>)
    ensures AppliedAll(s, a + b) == AppliedAll(AppliedAll(s, a), b)
    decreases |a|
  {
    if a == [] {
      assert a + b == b;
    } else {
      assert (a + b)[1..] == a[1..] + b;
      AppliedInParts(Applied(s, a[0]), a[1..], b);
    }
  }

  /** What the metadata calls make of a schema, field by field. */
  lemma AppliedFields(s: Schema, name: Option<string>, topic: Option<string>, address: Option<string>,
                      t: Option<SchemaType>)
    ensures AppliedAll(s, Fields(name, topic, address, t)) ==
            Schema(if name.Some? then name.value else s.name, if topic.Some? then topic.value else s.kafkaTopic,
                   if address.Some? then address.value else s.queryAddress, if t.Some? then t.value else s.schemaType)
  {
    var a := if name.Some? then [SetName(name.value)] else [];
    var b := if topic.Some? then [SetTopic(topic.value)] else [];
    var c := if address.Some? then [SetAddress(address.value)] else [];
    var d := if t.Some? then [SetType(t.value)] else [];
    AppliedInParts(s, a + b + c, d);
    AppliedInParts(s, a + b, c);
    AppliedInParts(s, a, b);
    assert AppliedAll(s, a) == if name.Some? then s.(name := name.value) else s;
  }

  /** A metadata update keeps master and slave alike exactly when it is not half done: an unknown schema
      type is refused only after the other fields are written, and then no event is emitted. */
  lemma MetadataConvergesIff(m: Registry, s: Registry, env: Env, q: Request, sDef: Uuid, pool: set<Uuid>)
    requires Synced(m, s, pool) && q.UpdateMetadataRequest?
    ensures var reply := Serve(m, env, q);
            Same(reply.registry, AfterEvent(s, env, reply.event, sDef)) <==> !HalfDone(m, q)
  {
    var reply := Serve(m, env, q);
    if KnownType(q) {
      UpdateMetadataConverges(m, s, env, q, sDef, pool);
    } else {
      UpdateFieldsAll(m, q.id, Fields(q.name, q.topic, q.address, None));
      if q.id in m.schemas {
        AppliedFields(m.schemas[q.id].schema, q.name, q.topic, q.address, None);
        assert SameRecord(m.schemas[q.id], s.schemas[q.id]);
        if Same(reply.registry, s) {
          assert SameRecord(reply.registry.schemas[q.id], s.schemas[q.id]);
        }
      }
    }
  }

  // ----- Schema types -----

  ghost predicate SameTypes(m: Registry, s: Registry) {
    forall id <- m.schemas :: id in s.schemas && m.schemas[id].schema.schemaType == s.schemas[id].schema.schemaType
  }

  /** The type a call leaves a schema of the master with. */
  function TypeAfter(m: Registry, q: Request, id: Uuid): SchemaType
    requires id in m.schemas
  {
    if q.UpdateMetadataRequest? && q.id == id && (q.topic.Some? ==> q.check.Exists?)
       && q.schemaType.Some? && FromI32(q.schemaType.value).Some?
    then FromI32(q.schemaType.value).value
    else m.schemas[id].schema.schemaType
  }

  lemma FieldsKeepTypes(r: Registry, to: Uuid, name: Option<string>, topic: Option<string>, address: Option<string>,
                        id: Uuid)
    requires id in r.schemas
    ensures var r' := UpdateFields(r, to, Fields(name, topic, address, None)).0;
            r'.schemas.Keys == r.schemas.Keys && r'.schemas[id].schema.schemaType == r.schemas[id].schema.schemaType
  {
    UpdateFieldsAll(r, to, Fields(name, topic, address, None));
    if to in r.schemas {
      AppliedFields(r.schemas[to].schema, name, topic, address, None);
    }
  }

  lemma MetadataType(m: Registry, q: Request, id: Uuid)
    requires q.UpdateMetadataRequest? && id in m.schemas
    ensures var r := UpdateMetadata(m, q).registry;
            r.schemas.Keys == m.schemas.Keys && r.schemas[id].schema.schemaType == TypeAfter(m, q, id)
  {
    FieldsKeepTypes(m, q.id, q.name, q.topic, q.address, id);
    UpdateFieldsAll(m, q.id, Fields(q.name, q.topic, q.address, None));
  }

  lemma MasterType(m: Registry, env: Env, q: Request, id: Uuid)
    requires Consistent(m) && id in m.schemas
    ensures var r := Serve(m, env, q).registry;
            id in r.schemas && r.schemas[id].schema.schemaType == TypeAfter(m, q, id)
  {
    if q.UpdateMetadataRequest? {
      MetadataType(m, q, id);
    }
  }

  lemma ConsumeKeepsType(s: Registry, env: Env, e: Event, sDef: Uuid, id: Uuid)
    requires id in s.schemas && (e.MetadataUpdated? ==> e.schemaType == None)
    ensures var s' := Consume(s, env, e, sDef).0;
            id in s'.schemas && s'.schemas[id].schema.schemaType == s.schemas[id].schema.schemaType
  {
    if e.MetadataUpdated? {
      FieldsKeepTypes(s, e.id, e.name, e.topic, e.queryAddress, id);
    }
  }

  lemma EventCarriesNoType(m: Registry, env: Env, q: Request)
    ensures var e := Serve(m, env, q).event; e.Some? && e.value.MetadataUpdated? ==> e.value.schemaType == None
  {
  }

  /** No event of a handler changes the type of a schema the slave has. */
  lemma SlaveType(m: Registry, s: Registry, env: Env, q: Request, sDef: Uuid, id: Uuid)
    requires id in s.schemas
    ensures var s' := AfterEvent(s, env, Serve(m, env, q).event, sDef);
            id in s'.schemas && s'.schemas[id].schema.schemaType == s.schemas[id].schema.schemaType
  {
    EventCarriesNoType(m, env, q);
    var e := Serve(m, env, q).event;
    if e.Some? {
      ConsumeKeepsType(s, env, e.value, sDef, id);
    }
  }

  /** A schema new to both has one type. */
  lemma NewType(m: Registry, s: Registry, env: Env, q: Request, sDef: Uuid, id: Uuid)
    requires id !in m.schemas && id !in s.schemas
    ensures var reply := Serve(m, env, q);
            var s' := AfterEvent(s, env, reply.event, sDef);
            id in reply.registry.schemas && id in s'.schemas ==>
              reply.registry.schemas[id].schema.schemaType == s'.schemas[id].schema.schemaType
  {
    if q.UpdateMetadataRequest? {
      UpdateFieldsAll(m, q.id, Fields(q.name, q.topic, q.address, None));
    }
  }

  /** After any call and its event master and slave are alike up to types exactly when no metadata update is
      half done. */
  lemma SameAfterIff(m: Registry, s: Registry, env: Env, q: Request, sDef: Uuid, pool: set<Uuid>)
    requires Synced(m, s, pool) && Permitted(m, q) && Outside(q, pool) && sDef in pool && sDef !in s.definitions
    ensures var reply := Serve(m, env, q);
            Same(reply.registry, AfterEvent(s, env, reply.event, sDef)) <==>
            (q.UpdateMetadataRequest? ==> !HalfDone(m, q))
  {
    if q.UpdateMetadataRequest? {
      MetadataConvergesIff(m, s, env, q, sDef, pool);
    } else {
      ServeConverges(m, s, env, q, sDef, pool);
    }
  }

  /** After any call and its event master and slave are alike including the schema types exactly when the
      call is not half done and leaves every schema of the master with the type the slave has for it. */
  lemma AlikeWithTypesIff(m: Registry, s: Registry, env: Env, q: Request, sDef: Uuid, pool: set<Uuid>)
    requires Synced(m, s, pool) && Permitted(m, q) && Outside(q, pool) && sDef in pool && sDef !in s.definitions
    ensures var reply := Serve(m, env, q);
            var s' := AfterEvent(s, env, reply.event, sDef);
            Same(reply.registry, s') && SameTypes(reply.registry, s') <==>
            && (q.UpdateMetadataRequest? ==> !HalfDone(m, q))
            && forall id <- m.schemas :: TypeAfter(m, q, id) == s.schemas[id].schema.schemaType
  {
    SameAfterIff(m, s, env, q, sDef, pool);
    var r, s' := Serve(m, env, q).registry, AfterEvent(s, env, Serve(m, env, q).event, sDef);
    forall id | id in m.schemas
      ensures id in r.schemas && r.schemas[id].schema.schemaType == TypeAfter(m, q, id)
      ensures id in s'.schemas && s'.schemas[id].schema.schemaType == s.schemas[id].schema.schemaType
    {
      MasterType(m, env, q, id);
      SlaveType(m, s, env, q, sDef, id);
    }
    if Same(r, s') {
      forall id | id in r.schemas && id !in m.schemas
        ensures r.schemas[id].schema.schemaType == s'.schemas[id].schema.schemaType
      {
        NewType(m, s, env, q, sDef, id);
      }
    }
  }

  /** A call that changes a schema's type on the master drives the replicas apart, whatever else it carries. */
  lemma SchemaTypeDiverges(m: Registry, s: Registry, env: Env, q: Request, sDef: Uuid, pool: set<Uuid>)
    requires Synced(m, s, pool) && SameTypes(m, s) && Permitted(m, q) && q.UpdateMetadataRequest?
    requires sDef in pool && sDef !in s.definitions
    ensures var reply := Serve(m, env, q);
            q.id in m.schemas && TypeAfter(m, q, q.id) != m.schemas[q.id].schema.schemaType <==>
            !SameTypes(reply.registry, AfterEvent(s, env, reply.event, sDef))
  {
    var r, s' := Serve(m, env, q).registry, AfterEvent(s, env, Serve(m, env, q).event, sDef);
    forall id | id in m.schemas
      ensures id in r.schemas && r.schemas[id].schema.schemaType == TypeAfter(m, q, id)
      ensures id in s'.schemas && s'.schemas[id].schema.schemaType == s.schemas[id].schema.schemaType
    {
      MasterType(m, env, q, id);
      SlaveType(m, s, env, q, sDef, id);
    }
    SameKeys(m, q);
  }

  lemma SameKeys(m: Registry, q: Request)
    requires q.UpdateMetadataRequest?
    ensures UpdateMetadata(m, q).registry.schemas.Keys == m.schemas.Keys
  {
    UpdateFieldsAll(m, q.id, Fields(q.name, q.topic, q.address, None));
  }

  // ----- Version discipline over runs -----

  lemma RenamedExtends(m: Registry, id: Uuid, schema: Schema)
    requires Consistent(m) && id in m.schemas
    ensures Consistent(Renamed(m, id, schema)) && Extends(m, Renamed(m, id, schema))
  {
    var m' := Renamed(m, id, schema);
    assert m'.schemas.Keys == m.schemas.Keys;
    assert forall x <- m.schemas :: m'.schemas[x].versions == m.schemas[x].versions;
  }

  lemma AddViewExtends(m: Registry, env: Env, schemaId: Uuid, view: View, viewId: Uuid)
    requires Consistent(m) && AddView(m, env, schemaId, view, viewId).Ok?
    ensures var m' := AddView(m, env, schemaId, view, viewId).value; Consistent(m') && Extends(m, m')
  {
    var m' := AddView(m, env, schemaId, view, viewId).value;
    assert m'.schemas.Keys == m.schemas.Keys;
    assert forall x <- m.schemas :: m'.schemas[x].versions == m.schemas[x].versions;
  }

  lemma UpdateFieldsExtends(m: Registry, id: Uuid, fs: seq<FieldUpdate>)
    requires Consistent(m)
    ensures Consistent(UpdateFields(m, id, fs).0) && Extends(m, UpdateFields(m, id, fs).0)
  {
    UpdateFieldsAll(m, id, fs);
    if id in m.schemas {
      RenamedExtends(m, id, AppliedAll(m.schemas[id].schema, fs));
    }
  }

  lemma UpdateMetadataExtends(m: Registry, q: Request)
    requires Consistent(m) && q.UpdateMetadataRequest?
    ensures Consistent(UpdateMetadata(m, q).registry) && Extends(m, UpdateMetadata(m, q).registry)
  {
    var fs := Fields(q.name, q.topic, q.address, None);
    UpdateFieldsExtends(m, q.id, fs);
    var m' := UpdateFields(m, q.id, fs).0;
    if KnownType(q) && q.schemaType.Some? {
      var f := SetType(FromI32(q.schemaType.value).value);
      if q.id in m'.schemas {
        RenamedExtends(m', q.id, Applied(m'.schemas[q.id].schema, f));
        ExtendsTransitive(m, m', Renamed(m', q.id, Applied(m'.schemas[q.id].schema, f)));
      }
    }
  }

  lemma ServeExtends(m: Registry, env: Env, q: Request)
    requires Consistent(m) && Permitted(m, q)
    ensures Consistent(Serve(m, env, q).registry) && Extends(m, Serve(m, env, q).registry)
  {
    match q
    case AddSchemaRequest(x, id, _, newId, definitionId) =>
      if AddSchema(m, env, x, Chosen(id, newId), definitionId).Ok? {
        AddSchemaExtends(m, env, x, Chosen(id, newId), definitionId);
      }
    case AddVersionRequest(id, v, definitionId) =>
      if AddVersion(m, env, id, v, definitionId).Ok? {
        AddVersionExtends(m, env, id, v, definitionId);
      }
    case UpdateMetadataRequest(_, _, _, _, _, _) => UpdateMetadataExtends(m, q);
    case AddViewRequest(parentId, view, viewId, newId) =>
      if AddView(m, env, parentId, view, Chosen(viewId, newId)).Ok? {
        AddViewExtends(m, env, parentId, view, Chosen(viewId, newId));
      }
    case UpdateViewRequest(_, _) =>
  }

  /** A run of a single node, whatever the schema types of its calls. */
  ghost predicate PermittedAll(m: Registry, env: Env, qs: seq<Request>)
    decreases |qs|
  {
    qs == [] || (Permitted(m, qs[0]) && PermittedAll(Serve(m, env, qs[0]).registry, env, qs[1..]))
  }

  lemma {:induction false} RunExtends(m: Registry, env: Env, qs: seq<Request>)
    requires Consistent(m) && PermittedAll(m, env, qs)
    ensures Consistent(ServeAll(m, env, qs).0) && Extends(m, ServeAll(m, env, qs).0)
    decreases |qs|
  {
    if qs != [] {
      var m' := Serve(m, env, qs[0]).registry;
      ServeExtends(m, env, qs[0]);
      RunExtends(m', env, qs[1..]);
      ExtendsTransitive(m, m', ServeAll(m', env, qs[1..]).0);
    }
  }

  /** In any run from an empty registry the versions of a schema never tie; going on with the run, the
      definitions on record stay as they are, later versions come after all earlier ones, and the latest
      match of a requirement never moves back. */
  lemma VersionDiscipline(env: Env, past: seq<Request>, more: seq<Request>, id: Uuid, req: VersionReq)
    requires PermittedAll(EmptyRegistry, env, past)
    requires PermittedAll(ServeAll(EmptyRegistry, env, past).0, env, more)
    requires id in ServeAll(EmptyRegistry, env, past).0.schemas
    ensures var r := ServeAll(EmptyRegistry, env, past).0;
            var r' := ServeAll(r, env, more).0;
            && NoTies(r.schemas[id].versions.Keys)
            && id in r'.schemas && Grows(r.schemas[id].versions, r'.schemas[id].versions)
            && var was, now := Latest(r.schemas[id].versions.Keys, req), Latest(r'.schemas[id].versions.Keys, req);
               was.Some? ==> now.Some? && (now == was || Before(was.value, now.value))
  {
    RunExtends(EmptyRegistry, env, past);
    var r := ServeAll(EmptyRegistry, env, past).0;
    RunExtends(r, env, more);
    var r' := ServeAll(r, env, more).0;
    assert Grows(r.schemas[id].versions, r'.schemas[id].versions);
    if Latest(r.schemas[id].versions.Keys, req).Some? {
      LatestNeverDecreases(r, r', id, req);
    }
  }
}
