/**
 The two ends of replication around the database: the master's handlers, which mutate and then emit, and
 the slave's consumer, which replays an event and then acknowledges it.
 */
module RegistryServer {
  import opened Wrappers
  import opened RegistryTypes
  import opened PropertyGraph
  import opened Refinement
  import opened Database
  import R = Registry
  import P = Replication

  datatype Role = Master | Slave | NoRole

  class ReplicationState {
    const role: Role
    /** What has been put into the channel to the master thread, once there is one. */
    var channel: Option<seq<P.Event>>
    /** The master thread still holds the receiving end. */
    var receiving: bool

    constructor (role: Role)
      ensures this.role == role && receiving
      ensures channel == if role.Master? then Some([]) else None
    {
      this.role, receiving := role, true;
      channel := if role.Master? then Some([]) else None;
    }

    /** The master thread returns and drops its end of the channel. */
    method StopReceiving()
      modifies this
      ensures !receiving && channel == old(channel)
    {
      receiving := false;
    }

    /** Only a master with a live channel sends; otherwise the event is dropped. */
    method ReplicateMessage(e: P.Event)
      modifies this
      ensures receiving == old(receiving)
      ensures channel == Emitted(role, old(channel), receiving, Some(e))
      ensures role.Master? && old(channel).Some? && receiving ==> SentLast(old(channel), channel, e)
      ensures !(role.Master? && old(channel).Some? && receiving) ==> channel == old(channel)
    {
      if role != Master {
        return;
      }
      if channel.Some? && receiving {
        channel := Some(channel.value + [e]);
      }
    }
  }

  function Emitted(role: Role, channel: Option<seq<P.Event>>, receiving: bool, e: Option<P.Event>)
    : Option<seq<P.Event>>
  {
    if role.Master? && channel.Some? && receiving && e.Some? then Some(channel.value + [e.value]) else channel
  }

  /** The event is behind everything sent before, which is still there in its order. */
  ghost predicate SentLast(was: Option<seq<P.Event>>, now: Option<seq<P.Event>>, e: P.Event) {
    && was.Some? && now.Some? && |now.value| == |was.value| + 1
    && was.value < now.value && now.value[|was.value|] == e
  }

  lemma EmittedLast(role: Role, channel: Option<seq<P.Event>>, receiving: bool, e: Option<P.Event>)
    ensures var now := Emitted(role, channel, receiving, e);
            if role.Master? && channel.Some? && receiving && e.Some? then SentLast(channel, now, e.value)
            else now == channel
  {
  }

  /** The call left the registry behind the graph, and answered, as the request should be served. */
  ghost predicate Serves(before: Graph, after: Graph, env: Env, q: P.Request, error: Option<RegistryError>) {
    && WellFormed(before) && WellFormed(after)
    && var reply := P.Serve(Abs(before), env, q);
       Abs(after) == reply.registry && error == reply.error
  }

  ghost function EventOf(before: Graph, env: Env, q: P.Request): Option<P.Event>
    requires WellFormed(before)
  {
    P.Serve(Abs(before), env, q).event
  }

  /** The fields of a metadata call and then its type. */
  lemma FieldsThenType(g: Graph, id: Uuid, name: Option<string>, topic: Option<string>, address: Option<string>,
                       t: Option<SchemaType>)
    ensures var fs := P.Fields(name, topic, address, None);
            SetFields(g, id, P.Fields(name, topic, address, t)) ==
            if t.Some? then SetField(SetFields(g, id, fs), id, SetType(t.value)) else SetFields(g, id, fs)
  {
    var fs := P.Fields(name, topic, address, None);
    if t.Some? {
      assert P.Fields(name, topic, address, t) == fs + [SetType(t.value)];
      SetInParts(g, id, fs, [SetType(t.value)]);
      var g1 := SetFields(g, id, fs);
      assert SetFields(g1, id, [SetType(t.value)]) == SetField(g1, id, SetType(t.value));
    }
  }

  /** The type update after the other fields, which `g1` has. */
  lemma TypeRefines(g1: Graph, id: Uuid, t: SchemaType)
    requires WellFormed(g1) && SchemaOrUnknown(g1, id)
    ensures WellFormed(SetField(g1, id, SetType(t)))
    ensures R.UpdateField(Abs(g1), id, SetType(t)) ==
            if id in g1.vertices then Ok(Abs(SetField(g1, id, SetType(t)))) else Err(NoSchemaWithId(id))
  {
    IdsAreVertices(g1);
    if id in g1.vertices {
      SetFieldRefines(g1, id, SetType(t));
    }
  }

  /** What serving a metadata request does, given the registry `r1` after its plain fields. */
  lemma MetadataServedBy(r: R.Registry, env: Env, q: P.Request, r1: R.Registry, failed: Option<RegistryError>)
    requires q.UpdateMetadataRequest? && (q.topic.Some? ==> q.check.Exists?)
    requires R.UpdateFields(r, q.id, P.Fields(q.name, q.topic, q.address, None)) == (r1, failed)
    ensures P.Serve(r, env, q) ==
            if failed.Some? then P.Reply(r1, failed, None)
            else if q.schemaType.None? then P.Reply(r1, None, Some(P.MetadataEvent(q)))
            else if P.FromI32(q.schemaType.value).None? then P.Reply(r1, Some(InvalidSchemaType), None)
            else
              P.Mutated(r1, R.UpdateField(r1, q.id, SetType(P.FromI32(q.schemaType.value).value)), P.MetadataEvent(q))
  {
  }

  lemma {:induction false} SetKeepsTypes(g: Graph, id: Uuid, fs: seq<FieldUpdate>, x: Uuid, t: VertexType)
    ensures HasType(SetFields(g, id, fs), x, t) <==> HasType(g, x, t)
    decreases |fs|
  {
    if fs != [] {
      SetKeepsTypes(SetField(g, id, fs[0]), id, fs[1..], x, t);
    }
  }

  /** The plain fields of a metadata call to a schema's or an unknown id, and what its type then does. */
  lemma MetadataRefines(g: Graph, env: Env, q: P.Request)
    requires WellFormed(g) && q.UpdateMetadataRequest? && SchemaOrUnknown(g, q.id)
    requires q.topic.Some? ==> q.check.Exists?
    ensures var fs := P.Fields(q.name, q.topic, q.address, None);
            var g1, r := SetFields(g, q.id, fs), P.Serve(Abs(g), env, q);
            && WellFormed(g1)
            && if q.id !in g.vertices && fs != [] then r == P.Reply(Abs(g1), Some(NoSchemaWithId(q.id)), None)
               else if q.schemaType.None? then r == P.Reply(Abs(g1), None, Some(P.MetadataEvent(q)))
               else
                 match P.FromI32(q.schemaType.value)
                 case None => r == P.Reply(Abs(g1), Some(InvalidSchemaType), None)
                 case Some(t) =>
                   var g2 := SetField(g1, q.id, SetType(t));
                   && WellFormed(g2)
                   && r == if q.id in g.vertices then P.Reply(Abs(g2), None, Some(P.MetadataEvent(q)))
                           else P.Reply(Abs(g1), Some(NoSchemaWithId(q.id)), None)
  {
    var fs := P.Fields(q.name, q.topic, q.address, None);
    var g1 := SetFields(g, q.id, fs);
    FieldsRefine(g, q.id, fs);
    SetNothing(g, q.id, fs);
    SetKeepsTypes(g, q.id, fs, q.id, SchemaVertex);
    var failed := R.UpdateFields(Abs(g), q.id, fs).1;
    MetadataServedBy(Abs(g), env, q, Abs(g1), failed);
    if q.schemaType.Some? && P.FromI32(q.schemaType.value).Some? {
      TypeRefines(g1, q.id, P.FromI32(q.schemaType.value).value);
    }
  }

  function One(f: Option<FieldUpdate>): seq<FieldUpdate> {
    if f.Some? then [f.value] else []
  }

  lemma {:induction false} SetInParts(g: Graph, id: Uuid, a: seq<FieldUpdate>, b: seq<FieldUpdate>)
    ensures SetFields(g, id, a + b) == SetFields(SetFields(g, id, a), id, b)
    decreases |a|
  {
    if a == [] {
      assert a + b == b;
    } else {
      assert (a + b)[1..] == a[1..] + b;
      SetInParts(SetField(g, id, a[0]), id, a[1..], b);
    }
  }

  lemma {:induction false} SetNothing(g: Graph, id: Uuid, fs: seq<FieldUpdate>)
    ensures id !in g.vertices ==> SetFields(g, id, fs) == g
    ensures SetFields(g, id, fs).vertices.Keys == g.vertices.Keys
    decreases |fs|
  {
    if fs != [] {
      SetNothing(SetField(g, id, fs[0]), id, fs[1..]);
    }
  }

  /** A series of metadata writes to a schema's or an unknown id is the series of updates of the registry. */
  lemma {:induction false} FieldsRefine(g: Graph, id: Uuid, fs: seq<FieldUpdate>)
    requires WellFormed(g) && SchemaOrUnknown(g, id)
    ensures WellFormed(SetFields(g, id, fs))
    ensures R.UpdateFields(Abs(g), id, fs) ==
            (Abs(SetFields(g, id, fs)), if id in g.vertices || fs == [] then None else Some(NoSchemaWithId(id)))
    decreases |fs|
  {
    IdsAreVertices(g);
    if id !in g.vertices {
      SetNothing(g, id, fs);
    } else if fs != [] {
      SetFieldRefines(g, id, fs[0]);
      FieldsRefine(SetField(g, id, fs[0]), id, fs[1..]);
    }
  }

  /** One of the optional metadata fields. */
  method UpdateOne(db: SchemaDb, id: Uuid, f: Option<FieldUpdate>) returns (r: Result<(), RegistryError>)
    modifies db.db
    ensures db.db.Contents() == SetFields(old(db.db.Contents()), id, One(f))
    ensures r.Ok? <==> id in old(db.db.vertices) || f.None?
    ensures r.Err? ==> r.error == NoSchemaWithId(id)
  {
    if f.None? {
      return Ok(());
    }
    r := db.UpdateSchema(id, f.value);
  }

  /** The name, the topic and the address, as both ends update them. */
  method UpdateGiven(db: SchemaDb, id: Uuid, name: Option<string>, topic: Option<string>, address: Option<string>)
    returns (r: Result<(), RegistryError>)
    modifies db.db
    ensures db.db.Contents() == SetFields(old(db.db.Contents()), id, P.Fields(name, topic, address, None))
    ensures r.Ok? <==> id in old(db.db.vertices) || P.Fields(name, topic, address, None) == []
    ensures r.Err? ==> r.error == NoSchemaWithId(id)
  {
    var a := if name.Some? then Some(SetName(name.value)) else None;
    var b := if topic.Some? then Some(SetTopic(topic.value)) else None;
    var c := if address.Some? then Some(SetAddress(address.value)) else None;
    ghost var g := db.db.Contents();
    assert P.Fields(name, topic, address, None) == One(a) + One(b) + One(c);
    SetInParts(g, id, One(a) + One(b), One(c));
    SetInParts(g, id, One(a), One(b));
    SetNothing(g, id, P.Fields(name, topic, address, None));
    SetNothing(g, id, One(a));
    SetNothing(g, id, One(a) + One(b));
    r := UpdateOne(db, id, a);
    if r.Err? {
      return;
    }
    r := UpdateOne(db, id, b);
    if r.Err? {
      return;
    }
    r := UpdateOne(db, id, c);
  }

  /** What a metadata call that passed the topic check answers. */
  function MetadataError(g: Graph, q: P.Request): Option<RegistryError>
    requires q.UpdateMetadataRequest?
  {
    var unknown := q.schemaType.Some? && P.FromI32(q.schemaType.value).None?;
    if q.id !in g.vertices && P.Fields(q.name, q.topic, q.address, None) != [] then Some(NoSchemaWithId(q.id))
    else if unknown then Some(InvalidSchemaType)
    else if q.id !in g.vertices && q.schemaType.Some? then Some(NoSchemaWithId(q.id))
    else None
  }

  function KnownTypeOf(q: P.Request): Option<SchemaType>
    requires q.UpdateMetadataRequest?
  {
    if q.schemaType.Some? then P.FromI32(q.schemaType.value) else None
  }

  /** The fields, then the type, which is parsed only after the fields are written. */
  method UpdateAll(db: SchemaDb, q: P.Request) returns (r: Result<(), RegistryError>)
    requires q.UpdateMetadataRequest?
    modifies db.db
    ensures db.db.Contents() ==
            SetFields(old(db.db.Contents()), q.id, P.Fields(q.name, q.topic, q.address, KnownTypeOf(q)))
    ensures ErrorOf(r) == MetadataError(old(db.db.Contents()), q)
  {
    ghost var g := db.db.Contents();
    FieldsThenType(g, q.id, q.name, q.topic, q.address, KnownTypeOf(q));
    SetNothing(g, q.id, P.Fields(q.name, q.topic, q.address, None));
    SetNothing(g, q.id, P.Fields(q.name, q.topic, q.address, KnownTypeOf(q)));
    r := UpdateGiven(db, q.id, q.name, q.topic, q.address);
    if r.Err? {
      return;
    }
    if q.schemaType.Some? {
      var t := P.FromI32(q.schemaType.value);
      if t.None? {
        return Err(InvalidSchemaType);
      }
      r := db.UpdateSchema(q.id, SetType(t.value));
    }
  }

  /** For a schema's or an unknown id that is serving the request. */
  lemma UpdateAllServes(g: Graph, env: Env, q: P.Request)
    requires WellFormed(g) && q.UpdateMetadataRequest? && SchemaOrUnknown(g, q.id)
    requires q.topic.Some? ==> q.check.Exists?
    ensures var g' := SetFields(g, q.id, P.Fields(q.name, q.topic, q.address, KnownTypeOf(q)));
            && Serves(g, g', env, q, MetadataError(g, q))
            && EventOf(g, env, q) == if MetadataError(g, q).None? then Some(P.MetadataEvent(q)) else None
  {
    MetadataRefines(g, env, q);
    FieldsThenType(g, q.id, q.name, q.topic, q.address, KnownTypeOf(q));
    SetNothing(g, q.id, P.Fields(q.name, q.topic, q.address, None));
    SetNothing(g, q.id, P.Fields(q.name, q.topic, q.address, KnownTypeOf(q)));
  }

  /** A database call that does what the operation says serves a request for that operation. */
  lemma CallServes(g: Graph, g': Graph, env: Env, q: P.Request, op: Result<R.Registry, RegistryError>, e: P.Event,
                   error: Option<RegistryError>)
    requires WellFormed(g) && P.Serve(Abs(g), env, q) == P.Mutated(Abs(g), op, e) && Refines(g, g', op, error)
    ensures Serves(g, g', env, q, error)
    ensures EventOf(g, env, q) == if error.None? then Some(e) else None
  {
  }

  lemma AddViewServes(g: Graph, g': Graph, env: Env, schemaId: Uuid, view: View, viewId: Option<Uuid>, newId: Uuid,
                      error: Option<RegistryError>)
    requires WellFormed(g) && Refines(g, g', R.AddView(Abs(g), env, schemaId, view, P.Chosen(viewId, newId)), error)
    ensures Serves(g, g', env, P.AddViewRequest(schemaId, view, viewId, newId), error)
    ensures EventOf(g, env, P.AddViewRequest(schemaId, view, viewId, newId)) ==
            if error.None? then Some(P.ViewAdded(schemaId, view, P.Chosen(viewId, newId))) else None
  {
    CallServes(g, g', env, P.AddViewRequest(schemaId, view, viewId, newId),
               R.AddView(Abs(g), env, schemaId, view, P.Chosen(viewId, newId)),
               P.ViewAdded(schemaId, view, P.Chosen(viewId, newId)), error);
  }

  class SchemaRegistry {
    const db: SchemaDb
    const replication: ReplicationState

    constructor (db: SchemaDb, replication: ReplicationState)
      ensures this.db == db && this.replication == replication
    {
      this.db, this.replication := db, replication;
    }

    method AddSchema(schema: NewSchema, schemaId: Option<Uuid>, check: P.TopicCheck, newId: Uuid, definitionId: Uuid)
      returns (r: Result<Uuid, RegistryError>)
      requires WellFormed(db.db.Contents())
      requires (schemaId.None? ==> newId !in db.db.vertices) && definitionId !in db.db.vertices
      requires definitionId != P.Chosen(schemaId, newId)
      modifies db.db, replication
      ensures var q := P.AddSchemaRequest(schema, schemaId, check, newId, definitionId);
              && Serves(old(db.db.Contents()), db.db.Contents(), db.env, q, ErrorOf(r))
              && Emits(replication, old(replication.channel), EventOf(old(db.db.Contents()), db.env, q))
      ensures var g, id := old(db.db.Contents()), if schemaId.Some? then schemaId.value else newId;
              var full := R.BuildFullSchema(Abs(g), db.env, schema.definition);
              && ErrorOf(r) == (if check.Unavailable? then Some(MQError)
                                else if check.Missing? then Some(NoTopic(schema.schema.kafkaTopic))
                                else if full.Err? then Some(full.error)
                                else if id in g.vertices then Some(DuplicatedUuid(id)) else None)
              && (r.Ok? ==> r.value == id)
              && db.db.Contents() ==
                 (if r.Ok? then WithSchemaVertex(g, schema.schema, id, definitionId, full.value) else g)
              && Emits(replication, old(replication.channel), if r.Ok? then Some(P.SchemaAdded(schema, id)) else None)
      ensures replication.receiving == old(replication.receiving)
    {
      if check.Unavailable? {
        return Err(MQError);
      }
      if check.Missing? {
        return Err(NoTopic(schema.schema.kafkaTopic));
      }
      r := db.AddSchema(schema, schemaId, newId, definitionId);
      if r.Err? {
        return;
      }
      replication.ReplicateMessage(P.SchemaAdded(schema, r.value));
    }

    method AddSchemaVersion(id: Uuid, v: NewSchemaVersion, definitionId: Uuid) returns (r: Result<(), RegistryError>)
      requires WellFormed(db.db.Contents()) && definitionId !in db.db.vertices
      modifies db.db, replication
      ensures SchemaOrUnknown(old(db.db.Contents()), id) ==>
                var q := P.AddVersionRequest(id, v, definitionId);
                && Serves(old(db.db.Contents()), db.db.Contents(), db.env, q, ErrorOf(r))
                && Emits(replication, old(replication.channel), EventOf(old(db.db.Contents()), db.env, q))
      ensures var g := old(db.db.Contents());
              var full := R.BuildFullSchema(Abs(g), db.env, v.definition);
              && (r.Ok? <==> id in g.vertices && Newest(VersionsOf(g, id).Keys, v.version) && full.Ok?)
              && db.db.Contents() == (if r.Ok? then WithDefinition(g, id, v.version, definitionId, full.value) else g)
      ensures Emits(replication, old(replication.channel), if r.Ok? then Some(P.VersionAdded(id, v)) else None)
      ensures replication.receiving == old(replication.receiving)
    {
      ghost var g := db.db.Contents();
      r := db.AddNewVersionOfSchema(id, v, definitionId);
      if SchemaOrUnknown(g, id) {
        CallServes(g, db.db.Contents(), db.env, P.AddVersionRequest(id, v, definitionId),
                   R.AddVersion(Abs(g), db.env, id, v, definitionId), P.VersionAdded(id, v), ErrorOf(r));
      }
      if r.Err? {
        return;
      }
      replication.ReplicateMessage(P.VersionAdded(id, v));
    }

    /** The schema type is parsed only after the other fields are written, and is never sent on. */
    method UpdateSchemaMetadata(id: Uuid, name: Option<string>, topic: Option<string>, address: Option<string>,
                                schemaType: Option<int>, check: P.TopicCheck)
      returns (r: Result<(), RegistryError>)
      requires WellFormed(db.db.Contents())
      modifies db.db, replication
      ensures SchemaOrUnknown(old(db.db.Contents()), id) ==>
                var q := P.UpdateMetadataRequest(id, name, topic, address, schemaType, check);
                && Serves(old(db.db.Contents()), db.db.Contents(), db.env, q, ErrorOf(r))
                && Emits(replication, old(replication.channel), EventOf(old(db.db.Contents()), db.env, q))
      ensures var g := old(db.db.Contents());
              var q := P.UpdateMetadataRequest(id, name, topic, address, schemaType, check);
              var noTopic := if topic.Some? then P.TopicError(check, topic.value) else None;
              var fs := P.Fields(name, topic, address, KnownTypeOf(q));
              && ErrorOf(r) == (if noTopic.Some? then noTopic else MetadataError(g, q))
              && db.db.Contents() == (if noTopic.Some? then g else SetFields(g, id, fs))
      ensures Emits(replication, old(replication.channel),
                    if r.Ok? then Some(P.MetadataUpdated(id, name, topic, address, None)) else None)
      ensures replication.receiving == old(replication.receiving)
    {
      var q := P.UpdateMetadataRequest(id, name, topic, address, schemaType, check);
      if topic.Some? {
        if check.Unavailable? {
          return Err(MQError);
        }
        if check.Missing? {
          return Err(NoTopic(topic.value));
        }
      }
      if SchemaOrUnknown(db.db.Contents(), id) {
        UpdateAllServes(db.db.Contents(), db.env, q);
      }
      r := UpdateAll(db, q);
      if r.Err? {
        return;
      }
      replication.ReplicateMessage(P.MetadataUpdated(id, name, topic, address, None));
    }

    method AddViewToSchema(schemaId: Uuid, view: View, viewId: Option<Uuid>, newId: Uuid)
      returns (r: Result<Uuid, RegistryError>)
      requires WellFormed(db.db.Contents()) && (viewId.None? ==> newId !in db.db.vertices)
      modifies db.db, replication
      ensures SchemaOrUnknown(old(db.db.Contents()), schemaId) ==>
                var q := P.AddViewRequest(schemaId, view, viewId, newId);
                && Serves(old(db.db.Contents()), db.db.Contents(), db.env, q, ErrorOf(r))
                && Emits(replication, old(replication.channel), EventOf(old(db.db.Contents()), db.env, q))
      ensures var g, id := old(db.db.Contents()), if viewId.Some? then viewId.value else newId;
              && (r.Ok? <==> schemaId in g.vertices && db.env.validView(view.jmespath) && id !in g.vertices)
              && (r.Ok? ==> r.value == id)
              && db.db.Contents() == (if r.Ok? then WithViewVertex(g, schemaId, view, id) else g)
              && Emits(replication, old(replication.channel),
                       if r.Ok? then Some(P.ViewAdded(schemaId, view, id)) else None)
      ensures replication.receiving == old(replication.receiving)
    {
      ghost var g := db.db.Contents();
      r := db.AddViewToSchema(schemaId, view, viewId, newId);
      if SchemaOrUnknown(g, schemaId) {
        AddViewServes(g, db.db.Contents(), db.env, schemaId, view, viewId, newId, ErrorOf(r));
      }
      if r.Err? {
        return;
      }
      replication.ReplicateMessage(P.ViewAdded(schemaId, view, r.value));
    }

    /** The caller is told the view as it was before. */
    method UpdateView(id: Uuid, u: ViewUpdate) returns (r: Result<View, RegistryError>)
      requires WellFormed(db.db.Contents())
      modifies db.db, replication
      ensures var q := P.UpdateViewRequest(id, u);
              && Serves(old(db.db.Contents()), db.db.Contents(), db.env, q, ErrorOf(r))
              && Emits(replication, old(replication.channel), EventOf(old(db.db.Contents()), db.env, q))
      ensures replication.receiving == old(replication.receiving)
      ensures var g := old(db.db.Contents());
              && ErrorOf(r) == (if !HasType(g, id, ViewVertex) then Some(NoViewWithId(id))
                                else if u.jmespath.Some? && !db.env.validView(u.jmespath.value) then Some(InvalidView)
                                else None)
              && db.db.Contents() == (if r.Ok? then WithView(g, id, u) else g)
              && Emits(replication, old(replication.channel), if r.Ok? then Some(P.ViewUpdated(id, u)) else None)
      ensures r.Ok? ==> id in Abs(old(db.db.Contents())).views && r.value == Abs(old(db.db.Contents())).views[id]
    {
      ghost var g := db.db.Contents();
      r := db.UpdateView(id, u);
      CallServes(g, db.db.Contents(), db.env, P.UpdateViewRequest(id, u), R.UpdateView(Abs(g), db.env, id, u),
                 P.ViewUpdated(id, u), ErrorOf(r));
      if r.Err? {
        return;
      }
      replication.ReplicateMessage(P.ViewUpdated(id, u));
    }
  }

  /** What has been sent is what had been, and the event if there is one to send. */
  ghost predicate Emits(replication: ReplicationState, was: Option<seq<P.Event>>, e: Option<P.Event>)
    reads replication
  {
    replication.channel == Emitted(replication.role, was, replication.receiving, e)
  }

  // ----- The slave -----

  /** The slave's generated id is new, and a schema's id that is used is that of a schema or unknown. */
  ghost predicate Acceptable(r: R.Registry, e: P.Event, definitionId: Uuid) {
    && definitionId !in R.Ids(r)
    && match e
       case SchemaAdded(_, id) => definitionId != id
       case VersionAdded(id, _) => P.SchemaOrUnknown(r, id)
       case MetadataUpdated(id, name, topic, address, t) =>
         name.Some? || topic.Some? || address.Some? || t.Some? ==> P.SchemaOrUnknown(r, id)
       case ViewAdded(schemaId, _, _) => P.SchemaOrUnknown(r, schemaId)
       case ViewUpdated(_, _) => true
  }

  /** Replays one event; it is acknowledged only if every call succeeded. */
  method ConsumeMessage(db: SchemaDb, e: P.Event, definitionId: Uuid)
    returns (acknowledged: bool, error: Option<RegistryError>)
    requires WellFormed(db.db.Contents()) && Acceptable(Abs(db.db.Contents()), e, definitionId)
    modifies db.db
    ensures WellFormed(db.db.Contents())
    ensures (Abs(db.db.Contents()), error) == P.Consume(Abs(old(db.db.Contents())), db.env, e, definitionId)
    ensures acknowledged <==> error == None
  {
    IdsAreVertices(db.db.Contents());
    match e {
      case SchemaAdded(schema, id) =>
        var r := db.AddSchema(schema, Some(id), definitionId, definitionId);
        error := ErrorOf(r);
      case VersionAdded(id, v) =>
        var r := db.AddNewVersionOfSchema(id, v, definitionId);
        error := ErrorOf(r);
      case ViewAdded(schemaId, view, viewId) =>
        var r := db.AddViewToSchema(schemaId, view, Some(viewId), viewId);
        error := ErrorOf(r);
      case MetadataUpdated(id, name, topic, address, t) =>
        var f := if t.Some? then Some(SetType(t.value)) else None;
        ghost var g := db.db.Contents();
        assert P.Fields(name, topic, address, t) == P.Fields(name, topic, address, None) + One(f);
        SetInParts(g, id, P.Fields(name, topic, address, None), One(f));
        SetNothing(g, id, P.Fields(name, topic, address, None));
        SetNothing(g, id, P.Fields(name, topic, address, t));
        if P.Fields(name, topic, address, t) != [] {
          FieldsRefine(g, id, P.Fields(name, topic, address, t));
        }
        var r := UpdateGiven(db, id, name, topic, address);
        if r.Ok? {
          r := UpdateOne(db, id, f);
        }
        error := ErrorOf(r);
      case ViewUpdated(id, u) =>
        var r := db.UpdateView(id, u);
        error := ErrorOf(r);
    }
    acknowledged := error.None?;
  }

  ghost predicate AcceptableAll(r: R.Registry, env: Env, events: seq<P.Event>, ids: seq<Uuid>)
    requires |events| <= |ids|
    decreases |events|
  {
    events == [] ||
    (Acceptable(r, events[0], ids[0])
     && AcceptableAll(P.Consume(r, env, events[0], ids[0]).0, env, events[1..], ids[1..]))
  }

  /** The consumer's loop: an event that fails is logged, and the next one is consumed. */
  method ConsumeMq(db: SchemaDb, events: seq<P.Event>, ids: seq<Uuid>) returns (acknowledgedAll: bool)
    requires |events| <= |ids| && WellFormed(db.db.Contents())
    requires AcceptableAll(Abs(db.db.Contents()), db.env, events, ids)
    modifies db.db
    ensures WellFormed(db.db.Contents())
    ensures (Abs(db.db.Contents()), acknowledgedAll) == P.ConsumeAll(Abs(old(db.db.Contents())), db.env, events, ids)
  {
    acknowledgedAll := true;
    ghost var all := P.ConsumeAll(Abs(db.db.Contents()), db.env, events, ids);
    for i := 0 to |events|
      invariant WellFormed(db.db.Contents())
      invariant AcceptableAll(Abs(db.db.Contents()), db.env, events[i..], ids[i..])
      invariant var rest := P.ConsumeAll(Abs(db.db.Contents()), db.env, events[i..], ids[i..]);
                all == (rest.0, acknowledgedAll && rest.1)
    {
      assert events[i..][1..] == events[i + 1..] && ids[i..][1..] == ids[i + 1..];
      var acknowledged, _ := ConsumeMessage(db, events[i], ids[i]);
      acknowledgedAll := acknowledgedAll && acknowledged;
    }
  }

  lemma EventAcceptable(m: R.Registry, s: R.Registry, env: Env, q: P.Request, id: Uuid, pool: set<Uuid>)
    requires P.Synced(m, s, pool) && P.Permitted(m, q) && P.KnownType(q) && P.Outside(q, pool)
    requires id in pool && id !in s.definitions && P.Serve(m, env, q).event.Some?
    ensures Acceptable(s, P.Serve(m, env, q).event.value, id)
  {
    if q.UpdateMetadataRequest? {
      P.MetadataServed(m, q);
    }
  }

  /** Whatever a master emits in a permitted run, a slave that started equal can consume. */
  lemma {:induction false} EventsAcceptable(m: R.Registry, s: R.Registry, env: Env, qs: seq<P.Request>, ids: seq<Uuid>,
                                            pool: set<Uuid>)
    requires P.Synced(m, s, pool) && P.Legal(m, env, qs, pool)
    requires P.FreshIds(s, ids, pool) && |ids| >= |qs|
    ensures |P.ServeAll(m, env, qs).1| <= |ids|
    ensures AcceptableAll(s, env, P.ServeAll(m, env, qs).1, ids)
    decreases |qs|
  {
    if qs != [] {
      P.ServeConverges(m, s, env, qs[0], ids[0], pool);
      var reply := P.Serve(m, env, qs[0]);
      if reply.event.Some? {
        EventAcceptable(m, s, env, qs[0], ids[0], pool);
        P.ConsumeDefinitions(s, env, reply.event.value, ids[0]);
        EventsAcceptable(reply.registry, P.Consume(s, env, reply.event.value, ids[0]).0, env, qs[1..], ids[1..], pool);
        var events := P.ServeAll(m, env, qs).1;
        assert events[1..] == P.ServeAll(reply.registry, env, qs[1..]).1;
      } else {
        EventsAcceptable(reply.registry, s, env, qs[1..], ids, pool);
      }
    }
  }

  /** A slave's database that started equal to the master's and consumes what a run of the master emitted
      ends equal, whatever its own graph looks like; every event is acknowledged. */
  method Follow(db: SchemaDb, ghost m: R.Registry, ghost qs: seq<P.Request>, events: seq<P.Event>, ids: seq<Uuid>,
                ghost pool: set<Uuid>)
    returns (acknowledgedAll: bool)
    requires WellFormed(db.db.Contents()) && P.Synced(m, Abs(db.db.Contents()), pool)
    requires P.Legal(m, db.env, qs, pool) && events == P.ServeAll(m, db.env, qs).1
    requires P.FreshIds(Abs(db.db.Contents()), ids, pool) && |ids| >= |qs|
    modifies db.db
    ensures acknowledgedAll && WellFormed(db.db.Contents())
    ensures P.Synced(P.ServeAll(m, db.env, qs).0, Abs(db.db.Contents()), pool)
  {
    EventsAcceptable(m, Abs(db.db.Contents()), db.env, qs, ids, pool);
    P.Convergence(m, Abs(db.db.Contents()), db.env, qs, ids, pool);
    acknowledgedAll := ConsumeMq(db, events, ids);
  }

  // ----- A run of the master and its slave -----

  lemma SchemaOrUnknownAgree(g: Graph, id: Uuid)
    requires WellFormed(g)
    ensures SchemaOrUnknown(g, id) <==> P.SchemaOrUnknown(Abs(g), id)
  {
    IdsAreVertices(g);
  }

  /** One call, whichever it is. */
  method Dispatch(node: SchemaRegistry, q: P.Request) returns (error: Option<RegistryError>)
    requires WellFormed(node.db.db.Contents()) && P.Permitted(Abs(node.db.db.Contents()), q)
    modifies node.db.db, node.replication
    ensures Serves(old(node.db.db.Contents()), node.db.db.Contents(), node.db.env, q, error)
    ensures Emits(node.replication, old(node.replication.channel), EventOf(old(node.db.db.Contents()), node.db.env, q))
    ensures node.replication.receiving == old(node.replication.receiving)
  {
    IdsAreVertices(node.db.db.Contents());
    match q {
      case AddSchemaRequest(schema, id, check, newId, definitionId) =>
        var r := node.AddSchema(schema, id, check, newId, definitionId);
        error := ErrorOf(r);
      case AddVersionRequest(id, v, definitionId) =>
        SchemaOrUnknownAgree(node.db.db.Contents(), id);
        var r := node.AddSchemaVersion(id, v, definitionId);
        error := ErrorOf(r);
      case UpdateMetadataRequest(id, name, topic, address, schemaType, check) =>
        SchemaOrUnknownAgree(node.db.db.Contents(), id);
        var r := node.UpdateSchemaMetadata(id, name, topic, address, schemaType, check);
        error := ErrorOf(r);
      case AddViewRequest(schemaId, view, viewId, newId) =>
        SchemaOrUnknownAgree(node.db.db.Contents(), schemaId);
        var r := node.AddViewToSchema(schemaId, view, viewId, newId);
        error := ErrorOf(r);
      case UpdateViewRequest(id, u) =>
        var r := node.UpdateView(id, u);
        error := ErrorOf(r);
    }
  }

  /** A run of calls on a master with a live channel: behind what the channel held come the events of the run, in
      the order of the calls. */
  method ServeRun(node: SchemaRegistry, qs: seq<P.Request>)
    requires WellFormed(node.db.db.Contents()) && P.PermittedAll(Abs(node.db.db.Contents()), node.db.env, qs)
    requires node.replication.role.Master? && node.replication.channel.Some? && node.replication.receiving
    modifies node.db.db, node.replication
    ensures WellFormed(node.db.db.Contents()) && node.replication.receiving && node.replication.channel.Some?
    ensures var run := P.ServeAll(Abs(old(node.db.db.Contents())), node.db.env, qs);
            && Abs(node.db.db.Contents()) == run.0
            && node.replication.channel.value == old(node.replication.channel.value) + run.1
  {
    ghost var run := P.ServeAll(Abs(node.db.db.Contents()), node.db.env, qs);
    ghost var sent := node.replication.channel.value;
    for i := 0 to |qs|
      invariant WellFormed(node.db.db.Contents())
      invariant node.replication.receiving && node.replication.channel.Some?
      invariant P.PermittedAll(Abs(node.db.db.Contents()), node.db.env, qs[i..])
      invariant var rest := P.ServeAll(Abs(node.db.db.Contents()), node.db.env, qs[i..]);
                run.0 == rest.0 && sent + run.1 == node.replication.channel.value + rest.1
    {
      assert qs[i..][0] == qs[i] && qs[i..][1..] == qs[i + 1..];
      ghost var r, was := Abs(node.db.db.Contents()), node.replication.channel;
      ServeFirst(r, node.db.env, qs[i..]);
      var _ := Dispatch(node, qs[i]);
      EmittedLast(Master, was, true, P.Serve(r, node.db.env, qs[i]).event);
      ghost var rest := P.ServeAll(Abs(node.db.db.Contents()), node.db.env, qs[i + 1..]).1;
      SentThenRest(was, node.replication.channel, P.Serve(r, node.db.env, qs[i]).event, rest);
    }
    assert qs[|qs|..] == [];
    assert P.ServeAll(Abs(node.db.db.Contents()), node.db.env, []).1 == [];
    assert node.replication.channel.value + [] == node.replication.channel.value;
  }

  lemma ServeFirst(r: R.Registry, env: Env, qs: seq<P.Request>)
    requires qs != []
    ensures var reply := P.Serve(r, env, qs[0]);
            var rest := P.ServeAll(reply.registry, env, qs[1..]);
            P.ServeAll(r, env, qs) == (rest.0, if reply.event.Some? then [reply.event.value] + rest.1 else rest.1)
  {
  }

  lemma SentThenRest(was: Option<seq<P.Event>>, now: Option<seq<P.Event>>, e: Option<P.Event>, rest: seq<P.Event>)
    requires was.Some? && if e.Some? then SentLast(was, now, e.value) else now == was
    ensures now.value + rest == was.value + if e.Some? then [e.value] + rest else rest
  {
    if e.Some? {
      assert now.value == was.value + [e.value];
    }
  }

  lemma {:induction false} LegalPermitted(m: R.Registry, env: Env, qs: seq<P.Request>, pool: set<Uuid>)
    requires P.Legal(m, env, qs, pool)
    ensures P.PermittedAll(m, env, qs)
    decreases |qs|
  {
    if qs != [] {
      LegalPermitted(P.Serve(m, env, qs[0]).registry, env, qs[1..], pool);
    }
  }

  /** A slave that starts equal to a master and consumes what the master's handlers really sent, in that order,
      ends equal to it, every event acknowledged. */
  method Replicate(master: SchemaRegistry, slave: SchemaDb, qs: seq<P.Request>, ids: seq<Uuid>, ghost pool: set<Uuid>)
    returns (acknowledgedAll: bool)
    requires master.db.db != slave.db && master.db.env == slave.env
    requires WellFormed(master.db.db.Contents()) && WellFormed(slave.db.Contents())
    requires P.Synced(Abs(master.db.db.Contents()), Abs(slave.db.Contents()), pool)
    requires P.Legal(Abs(master.db.db.Contents()), slave.env, qs, pool)
    requires P.FreshIds(Abs(slave.db.Contents()), ids, pool) && |ids| >= |qs|
    requires master.replication.role.Master? && master.replication.channel == Some([]) && master.replication.receiving
    modifies master.db.db, master.replication, slave.db
    ensures acknowledgedAll && WellFormed(master.db.db.Contents()) && WellFormed(slave.db.Contents())
    ensures P.Synced(Abs(master.db.db.Contents()), Abs(slave.db.Contents()), pool)
  {
    ghost var m := Abs(master.db.db.Contents());
    LegalPermitted(m, slave.env, qs, pool);
    ServeRun(master, qs);
    var sent := master.replication.channel.value;
    assert sent == P.ServeAll(m, slave.env, qs).1;
    acknowledgedAll := Follow(slave, m, qs, sent, ids, pool);
  }
}
