/**
 Redelivery: a slave that has applied a log in order may see any suffix of it again.
 */
module Replay {
  import opened Wrappers
  import opened Semver
  import opened RegistryTypes
  import opened R = Registry
  import opened Replication

  /** The places an update event may write: a schema's fields and a view's. */
  datatype Slot = NameOf(id: Uuid) | TopicOf(id: Uuid) | AddressOf(id: Uuid) | TypeOf(id: Uuid)
                | ViewNameOf(id: Uuid) | ExpressionOf(id: Uuid)

  datatype Content = Text(s: string) | Kind(t: SchemaType)

  ghost function Read(r: Registry, slot: Slot): Option<Content> {
    match slot
    case NameOf(id) => if id in r.schemas then Some(Text(r.schemas[id].schema.name)) else None
    case TopicOf(id) => if id in r.schemas then Some(Text(r.schemas[id].schema.kafkaTopic)) else None
    case AddressOf(id) => if id in r.schemas then Some(Text(r.schemas[id].schema.queryAddress)) else None
    case TypeOf(id) => if id in r.schemas then Some(Kind(r.schemas[id].schema.schemaType)) else None
    case ViewNameOf(id) => if id in r.views then Some(Text(r.views[id].name)) else None
    case ExpressionOf(id) => if id in r.views then Some(Text(r.views[id].jmespath)) else None
  }

  /** What an update event puts in a slot, if anything. */
  ghost function Written(e: Event, slot: Slot): Option<Content> {
    match e
    case MetadataUpdated(id, name, topic, address, t) =>
      (match slot
       case NameOf(x) => if x == id && name.Some? then Some(Text(name.value)) else None
       case TopicOf(x) => if x == id && topic.Some? then Some(Text(topic.value)) else None
       case AddressOf(x) => if x == id && address.Some? then Some(Text(address.value)) else None
       case TypeOf(x) => if x == id && t.Some? then Some(Kind(t.value)) else None
       case _ => None)
    case ViewUpdated(id, u) =>
      (match slot
       case ViewNameOf(x) => if x == id && u.name.Some? then Some(Text(u.name.value)) else None
       case ExpressionOf(x) => if x == id && u.jmespath.Some? then Some(Text(u.jmespath.value)) else None
       case _ => None)
    case _ => None
  }

  ghost function Or(a: Option<Content>, b: Option<Content>): Option<Content> {
    if a.Some? then a else b
  }

  /** What the last event writing the slot puts there. */
  ghost function LastWritten(events: seq<Event>, slot: Slot): Option<Content>
    decreases |events|
  {
    if events == [] then None else Or(LastWritten(events[1..], slot), Written(events[0], slot))
  }

  /** Two registries that differ at most in slots. */
  ghost predicate SameSkeleton(a: Registry, b: Registry) {
    && a.schemas.Keys == b.schemas.Keys
    && (forall id <- a.schemas :: a.schemas[id].versions == b.schemas[id].versions
                                  && a.schemas[id].views == b.schemas[id].views)
    && a.views.Keys == b.views.Keys
    && a.definitions == b.definitions
  }

  lemma SlotsDecide(a: Registry, b: Registry)
    requires SameSkeleton(a, b) && forall slot :: Read(a, slot) == Read(b, slot)
    ensures a == b
  {
    forall id | id in a.schemas ensures a.schemas[id] == b.schemas[id] {
      assert Read(a, NameOf(id)) == Read(b, NameOf(id));
      assert Read(a, TopicOf(id)) == Read(b, TopicOf(id));
      assert Read(a, AddressOf(id)) == Read(b, AddressOf(id));
      assert Read(a, TypeOf(id)) == Read(b, TypeOf(id));
    }
    forall id | id in a.views ensures a.views[id] == b.views[id] {
      assert Read(a, ViewNameOf(id)) == Read(b, ViewNameOf(id));
      assert Read(a, ExpressionOf(id)) == Read(b, ExpressionOf(id));
    }
    assert a.schemas == b.schemas && a.views == b.views;
  }

  /** The event has nothing left to add: what it would create is there, what it would update exists. */
  ghost predicate Absorbed(r: Registry, env: Env, e: Event) {
    match e
    case SchemaAdded(_, id) => id in r.schemas
    case VersionAdded(id, v) => id in r.schemas && v.version in r.schemas[id].versions
    case MetadataUpdated(id, name, topic, address, t) =>
      id in r.schemas || Fields(name, topic, address, t) == []
    case ViewAdded(schemaId, _, viewId) => schemaId in r.schemas && viewId in r.views
    case ViewUpdated(id, u) => id in r.views && (u.jmespath.Some? ==> env.validView(u.jmespath.value))
  }

  lemma NoFields(name: Option<string>, topic: Option<string>, address: Option<string>, t: Option<SchemaType>)
    ensures Fields(name, topic, address, t) == [] <==> name.None? && topic.None? && address.None? && t.None?
  {
  }

  lemma RenamedSlots(r: Registry, id: Uuid, schema: Schema)
    requires id in r.schemas
    ensures SameSkeleton(r, Renamed(r, id, schema))
    ensures forall slot :: Read(Renamed(r, id, schema), slot) ==
              if slot == NameOf(id) then Some(Text(schema.name))
              else if slot == TopicOf(id) then Some(Text(schema.kafkaTopic))
              else if slot == AddressOf(id) then Some(Text(schema.queryAddress))
              else if slot == TypeOf(id) then Some(Kind(schema.schemaType))
              else Read(r, slot)
  {
  }

  lemma MetadataSlot(r: Registry, e: Event, schema: Schema, slot: Slot)
    requires e.MetadataUpdated? && e.id in r.schemas
    requires schema == AppliedAll(r.schemas[e.id].schema, Fields(e.name, e.topic, e.queryAddress, e.schemaType))
    ensures Read(Renamed(r, e.id, schema), slot) == Or(Written(e, slot), Read(r, slot))
  {
    AppliedFields(r.schemas[e.id].schema, e.name, e.topic, e.queryAddress, e.schemaType);
    RenamedSlots(r, e.id, schema);
  }

  lemma RedeliveredMetadata(r: Registry, env: Env, e: Event, definitionId: Uuid)
    requires e.MetadataUpdated? && Absorbed(r, env, e)
    ensures SameSkeleton(r, Consume(r, env, e, definitionId).0)
    ensures forall slot :: Read(Consume(r, env, e, definitionId).0, slot) == Or(Written(e, slot), Read(r, slot))
  {
    var fs := Fields(e.name, e.topic, e.queryAddress, e.schemaType);
    UpdateFieldsAll(r, e.id, fs);
    var r' := Consume(r, env, e, definitionId).0;
    if e.id in r.schemas {
      var schema := AppliedAll(r.schemas[e.id].schema, fs);
      assert r' == Renamed(r, e.id, schema);
      RenamedSlots(r, e.id, schema);
      forall slot ensures Read(r', slot) == Or(Written(e, slot), Read(r, slot)) {
        MetadataSlot(r, e, schema, slot);
      }
    } else {
      NoFields(e.name, e.topic, e.queryAddress, e.schemaType);
    }
  }

  /** Redelivering an absorbed event only overwrites the slots it writes. */
  lemma Redelivered(r: Registry, env: Env, e: Event, definitionId: Uuid)
    requires Consistent(r) && Absorbed(r, env, e)
    ensures SameSkeleton(r, Consume(r, env, e, definitionId).0)
    ensures forall slot :: Read(Consume(r, env, e, definitionId).0, slot) == Or(Written(e, slot), Read(r, slot))
  {
    match e
    case MetadataUpdated(_, _, _, _, _) => RedeliveredMetadata(r, env, e, definitionId);
    case VersionAdded(id, v) =>
      var vs := r.schemas[id].versions.Keys;
      LatestFound(vs, AnyVersion);
      var max := Latest(vs, AnyVersion).value;
      TotalOrder(max, v.version, max);
    case SchemaAdded(_, _) =>
    case ViewAdded(_, _, _) =>
    case ViewUpdated(_, _) =>
  }

  lemma SkeletonKeepsAbsorbed(r: Registry, r': Registry, env: Env, e: Event)
    requires SameSkeleton(r, r') && Absorbed(r, env, e)
    ensures Absorbed(r', env, e)
  {
  }

  lemma SkeletonConsistent(r: Registry, r': Registry)
    requires SameSkeleton(r, r') && Consistent(r)
    ensures Consistent(r')
  {
  }

  /** Everything delivered first was accepted, and given a new id. */
  ghost predicate Accepted(s: Registry, env: Env, events: seq<Event>, ids: seq<Uuid>)
    requires |events| <= |ids|
    decreases |events|
  {
    events == [] ||
    (ids[0] !in Ids(s) && (events[0].SchemaAdded? ==> events[0].id != ids[0])
     && Consume(s, env, events[0], ids[0]).1.None?
     && Accepted(Consume(s, env, events[0], ids[0]).0, env, events[1..], ids[1..]))
  }

  /** What exists keeps existing. */
  ghost predicate Retains(r: Registry, r': Registry) {
    && Extends(r, r')
    && r.views.Keys <= r'.views.Keys
    && forall id <- r.schemas :: id in r'.schemas && r.schemas[id].views <= r'.schemas[id].views
  }

  lemma RetainsAbsorbed(r: Registry, r': Registry, env: Env, e: Event)
    requires Retains(r, r') && Absorbed(r, env, e)
    ensures Absorbed(r', env, e)
  {
  }

  lemma SkeletonRetains(r: Registry, r': Registry)
    requires SameSkeleton(r, r')
    ensures Retains(r, r')
  {
  }

  /** `r'` has everything `r` has, with the same contents. */
  ghost predicate Adds(r: Registry, r': Registry) {
    Retains(r, r') && forall slot :: Read(r, slot).Some? ==> Read(r', slot) == Read(r, slot)
  }

  lemma AddSchemaAdds(r: Registry, env: Env, x: NewSchema, id: Uuid, definitionId: Uuid)
    requires Consistent(r) && definitionId !in Ids(r) && id != definitionId
    requires AddSchema(r, env, x, id, definitionId).Ok?
    ensures Adds(r, AddSchema(r, env, x, id, definitionId).value)
  {
    AddSchemaExtends(r, env, x, id, definitionId);
  }

  lemma SlotsKept(r: Registry, r': Registry)
    requires forall x <- r.schemas :: x in r'.schemas && r'.schemas[x].schema == r.schemas[x].schema
    requires forall x <- r.views :: x in r'.views && r'.views[x] == r.views[x]
    ensures forall slot :: Read(r, slot).Some? ==> Read(r', slot) == Read(r, slot)
  {
  }

  lemma AddVersionAdds(r: Registry, env: Env, id: Uuid, v: NewSchemaVersion, definitionId: Uuid)
    requires Consistent(r) && definitionId !in Ids(r)
    requires AddVersion(r, env, id, v, definitionId).Ok?
    ensures Adds(r, AddVersion(r, env, id, v, definitionId).value)
  {
    AddVersionExtends(r, env, id, v, definitionId);
    var r' := AddVersion(r, env, id, v, definitionId).value;
    assert forall x <- r.schemas ::
             r'.schemas[x].schema == r.schemas[x].schema && r'.schemas[x].views == r.schemas[x].views;
    SlotsKept(r, r');
  }

  lemma AddViewAdds(r: Registry, env: Env, schemaId: Uuid, view: View, viewId: Uuid)
    requires Consistent(r) && AddView(r, env, schemaId, view, viewId).Ok?
    ensures Adds(r, AddView(r, env, schemaId, view, viewId).value)
  {
    AddViewExtends(r, env, schemaId, view, viewId);
    var r' := AddView(r, env, schemaId, view, viewId).value;
    assert forall x <- r.schemas ::
             r'.schemas[x].schema == r.schemas[x].schema && r.schemas[x].views <= r'.schemas[x].views;
    SlotsKept(r, r');
  }

  /** A first delivery that creates something leaves every existing slot alone and is absorbed from then on. */
  lemma CreatingDelivered(r: Registry, env: Env, e: Event, definitionId: Uuid)
    requires Consistent(r) && definitionId !in Ids(r)
    requires e.SchemaAdded? ==> e.id != definitionId
    requires e.SchemaAdded? || e.VersionAdded? || e.ViewAdded?
    requires Consume(r, env, e, definitionId).1.None?
    ensures var r' := Consume(r, env, e, definitionId).0; Consistent(r') && Adds(r, r') && Absorbed(r', env, e)
  {
    match e
    case SchemaAdded(x, id) =>
      AddSchemaExtends(r, env, x, id, definitionId);
      AddSchemaAdds(r, env, x, id, definitionId);
    case VersionAdded(id, v) =>
      AddVersionExtends(r, env, id, v, definitionId);
      AddVersionAdds(r, env, id, v, definitionId);
    case ViewAdded(schemaId, view, viewId) =>
      AddViewExtends(r, env, schemaId, view, viewId);
      AddViewAdds(r, env, schemaId, view, viewId);
    case _ =>
  }

  lemma AcceptedUpdateAbsorbed(r: Registry, env: Env, e: Event, definitionId: Uuid)
    requires e.MetadataUpdated? || e.ViewUpdated?
    requires Consume(r, env, e, definitionId).1.None?
    ensures Absorbed(r, env, e)
  {
    if e.MetadataUpdated? {
      UpdateFieldsAll(r, e.id, Fields(e.name, e.topic, e.queryAddress, e.schemaType));
    }
  }

  /** After its first delivery an event is absorbed, what it writes is in place, and nothing else moved. */
  lemma Delivered(r: Registry, env: Env, e: Event, definitionId: Uuid)
    requires Consistent(r) && definitionId !in Ids(r)
    requires e.SchemaAdded? ==> e.id != definitionId
    requires Consume(r, env, e, definitionId).1.None?
    ensures var r' := Consume(r, env, e, definitionId).0;
            && Consistent(r') && Retains(r, r') && Absorbed(r', env, e)
            && forall slot :: Or(Written(e, slot), Read(r, slot)).Some? ==>
                                Read(r', slot) == Or(Written(e, slot), Read(r, slot))
  {
    var r' := Consume(r, env, e, definitionId).0;
    if e.MetadataUpdated? || e.ViewUpdated? {
      AcceptedUpdateAbsorbed(r, env, e, definitionId);
      Redelivered(r, env, e, definitionId);
      SkeletonConsistent(r, r');
      SkeletonRetains(r, r');
      SkeletonKeepsAbsorbed(r, r', env, e);
    } else {
      CreatingDelivered(r, env, e, definitionId);
    }
  }

  lemma RetainsTransitive(a: Registry, b: Registry, c: Registry)
    requires Retains(a, b) && Retains(b, c)
    ensures Retains(a, c)
  {
    ExtendsTransitive(a, b, c);
  }

  /** After a log is first applied all its events are absorbed and the last writes are in place. */
  lemma {:induction false} AllDelivered(s: Registry, env: Env, events: seq<Event>, ids: seq<Uuid>)
    requires Consistent(s) && |events| <= |ids| && Accepted(s, env, events, ids)
    ensures var f := ConsumeAll(s, env, events, ids).0;
            && Consistent(f) && Retains(s, f)
            && (forall e <- events :: Absorbed(f, env, e))
            && forall slot :: Or(LastWritten(events, slot), Read(s, slot)).Some? ==>
                                Read(f, slot) == Or(LastWritten(events, slot), Read(s, slot))
    decreases |events|
  {
    if events != [] {
      var s' := Consume(s, env, events[0], ids[0]).0;
      Delivered(s, env, events[0], ids[0]);
      AllDelivered(s', env, events[1..], ids[1..]);
      var f := ConsumeAll(s, env, events, ids).0;
      RetainsTransitive(s, s', f);
      RetainsAbsorbed(s', f, env, events[0]);
      forall e | e in events ensures Absorbed(f, env, e) {
        assert e == events[0] || e in events[1..];
      }
    }
  }

  /** Redelivering absorbed events overwrites slots with their last writes and does nothing else. */
  lemma {:induction false} AllRedelivered(r: Registry, env: Env, events: seq<Event>, ids: seq<Uuid>)
    requires Consistent(r) && |events| <= |ids| && forall e <- events :: Absorbed(r, env, e)
    ensures var r' := ConsumeAll(r, env, events, ids).0;
            && SameSkeleton(r, r')
            && forall slot :: Read(r', slot) == Or(LastWritten(events, slot), Read(r, slot))
    decreases |events|
  {
    if events != [] {
      var r' := Consume(r, env, events[0], ids[0]).0;
      assert events[0] in events;
      Redelivered(r, env, events[0], ids[0]);
      SkeletonConsistent(r, r');
      forall e | e in events[1..] ensures Absorbed(r', env, e) {
        SkeletonKeepsAbsorbed(r, r', env, e);
      }
      AllRedelivered(r', env, events[1..], ids[1..]);
    }
  }

  lemma {:induction false} SuffixAccepted(s: Registry, env: Env, events: seq<Event>, ids: seq<Uuid>, k: nat)
    returns (s': Registry)
    requires Consistent(s) && |events| <= |ids| && Accepted(s, env, events, ids) && k <= |events|
    ensures Consistent(s') && Accepted(s', env, events[k..], ids[k..])
    ensures ConsumeAll(s', env, events[k..], ids[k..]).0 == ConsumeAll(s, env, events, ids).0
    decreases k
  {
    if k == 0 {
      s' := s;
      assert events[0..] == events && ids[0..] == ids;
    } else {
      Delivered(s, env, events[0], ids[0]);
      s' := SuffixAccepted(Consume(s, env, events[0], ids[0]).0, env, events[1..], ids[1..], k - 1);
      assert events[1..][k - 1..] == events[k..] && ids[1..][k - 1..] == ids[k..];
    }
  }

  /** A slave that applied a log in order, all of it accepted, may see any suffix again: the redelivery
      leaves its registry as it was, whatever ids the slave generates meanwhile. */
  lemma ReplaySafety(s: Registry, env: Env, events: seq<Event>, ids: seq<Uuid>, k: nat, others: seq<Uuid>)
    requires Consistent(s) && |events| <= |ids| && Accepted(s, env, events, ids)
    requires k <= |events| && |events| - k <= |others|
    ensures var f := ConsumeAll(s, env, events, ids).0; ConsumeAll(f, env, events[k..], others).0 == f
  {
    var s' := SuffixAccepted(s, env, events, ids, k);
    var f := ConsumeAll(s, env, events, ids).0;
    AllDelivered(s', env, events[k..], ids[k..]);
    AllRedelivered(f, env, events[k..], others);
    SlotsDecide(ConsumeAll(f, env, events[k..], others).0, f);
  }

  lemma {:induction false} MasterLogAccepted(m: Registry, s: Registry, env: Env, qs: seq<Request>, ids: seq<Uuid>,
                                             pool: set<Uuid>)
    requires Synced(m, s, pool) && Legal(m, env, qs, pool)
    requires FreshIds(s, ids, pool) && |ids| >= |qs|
    ensures |ServeAll(m, env, qs).1| <= |ids|
    ensures Accepted(s, env, ServeAll(m, env, qs).1, ids)
    decreases |qs|
  {
    if qs != [] {
      ServeConverges(m, s, env, qs[0], ids[0], pool);
      var reply := Serve(m, env, qs[0]);
      if reply.event.Some? {
        ConsumeDefinitions(s, env, reply.event.value, ids[0]);
        MasterLogAccepted(reply.registry, Consume(s, env, reply.event.value, ids[0]).0, env, qs[1..], ids[1..], pool);
        var events := ServeAll(m, env, qs).1;
        assert events[1..] == ServeAll(reply.registry, env, qs[1..]).1;
        assert ids[0] in pool && ids[0] !in Ids(s);
      } else {
        MasterLogAccepted(reply.registry, s, env, qs[1..], ids, pool);
      }
    }
  }

  /** Every master log is such a log: after its in-order replay any suffix may be redelivered. */
  lemma MasterLogReplaySafe(m: Registry, s: Registry, env: Env, qs: seq<Request>, ids: seq<Uuid>, pool: set<Uuid>,
                            k: nat, others: seq<Uuid>)
    requires Synced(m, s, pool) && Legal(m, env, qs, pool)
    requires FreshIds(s, ids, pool) && |ids| >= |qs|
    requires k <= |ServeAll(m, env, qs).1| <= k + |others|
    ensures |ServeAll(m, env, qs).1| <= |ids|
    ensures var events := ServeAll(m, env, qs).1;
            var f := ConsumeAll(s, env, events, ids).0;
            ConsumeAll(f, env, events[k..], others).0 == f
  {
    MasterLogAccepted(m, s, env, qs, ids, pool);
    ReplaySafety(s, env, ServeAll(m, env, qs).1, ids, k, others);
  }
}
