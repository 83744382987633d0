/**
 Decoding the property list of a stored vertex or edge: each extractor drains what it looks for from the
 list, in whatever order the datastore returned it.
 */
module PropertyLists {
  import opened Wrappers
  import opened RegistryTypes
  import opened PropertyGraph

  type Named = seq<(Property, Value)>

  /** The properties of `m`, each once, in some order. */
  ghost predicate ListOf(props: Named, m: Props) {
    && (forall i, j :: 0 <= i < j < |props| ==> props[i].0 != props[j].0)
    && (forall p <- props :: p.0 in m && m[p.0] == p.1)
    && (forall n <- m :: (n, m[n]) in props)
  }

  function First(props: Named, name: Property): Option<Value> {
    if props == [] then None
    else
      var n := |props| - 1;
      var earlier := First(props[..n], name);
      if earlier.None? && props[n].0 == name then Some(props[n].1) else earlier
  }

  function Others(props: Named, name: Property): Named {
    if props == [] then []
    else
      var n := |props| - 1;
      if props[n].0 == name then Others(props[..n], name) else Others(props[..n], name) + [props[n]]
  }

  /** Draining one name does not disturb what is found under another. */
  lemma {:induction false} FirstOfOthers(props: Named, a: Property, b: Property)
    requires a != b
    ensures First(Others(props, a), b) == First(props, b)
  {
    if props != [] {
      var n := |props| - 1;
      FirstOfOthers(props[..n], a, b);
      var others := Others(props[..n], a);
      assert (others + [props[n]])[..|others|] == others;
    }
  }

  lemma {:induction false} FirstIn(props: Named, name: Property)
    ensures First(props, name).None? <==> forall p <- props :: p.0 != name
    ensures First(props, name).Some? ==> (name, First(props, name).value) in props
  {
    if props != [] {
      var n := |props| - 1;
      FirstIn(props[..n], name);
      assert props[n] in props;
      assert forall p :: p in props <==> p in props[..n] || p == props[n];
    }
  }

  /** Looking a name up in the list is looking it up in the properties. */
  lemma FirstIs(props: Named, m: Props, name: Property)
    requires ListOf(props, m)
    ensures First(props, name) == if name in m then Some(m[name]) else None
  {
    FirstIn(props, name);
  }

  /** What a vertex of the type decodes to from its property list. */
  function Decoded(t: VertexType, props: Named): Option<Stored> {
    match t
    case SchemaVertex =>
      var name, topic := TextIn(First(props, SchemaName)), TextIn(First(props, SchemaTopicName));
      var address, kind := TextIn(First(props, SchemaQueryAddress)), SchemaTypeIn(First(props, SchemaTypeName));
      if name.Some? && topic.Some? && address.Some? && kind.Some? then
        Some(StoredSchema(Schema(name.value, topic.value, address.value, kind.value)))
      else None
    case DefinitionVertex =>
      var x := First(props, DefinitionValue);
      if x.Some? && x.value.JsonValue? then Some(StoredDefinition(x.value.json)) else None
    case ViewVertex =>
      var name, expression := TextIn(First(props, ViewName)), TextIn(First(props, ViewExpression));
      if name.Some? && expression.Some? then Some(StoredView(View(name.value, expression.value))) else None
  }

  /** The order of the list does not matter. */
  lemma DecodedIs(t: VertexType, props: Named, m: Props)
    requires ListOf(props, m)
    ensures Decoded(t, props) == FromProperties(Vertex(t, m))
  {
    match t
    case SchemaVertex =>
      FirstIs(props, m, SchemaName);
      FirstIs(props, m, SchemaTopicName);
      FirstIs(props, m, SchemaQueryAddress);
      FirstIs(props, m, SchemaTypeName);
    case DefinitionVertex => FirstIs(props, m, DefinitionValue);
    case ViewVertex =>
      FirstIs(props, m, ViewName);
      FirstIs(props, m, ViewExpression);
  }

  /** Properties of a stored value, listed in any order, decode to that value. */
  lemma StoredDecodes(v: Stored, props: Named)
    requires ListOf(props, Encoded(v).props)
    ensures Decoded(DbType(v), props) == Some(v)
  {
    DecodedIs(DbType(v), props, Encoded(v).props);
    EncodedDecodes(v);
  }

  class PropertyList {
    var props: Named

    constructor (props: Named)
      ensures this.props == props
    {
      this.props := props;
    }

    /** `drain_filter(...).next()`: every property of the name leaves the list, the first is returned. */
    method Extract(name: Property) returns (found: Option<Value>)
      modifies this
      ensures found == First(old(props), name) && props == Others(old(props), name)
    {
      var kept: Named := [];
      found := None;
      for i := 0 to |props|
        invariant props == old(props)
        invariant found == First(props[..i], name) && kept == Others(props[..i], name)
      {
        assert props[..i + 1][..i] == props[..i];
        if props[i].0 != name {
          kept := kept + [props[i]];
        } else if found.None? {
          found := Some(props[i].1);
        }
      }
      assert props[..|props|] == props;
      props := kept;
    }

    /** The first field that is missing or of the wrong shape makes the schema undecodable. */
    method SchemaFromProperties() returns (r: Option<Stored>)
      modifies this
      ensures r == Decoded(SchemaVertex, old(props))
    {
      ghost var listed := props;
      var x := Extract(SchemaName);
      var name := TextIn(x);
      if name.None? {
        return None;
      }
      FirstOfOthers(listed, SchemaName, SchemaTopicName);
      FirstOfOthers(listed, SchemaName, SchemaQueryAddress);
      FirstOfOthers(listed, SchemaName, SchemaTypeName);
      listed := props;
      x := Extract(SchemaTopicName);
      var topic := TextIn(x);
      if topic.None? {
        return None;
      }
      FirstOfOthers(listed, SchemaTopicName, SchemaQueryAddress);
      FirstOfOthers(listed, SchemaTopicName, SchemaTypeName);
      listed := props;
      x := Extract(SchemaQueryAddress);
      var address := TextIn(x);
      if address.None? {
        return None;
      }
      FirstOfOthers(listed, SchemaQueryAddress, SchemaTypeName);
      x := Extract(SchemaTypeName);
      var kind := SchemaTypeIn(x);
      if kind.None? {
        return None;
      }
      r := Some(StoredSchema(Schema(name.value, topic.value, address.value, kind.value)));
    }

    method DefinitionFromProperties() returns (r: Option<Stored>)
      modifies this
      ensures r == Decoded(DefinitionVertex, old(props))
    {
      var x := Extract(DefinitionValue);
      r := if x.Some? && x.value.JsonValue? then Some(StoredDefinition(x.value.json)) else None;
    }

    method ViewFromProperties() returns (r: Option<Stored>)
      modifies this
      ensures r == Decoded(ViewVertex, old(props))
    {
      FirstOfOthers(props, ViewName, ViewExpression);
      var x := Extract(ViewName);
      var name := TextIn(x);
      if name.None? {
        return None;
      }
      x := Extract(ViewExpression);
      var expression := TextIn(x);
      r := if expression.Some? then Some(StoredView(View(name.value, expression.value))) else None;
    }

    /** The edge's ends come from its key, its version from the list. */
    method DefinitionEdgeFromProperties(k: EdgeKey, ghost m: Props) returns (r: Option<StoredEdge>)
      requires k.t.SchemaDefinitionEdge? && ListOf(props, m)
      modifies this
      ensures r == EdgeFromProperties(k, m)
    {
      FirstIs(props, m, VersionProperty);
      var x := Extract(VersionProperty);
      r := if x.Some? && x.value.VersionValue? then Some(DefinitionEdge(k.outbound, k.inbound, x.value.version))
           else None;
    }
  }
}
