/**
 The registry as its users see it: schemas with their versioned definitions and views. The property
 graph behind it is related to this in module PropertyGraph.
 */
module Registry {
  import opened Wrappers
  import opened Json
  import opened Semver
  import opened RegistryTypes

  type Versions = map<Version, Json>

  datatype Record = Record(schema: Schema, versions: Versions, views: set<Uuid>)

  /** `definitions` holds the ids of the vertices behind the definitions; only their freshness matters. */
  datatype Registry = Registry(schemas: map<Uuid, Record>, views: map<Uuid, View>, definitions: set<Uuid>)

  const EmptyRegistry := Registry(map[], map[], {})

  function Ids(r: Registry): set<Uuid> {
    r.schemas.Keys + r.views.Keys + r.definitions
  }

  /** Distinct versions never tie in precedence. */
  ghost predicate NoTies(vs: set<Version>) {
    forall v, w :: v in vs && w in vs && v != w ==> Before(v, w) || Before(w, v)
  }

  ghost predicate Consistent(r: Registry) {
    && r.schemas.Keys !! r.views.Keys !! r.definitions
    && forall id <- r.schemas :: NoTies(r.schemas[id].versions.Keys)
  }

  // ----- Finding the latest version -----

  ghost predicate IsLatest(vs: set<Version>, req: VersionReq, v: Version) {
    v in vs && req(v) && forall w <- vs :: req(w) && w != v ==> Before(w, v)
  }

  lemma {:induction false} LatestExists(vs: set<Version>, req: VersionReq)
    requires NoTies(vs) && exists v :: v in vs && req(v)
    ensures exists v :: IsLatest(vs, req, v)
  {
    var v :| v in vs && req(v);
    var rest := vs - {v};
    if exists w :: w in rest && req(w) {
      LatestExists(rest, req);
      var w :| IsLatest(rest, req, w);
      forall u | u in vs && req(u) && u != v && u != w ensures Before(u, w) {
        assert u in rest;
      }
      if Before(v, w) {
        assert IsLatest(vs, req, w);
      } else {
        forall u | u in vs && req(u) && u != v ensures Before(u, v) {
          TotalOrder(u, w, v);
        }
        assert IsLatest(vs, req, v);
      }
    } else {
      forall u | u in vs && req(u) ensures u == v {
        assert u != v ==> u in rest;
      }
      assert IsLatest(vs, req, v);
    }
  }

  lemma LatestUnique(vs: set<Version>, req: VersionReq, v: Version, w: Version)
    requires IsLatest(vs, req, v) && IsLatest(vs, req, w)
    ensures v == w
  {
    TotalOrder(v, w, v);
  }

  ghost function Latest(vs: set<Version>, req: VersionReq): (r: Option<Version>)
    ensures r.Some? ==> IsLatest(vs, req, r.value)
  {
    if v :| IsLatest(vs, req, v) then Some(v) else None
  }

  /** A version matching the requirement is found whenever there is one. */
  lemma LatestFound(vs: set<Version>, req: VersionReq)
    requires NoTies(vs)
    ensures Latest(vs, req).None? <==> forall v <- vs :: !req(v)
  {
    if exists v :: v in vs && req(v) {
      LatestExists(vs, req);
    }
  }

  // ----- Inlining referenced definitions -----

  /** The definition a reference is replaced with: the referenced schema's latest. */
  ghost function Resolve(r: Registry, id: Uuid): Option<Json> {
    if id !in r.schemas then None
    else
      var latest := Latest(r.schemas[id].versions.Keys, AnyVersion);
      if latest.None? then None else Some(r.schemas[id].versions[latest.value])
  }

  /** A `definitions` entry that is a string holding a schema id. */
  function RefOf(env: Env, value: Json): Option<Uuid> {
    if value.String? then env.parseUuid(value.s) else None
  }

  /** The `definitions` object of a schema, if it has one. */
  function DefsOf(definition: Json): Option<map<string, Json>> {
    if definition.Object? && "definitions" in definition.fields && definition.fields["definitions"].Object? then
      Some(definition.fields["definitions"].fields)
    else None
  }

  function Inlined(definition: Json, defs: map<string, Json>): Json
    requires DefsOf(definition).Some?
  {
    Object(definition.fields["definitions" := Object(defs)])
  }

  function Compiled(env: Env, definition: Json): Result<Json, RegistryError> {
    if env.compiles(definition) then Ok(definition) else Err(InvalidSchema)
  }

  ghost predicate Resolvable(r: Registry, env: Env, defs: map<string, Json>) {
    forall k <- defs :: RefOf(env, defs[k]).Some? ==> Resolve(r, RefOf(env, defs[k]).value).Some?
  }

  ghost function ResolvedDefs(r: Registry, env: Env, defs: map<string, Json>): map<string, Json>
    requires Resolvable(r, env, defs)
  {
    map k | k in defs ::
      if RefOf(env, defs[k]).Some? then Resolve(r, RefOf(env, defs[k]).value).value else defs[k]
  }

  /** Every reference is inlined with the latest definition at this moment, then the result is compiled. */
  ghost function BuildFullSchema(r: Registry, env: Env, definition: Json): Result<Json, RegistryError> {
    var defs := DefsOf(definition);
    if defs.None? then Compiled(env, definition)
    else if !Resolvable(r, env, defs.value) then Err(NoVersionMatchesRequirement)
    else Compiled(env, Inlined(definition, ResolvedDefs(r, env, defs.value)))
  }

  // ----- What inlining leaves -----

  /** The definition of the schema's version that comes after all its others. */
  ghost predicate LatestDefinition(r: Registry, id: Uuid, definition: Json) {
    && id in r.schemas
    && exists v :: v in r.schemas[id].versions && r.schemas[id].versions[v] == definition
                   && forall w <- r.schemas[id].versions :: w != v ==> Before(w, v)
  }

  /** An entry that names a schema gives way to the schema's latest definition, any other stays. */
  ghost predicate EntryInlined(r: Registry, env: Env, was: Json, now: Json) {
    if was.String? && env.parseUuid(was.s).Some? then LatestDefinition(r, env.parseUuid(was.s).value, now)
    else now == was
  }

  /** Only the entries of `definitions` that name schemas differ. */
  ghost predicate InlinedFrom(r: Registry, env: Env, definition: Json, full: Json) {
    if definition.Object? && "definitions" in definition.fields && definition.fields["definitions"].Object? then
      && full.Object? && full.fields.Keys == definition.fields.Keys
      && (forall k <- definition.fields :: k != "definitions" ==> full.fields[k] == definition.fields[k])
      && full.fields["definitions"].Object?
      && var was, now := definition.fields["definitions"].fields, full.fields["definitions"].fields;
         now.Keys == was.Keys && forall k <- was :: EntryInlined(r, env, was[k], now[k])
    else
      full == definition
  }

  lemma ResolveIsLatest(r: Registry, id: Uuid, definition: Json)
    requires Consistent(r)
    ensures Resolve(r, id) == Some(definition) <==> LatestDefinition(r, id, definition)
  {
    if id in r.schemas {
      var versions := r.schemas[id].versions;
      var latest := Latest(versions.Keys, AnyVersion);
      LatestFound(versions.Keys, AnyVersion);
      forall v | v in versions && forall w <- versions :: w != v ==> Before(w, v) ensures latest == Some(v) {
        assert IsLatest(versions.Keys, AnyVersion, v);
        LatestUnique(versions.Keys, AnyVersion, v, latest.value);
      }
      if latest.Some? {
        assert forall w <- versions :: w != latest.value ==> Before(w, latest.value);
      }
    }
  }

  lemma EntryIs(r: Registry, env: Env, was: Json, now: Json)
    requires Consistent(r)
    ensures EntryInlined(r, env, was, now) <==>
            if RefOf(env, was).Some? then Resolve(r, RefOf(env, was).value) == Some(now) else now == was
  {
    if RefOf(env, was).Some? {
      ResolveIsLatest(r, RefOf(env, was).value, now);
    }
  }

  lemma DefsInlined(r: Registry, env: Env, was: map<string, Json>, now: map<string, Json>)
    requires Consistent(r)
    ensures now.Keys == was.Keys && (forall k <- was :: EntryInlined(r, env, was[k], now[k])) <==>
            Resolvable(r, env, was) && now == ResolvedDefs(r, env, was)
  {
    if now.Keys == was.Keys {
      forall k | k in was
        ensures EntryInlined(r, env, was[k], now[k]) <==>
                if RefOf(env, was[k]).Some? then Resolve(r, RefOf(env, was[k]).value) == Some(now[k])
                else now[k] == was[k]
      {
        EntryIs(r, env, was[k], now[k]);
      }
      if forall k <- was :: EntryInlined(r, env, was[k], now[k]) {
        SameMap(now, ResolvedDefs(r, env, was));
      }
    }
  }

  lemma InlinedIs(r: Registry, env: Env, definition: Json, full: Json)
    requires Consistent(r) && DefsOf(definition).Some?
    ensures var was := DefsOf(definition).value;
            InlinedFrom(r, env, definition, full) <==>
            Resolvable(r, env, was) && full == Inlined(definition, ResolvedDefs(r, env, was))
  {
    var was := DefsOf(definition).value;
    if full.Object? && full.fields.Keys == definition.fields.Keys && full.fields["definitions"].Object? {
      DefsInlined(r, env, was, full.fields["definitions"].fields);
      if InlinedFrom(r, env, definition, full) {
        SameMap(full.fields, Inlined(definition, ResolvedDefs(r, env, was)).fields);
      }
    }
    if Resolvable(r, env, was) {
      DefsInlined(r, env, was, ResolvedDefs(r, env, was));
    }
  }

  /** A build succeeds with exactly the inlined definition, and only if that compiles; it names the reason when
      there is a reference without a definition, or what was inlined does not compile. */
  lemma BuildIs(r: Registry, env: Env, definition: Json)
    requires Consistent(r)
    ensures forall full ::
              BuildFullSchema(r, env, definition) == Ok(full) <==>
              InlinedFrom(r, env, definition, full) && env.compiles(full)
    ensures BuildFullSchema(r, env, definition) == Err(NoVersionMatchesRequirement) <==>
            forall full :: !InlinedFrom(r, env, definition, full)
    ensures BuildFullSchema(r, env, definition) == Err(InvalidSchema) <==>
            exists full :: InlinedFrom(r, env, definition, full) && !env.compiles(full)
  {
    var defs := DefsOf(definition);
    if defs.Some? {
      forall full
        ensures InlinedFrom(r, env, definition, full) <==>
                Resolvable(r, env, defs.value) && full == Inlined(definition, ResolvedDefs(r, env, defs.value))
      {
        InlinedIs(r, env, definition, full);
      }
      if Resolvable(r, env, defs.value) {
        assert InlinedFrom(r, env, definition, Inlined(definition, ResolvedDefs(r, env, defs.value)));
      }
    } else {
      assert InlinedFrom(r, env, definition, definition);
    }
  }

  // ----- Operations -----

  ghost function AddSchema(r: Registry, env: Env, s: NewSchema, id: Uuid, definitionId: Uuid)
    : Result<Registry, RegistryError>
  {
    var full := BuildFullSchema(r, env, s.definition);
    if full.Err? then Err(full.error)
    else if id in Ids(r) then Err(DuplicatedUuid(id))
    else Ok(r.(schemas := r.schemas[id := Record(s.schema, map[FirstVersion := full.value], {})],
               definitions := r.definitions + {definitionId}))
  }

  ghost function AddVersion(r: Registry, env: Env, id: Uuid, v: NewSchemaVersion, definitionId: Uuid)
    : Result<Registry, RegistryError>
  {
    if id !in r.schemas then Err(NoSchemaWithId(id))
    else
      var record := r.schemas[id];
      var max := Latest(record.versions.Keys, AnyVersion);
      if max.Some? && !Before(max.value, v.version) then Err(NewVersionMustBeGreatest(id, max.value))
      else
        var full := BuildFullSchema(r, env, v.definition);
        if full.Err? then Err(full.error)
        else Ok(r.(schemas := r.schemas[id := record.(versions := record.versions[v.version := full.value])],
                   definitions := r.definitions + {definitionId}))
  }

  function AddView(r: Registry, env: Env, schemaId: Uuid, view: View, viewId: Uuid): Result<Registry, RegistryError> {
    if schemaId !in r.schemas then Err(NoSchemaWithId(schemaId))
    else if !env.validView(view.jmespath) then Err(InvalidView)
    else if viewId in Ids(r) then Err(DuplicatedUuid(viewId))
    else
      var record := r.schemas[schemaId];
      Ok(r.(schemas := r.schemas[schemaId := record.(views := record.views + {viewId})],
            views := r.views[viewId := view]))
  }

  function UpdateField(r: Registry, id: Uuid, f: FieldUpdate): Result<Registry, RegistryError> {
    if id !in r.schemas then Err(NoSchemaWithId(id))
    else Ok(r.(schemas := r.schemas[id := r.schemas[id].(schema := Applied(r.schemas[id].schema, f))]))
  }

  function UpdateView(r: Registry, env: Env, id: Uuid, u: ViewUpdate): Result<Registry, RegistryError> {
    if id !in r.views then Err(NoViewWithId(id))
    else if u.jmespath.Some? && !env.validView(u.jmespath.value) then Err(InvalidView)
    else Ok(r.(views := r.views[id := Viewed(r.views[id], u)]))
  }

  /** The updates in order, stopping at the first that fails; earlier ones stay. */
  function UpdateFields(r: Registry, id: Uuid, fs: seq<FieldUpdate>): (Registry, Option<RegistryError>)
    decreases |fs|
  {
    if fs == [] then (r, None)
    else match UpdateField(r, id, fs[0])
      case Err(e) => (r, Some(e))
      case Ok(r') => UpdateFields(r', id, fs[1..])
  }

  function AppliedAll(s: Schema, fs: seq<FieldUpdate>): Schema
    decreases |fs|
  {
    if fs == [] then s else AppliedAll(Applied(s, fs[0]), fs[1..])
  }

  /** A series of updates to one schema takes effect as a whole or fails at its first call. */
  lemma {:induction false} UpdateFieldsAll(r: Registry, id: Uuid, fs: seq<FieldUpdate>)
    ensures id in r.schemas ==>
              UpdateFields(r, id, fs) ==
              (r.(schemas := r.schemas[id := r.schemas[id].(schema := AppliedAll(r.schemas[id].schema, fs))]), None)
    ensures id !in r.schemas ==>
              UpdateFields(r, id, fs) == (r, if fs == [] then None else Some(NoSchemaWithId(id)))
    decreases |fs|
  {
    if id in r.schemas {
      if fs == [] {
        assert r.schemas == r.schemas[id := r.schemas[id].(schema := r.schemas[id].schema)];
      } else {
        var r' := UpdateField(r, id, fs[0]).value;
        UpdateFieldsAll(r', id, fs[1..]);
        var last := r.schemas[id].(schema := AppliedAll(r.schemas[id].schema, fs));
        assert r'.schemas[id := last] == r.schemas[id := last];
      }
    }
  }

  // ----- What is read after a call -----

  /** Some full form of the definition compiles. */
  ghost predicate Builds(r: Registry, env: Env, definition: Json) {
    exists full :: InlinedFrom(r, env, definition, full) && env.compiles(full)
  }

  lemma BuildsIff(r: Registry, env: Env, definition: Json)
    requires Consistent(r)
    ensures BuildFullSchema(r, env, definition).Ok? <==> Builds(r, env, definition)
    ensures var full := BuildFullSchema(r, env, definition);
            full.Ok? ==> InlinedFrom(r, env, definition, full.value) && env.compiles(full.value)
  {
    BuildIs(r, env, definition);
    var full := BuildFullSchema(r, env, definition);
    assert full.Ok? ==> full == Ok(full.value);
    if x :| InlinedFrom(r, env, definition, x) && env.compiles(x) {
      assert full == Ok(x);
    }
  }

  /** `r'` is `r` but for the record of one schema. */
  ghost predicate OnlyRecord(r: Registry, r': Registry, id: Uuid) {
    && r'.schemas.Keys == r.schemas.Keys + {id}
    && forall x <- r.schemas :: x != id ==> r'.schemas[x] == r.schemas[x]
  }

  /** A schema is accepted iff its id is free and its definition builds; it then has its metadata, version
      1.0.0 with the full definition and nothing else. */
  lemma AddedSchemaReads(r: Registry, env: Env, s: NewSchema, id: Uuid, definitionId: Uuid)
    requires Consistent(r)
    ensures var result := AddSchema(r, env, s, id, definitionId);
            && (result.Ok? <==> id !in Ids(r) && Builds(r, env, s.definition))
            && (result.Ok? ==>
                  && OnlyRecord(r, result.value, id) && result.value.views == r.views
                  && result.value.schemas[id].schema == s.schema && result.value.schemas[id].views == {}
                  && var versions := result.value.schemas[id].versions;
                     && versions.Keys == {Version(1, 0, 0, [], [])}
                     && InlinedFrom(r, env, s.definition, versions[Version(1, 0, 0, [], [])])
                     && env.compiles(versions[Version(1, 0, 0, [], [])]))
  {
    BuildsIff(r, env, s.definition);
  }

  lemma AcceptsVersionIff(r: Registry, env: Env, id: Uuid, v: NewSchemaVersion, definitionId: Uuid)
    requires Consistent(r)
    ensures AddVersion(r, env, id, v, definitionId).Ok? <==>
            && id in r.schemas && (forall w <- r.schemas[id].versions :: Before(w, v.version))
            && Builds(r, env, v.definition)
  {
    BuildsIff(r, env, v.definition);
    if id in r.schemas {
      AfterLatestIff(r.schemas[id].versions.Keys, v.version);
    }
  }

  /** An accepted version: all versions of its schema come before it and its definition builds. It is then the
      schema's latest, with the full definition, and nothing else changes. */
  lemma AddedVersionReads(r: Registry, env: Env, id: Uuid, v: NewSchemaVersion, definitionId: Uuid)
    requires Consistent(r) && AddVersion(r, env, id, v, definitionId).Ok?
    ensures var r' := AddVersion(r, env, id, v, definitionId).value;
            && OnlyRecord(r, r', id) && r'.views == r.views && id in r.schemas
            && var was, now := r.schemas[id], r'.schemas[id];
               && now.schema == was.schema && now.views == was.views
               && now.versions.Keys == was.versions.Keys + {v.version} && v.version !in was.versions
               && (forall w <- was.versions :: now.versions[w] == was.versions[w])
               && InlinedFrom(r, env, v.definition, now.versions[v.version]) && env.compiles(now.versions[v.version])
               && LatestDefinition(r', id, now.versions[v.version])
  {
    BuildsIff(r, env, v.definition);
    AcceptsVersionIff(r, env, id, v, definitionId);
    AfterLatestIff(r.schemas[id].versions.Keys, v.version);
    NewestIsLatest(AddVersion(r, env, id, v, definitionId).value, id, v.version);
  }

  lemma AfterLatestIff(vs: set<Version>, v: Version)
    requires NoTies(vs)
    ensures var max := Latest(vs, AnyVersion);
            (max.Some? ==> Before(max.value, v)) <==> forall w <- vs :: Before(w, v)
    ensures (forall w <- vs :: Before(w, v)) ==> v !in vs
  {
    TotalOrder(v, v, v);
    LatestFound(vs, AnyVersion);
    var max := Latest(vs, AnyVersion);
    if max.Some? ==> Before(max.value, v) {
      AfterLatest(vs, v);
    }
  }

  lemma NewestIsLatest(r: Registry, id: Uuid, v: Version)
    requires id in r.schemas && v in r.schemas[id].versions
    requires forall w <- r.schemas[id].versions :: w != v ==> Before(w, v)
    ensures LatestDefinition(r, id, r.schemas[id].versions[v])
  {
  }

  /** A view is accepted iff the schema is there, the expression is valid and the id is free; it is then read
      under its id and listed by its schema, and nothing else changes. */
  lemma AddedViewReads(r: Registry, env: Env, schemaId: Uuid, view: View, viewId: Uuid)
    ensures var result := AddView(r, env, schemaId, view, viewId);
            && (result.Ok? <==> schemaId in r.schemas && env.validView(view.jmespath) && viewId !in Ids(r))
            && (result.Ok? ==>
                  && OnlyRecord(r, result.value, schemaId)
                  && result.value.views.Keys == r.views.Keys + {viewId} && result.value.views[viewId] == view
                  && (forall x <- r.views :: result.value.views[x] == r.views[x])
                  && var was, now := r.schemas[schemaId], result.value.schemas[schemaId];
                     now.schema == was.schema && now.versions == was.versions && now.views == was.views + {viewId})
  {
  }

  // ----- Version discipline -----

  /** Definitions on record stay as they are, and versions added later come after every earlier one. */
  ghost predicate Grows(before: Versions, after: Versions) {
    && (forall v <- before :: v in after && after[v] == before[v])
    && (forall v, w :: v in before && w in after && w !in before ==> Before(v, w))
  }

  ghost predicate Extends(r: Registry, r': Registry) {
    forall id <- r.schemas :: id in r'.schemas && Grows(r.schemas[id].versions, r'.schemas[id].versions)
  }

  lemma ExtendsTransitive(a: Registry, b: Registry, c: Registry)
    requires Extends(a, b) && Extends(b, c)
    ensures Extends(a, c)
  {
    forall id | id in a.schemas
      ensures id in c.schemas && Grows(a.schemas[id].versions, c.schemas[id].versions)
    {
      assert Grows(a.schemas[id].versions, b.schemas[id].versions);
      assert Grows(b.schemas[id].versions, c.schemas[id].versions);
    }
  }

  lemma AddSchemaExtends(r: Registry, env: Env, s: NewSchema, id: Uuid, definitionId: Uuid)
    requires Consistent(r) && definitionId !in Ids(r) && definitionId != id
    requires AddSchema(r, env, s, id, definitionId).Ok?
    ensures var r' := AddSchema(r, env, s, id, definitionId).value; Consistent(r') && Extends(r, r')
  {
    var r' := AddSchema(r, env, s, id, definitionId).value;
    assert forall other <- r.schemas :: r'.schemas[other] == r.schemas[other];
  }

  lemma AfterLatest(vs: set<Version>, v: Version)
    requires NoTies(vs)
    requires Latest(vs, AnyVersion).Some? ==> Before(Latest(vs, AnyVersion).value, v)
    ensures forall w <- vs :: Before(w, v)
    ensures v !in vs && NoTies(vs + {v})
  {
    LatestFound(vs, AnyVersion);
    forall w | w in vs ensures Before(w, v) {
      TotalOrder(w, Latest(vs, AnyVersion).value, v);
    }
    TotalOrder(v, v, v);
  }

  /** An accepted version comes after all versions of its schema. */
  lemma AddVersionExtends(r: Registry, env: Env, id: Uuid, v: NewSchemaVersion, definitionId: Uuid)
    requires Consistent(r) && definitionId !in Ids(r)
    requires AddVersion(r, env, id, v, definitionId).Ok?
    ensures var r' := AddVersion(r, env, id, v, definitionId).value;
            && Consistent(r') && Extends(r, r')
            && forall w <- r.schemas[id].versions :: Before(w, v.version)
  {
    var r' := AddVersion(r, env, id, v, definitionId).value;
    var before, after := r.schemas[id].versions, r'.schemas[id].versions;
    AfterLatest(before.Keys, v.version);
    assert after.Keys == before.Keys + {v.version};
    assert Grows(before, after);
    forall other | other in r.schemas && other != id
      ensures r'.schemas[other] == r.schemas[other] && Grows(r.schemas[other].versions, r'.schemas[other].versions)
    {
    }
  }

  /** For a fixed requirement the latest match of a schema never moves back. */
  lemma LatestNeverDecreases(r: Registry, r': Registry, id: Uuid, req: VersionReq)
    requires Consistent(r') && Extends(r, r') && id in r.schemas
    requires Latest(r.schemas[id].versions.Keys, req).Some?
    ensures var was, now := Latest(r.schemas[id].versions.Keys, req), Latest(r'.schemas[id].versions.Keys, req);
            now.Some? && (now == was || Before(was.value, now.value))
  {
    LatestFound(r'.schemas[id].versions.Keys, req);
  }
}
