/** The schema registry's values, errors and surroundings. */
module RegistryTypes {
  import opened Wrappers
  import opened Json
  import opened Semver

  datatype SchemaType = DocumentStorage | Timeseries

  datatype Schema = Schema(name: string, kafkaTopic: string, queryAddress: string, schemaType: SchemaType)
  datatype View = View(name: string, jmespath: string)

  datatype NewSchema = NewSchema(schema: Schema, definition: Json)
  datatype NewSchemaVersion = NewSchemaVersion(version: Version, definition: Json)
  datatype ViewUpdate = ViewUpdate(name: Option<string>, jmespath: Option<string>)

  /** One of the four `update_schema_*` calls. */
  datatype FieldUpdate =
    | SetName(name: string)
    | SetTopic(topic: string)
    | SetAddress(address: string)
    | SetType(schemaType: SchemaType)

  datatype RegistryError =
    | NoSchemaWithId(id: Uuid)
    | NoViewWithId(id: Uuid)
    | DuplicatedUuid(id: Uuid)
    | NoTopic(topic: string)
    | InvalidSchema
    | InvalidSchemaType
    | InvalidView
    | NoVersionMatchesRequirement
    | NewVersionMustBeGreatest(id: Uuid, maxVersion: Version)
    | MalformedError(id: Uuid)
    | MQError

  /** The libraries the registry consults: deterministic, and otherwise unknown. */
  datatype Env = Env(parseUuid: string -> Option<Uuid>, compiles: Json -> bool, validView: string -> bool)

  type VersionReq = Version -> bool

  const AnyVersion: VersionReq := v => true

  const FirstVersion := Version(1, 0, 0, [], [])

  function Applied(s: Schema, f: FieldUpdate): Schema {
    match f
    case SetName(name) => s.(name := name)
    case SetTopic(topic) => s.(kafkaTopic := topic)
    case SetAddress(address) => s.(queryAddress := address)
    case SetType(t) => s.(schemaType := t)
  }

  function Viewed(v: View, u: ViewUpdate): View {
    View(if u.name.Some? then u.name.value else v.name, if u.jmespath.Some? then u.jmespath.value else v.jmespath)
  }
}
