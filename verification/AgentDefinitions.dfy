/** Versioned agent definitions: rows, snapshots and the three mutations. */
module AgentDefinitions {
  import opened Text
  import opened Json

  // ---------------------------------------------------------------- rows

  datatype Field =
    | Name | Description | Icon | ProviderType | Model | SystemPrompt | AppendSystemPrompt
    | AllowedTools | Skills | McpServers | MaxSteps | DeliveryMode | Config

  const EDITABLE_KEYS: seq<Field> :=
    [Name, Description, Icon, ProviderType, Model, SystemPrompt, AppendSystemPrompt,
     AllowedTools, Skills, McpServers, MaxSteps, DeliveryMode, Config]

  type Fields = map<Field, Value>

  predicate Complete(fields: Fields) {
    forall f: Field :: f in fields
  }

  datatype Agent = Agent(
    projectId: int, fields: Fields, currentVersion: int, archivedAt: Option<int>, createdAt: int, updatedAt: int)

  /** A key of a stored snapshot: the camelCase or the snake_case spelling of a field. */
  datatype Key = Camel(f: Field) | Snake(f: Field)

  type Snapshot = map<Key, Value>

  datatype VersionRow = VersionRow(snapshot: Snapshot, changeNote: Option<string>, createdBy: Option<int>, createdAt: int)

  type Agents = map<int, Agent>
  type Versions = map<(int, int), VersionRow>

  datatype Db = Db(agents: Agents, versions: Versions)

  /** One-word fields are spelled the same in both casings. */
  predicate OneWord(f: Field) {
    f in {Name, Description, Icon, Model, Skills, Config}
  }

  function SnakeKey(f: Field): Key {
    if OneWord(f) then Camel(f) else Snake(f)
  }

  /** How this service writes a snapshot. */
  function CamelSnapshot(fields: Fields): Snapshot {
    map k | k in (set f | f in fields :: Camel(f)) :: fields[k.f]
  }

  /** How the migration wrote the first snapshot of an agent that existed before versioning. */
  function MigratedSnapshot(fields: Fields): Snapshot {
    map k | k in (set f | f in fields :: SnakeKey(f)) :: fields[k.f]
  }

  // ---------------------------------------------------------------- reading

  datatype Definition = Definition(
    id: int, projectId: int, fields: Fields, currentVersion: int, archivedAt: Option<int>, createdAt: int, updatedAt: int)

  datatype Failure =
    | InvalidInput | EmptyPatch | NotFound | VersionNotFound | Archived(at: int) | Conflict(expected: int, actual: int)

  datatype Outcome = Success(definition: Definition) | Failed(failure: Failure)

  function RowToDefinition(id: int, row: Agent): Definition {
    Definition(id, row.projectId, row.fields, row.currentVersion, row.archivedAt, row.createdAt, row.updatedAt)
  }

  function ReadSnapshotField(snapshot: Snapshot, f: Field): Option<Value> {
    if Camel(f) in snapshot then Some(snapshot[Camel(f)])
    else if SnakeKey(f) in snapshot then Some(snapshot[SnakeKey(f)])
    else None
  }

  /** What a field missing from a snapshot reads as. */
  function Fallback(row: Agent, f: Field): Value
    requires Complete(row.fields)
  {
    match f
    case Name => row.fields[Name]
    case ProviderType => row.fields[ProviderType]
    case MaxSteps => row.fields[MaxSteps]
    case DeliveryMode => row.fields[DeliveryMode]
    case AllowedTools => Array([])
    case Skills => Array([])
    case McpServers => Array([])
    case _ => Null
  }

  function ReadSnapshot(row: Agent, snapshot: Snapshot): Fields
    requires Complete(row.fields)
  {
    map f: Field | true ::
      match ReadSnapshotField(snapshot, f) case Some(v) => v case None => Fallback(row, f)
  }

  function SnapshotToDefinition(id: int, row: Agent, version: int, v: VersionRow): Definition
    requires Complete(row.fields)
  {
    Definition(id, row.projectId, ReadSnapshot(row, v.snapshot), version, row.archivedAt, row.createdAt, v.createdAt)
  }

  /** A field of a stored version: under either spelling, else the row's value or the empty one. */
  ghost predicate ReadsAs(snapshot: Snapshot, row: Agent, f: Field, v: Value) {
    if Camel(f) in snapshot then v == snapshot[Camel(f)]
    else if f !in {Name, Description, Icon, Model, Skills, Config} && Snake(f) in snapshot then v == snapshot[Snake(f)]
    else if f in {Name, ProviderType, MaxSteps, DeliveryMode} then f in row.fields && v == row.fields[f]
    else v == if f in {AllowedTools, Skills, McpServers} then Array([]) else Null
  }

  /** The definition shows the row as it is. */
  ghost predicate Shows(d: Definition, id: int, row: Agent) {
    && d.id == id && d.projectId == row.projectId && d.fields == row.fields && d.currentVersion == row.currentVersion
    && d.archivedAt == row.archivedAt && d.createdAt == row.createdAt && d.updatedAt == row.updatedAt
  }

  /** The migration's keys: one-word fields as they are, the others in snake case. */
  lemma MigratedKeys(fields: Fields, k: Key)
    ensures k in MigratedSnapshot(fields) <==>
            k.f in fields && (k.Camel? <==> k.f in {Name, Description, Icon, Model, Skills, Config})
    ensures k in MigratedSnapshot(fields) ==> MigratedSnapshot(fields)[k] == fields[k.f]
  {
    assert SnakeKey(k.f).f == k.f;
  }

  /** Both spellings read back as the fields that were stored, whatever the row holds now. */
  lemma SnapshotsReadBack(row: Agent, fields: Fields)
    requires Complete(row.fields) && Complete(fields)
    ensures ReadSnapshot(row, CamelSnapshot(fields)) == fields
    ensures ReadSnapshot(row, MigratedSnapshot(fields)) == fields
  {
    var camel, migrated := CamelSnapshot(fields), MigratedSnapshot(fields);
    forall f: Field
      ensures ReadSnapshotField(camel, f) == Some(fields[f])
      ensures ReadSnapshotField(migrated, f) == Some(fields[f])
    {
      assert Camel(f) in camel;
      assert SnakeKey(f).f == f;
      assert SnakeKey(f) in migrated;
      assert Camel(f) in migrated ==> Camel(f) == SnakeKey(f);
    }
  }

  // ---------------------------------------------------------------- the mutations as atomic transactions

  /** A key of a patch body; besides editable fields it carries others, such as the change note and If-Match. */
  datatype InputKey = Editable(f: Field) | Other(name: string)

  /** A patch body: undefined entries are present with None. */
  type PatchInput = map<InputKey, Option<Value>>

  function Picked(input: PatchInput): Fields {
    map f: Field | Editable(f) in input && input[Editable(f)].Some? :: input[Editable(f)].value
  }

  /** The patch body has a value for this field. */
  ghost predicate Gives(input: PatchInput, f: Field) {
    Editable(f) in input && input[Editable(f)].Some?
  }

  /** The snapshot is this service's text of these fields. */
  ghost predicate Holds(v: VersionRow, fields: Fields, note: Option<string>, author: Option<int>, now: int) {
    && v.changeNote == note && v.createdBy == author && v.createdAt == now
    && forall f: Field :: f in fields && Camel(f) in v.snapshot && v.snapshot[Camel(f)] == fields[f]
  }

  function CreateTx(db: Db, id: int, projectId: int, fields: Fields, note: Option<string>, author: Option<int>, now: int): Db {
    Db(db.agents[id := Agent(projectId, fields, 1, None, now, now)],
       db.versions[(id, 1) := VersionRow(CamelSnapshot(fields), note, author, now)])
  }

  /** Why a patch is refused, if it is, given the row it finds. */
  function PatchRefusal(agents: Agents, id: int, ifMatch: int): Option<Failure> {
    if id !in agents then Some(NotFound)
    else if agents[id].archivedAt.Some? then Some(Archived(agents[id].archivedAt.value))
    else if agents[id].currentVersion != ifMatch then Some(Conflict(ifMatch, agents[id].currentVersion))
    else None
  }

  /** The two writes of an accepted patch. */
  function ApplyPatch(db: Db, id: int, row: Agent, patch: Fields, note: Option<string>, author: Option<int>, now: int): Db
    requires id in db.agents
  {
    var next := row.currentVersion + 1;
    var live := db.agents[id];
    Db(db.agents[id := live.(fields := live.fields + patch, currentVersion := next, updatedAt := now)],
       db.versions[(id, next) := VersionRow(CamelSnapshot(row.fields + patch), note, author, now)])
  }

  function PatchTx(db: Db, id: int, ifMatch: int, input: PatchInput, note: Option<string>, author: Option<int>, now: int)
    : (Db, Outcome)
  {
    var patch := Picked(input);
    if ifMatch < 1 then (db, Failed(InvalidInput))
    else if patch == map[] then (db, Failed(EmptyPatch))
    else
      match PatchRefusal(db.agents, id, ifMatch)
      case Some(failure) => (db, Failed(failure))
      case None =>
        var after := ApplyPatch(db, id, db.agents[id], patch, note, author, now);
        (after, Success(RowToDefinition(id, after.agents[id])))
  }

  function ApplyArchive(db: Db, id: int, now: int): Db
    requires id in db.agents
  {
    db.(agents := db.agents[id := db.agents[id].(archivedAt := Some(now), updatedAt := now)])
  }

  function ArchiveTx(db: Db, id: int, now: int): (Db, Outcome) {
    if id !in db.agents then (db, Failed(NotFound))
    else if db.agents[id].archivedAt.Some? then (db, Success(RowToDefinition(id, db.agents[id])))
    else (ApplyArchive(db, id, now), Success(RowToDefinition(id, ApplyArchive(db, id, now).agents[id])))
  }

  // ---------------------------------------------------------------- the service

  class AgentDefinitionService {
    var agents: Agents
    var versions: Versions

    function Contents(): Db
      reads this
    {
      Db(agents, versions)
    }

    ghost predicate Valid()
      reads this
    {
      forall id :: id in agents ==> Complete(agents[id].fields)
    }

    method Create(id: int, projectId: int, fields: Fields, note: Option<string>, author: Option<int>, now: int)
      returns (d: Definition)
      requires Valid() && Complete(fields) && id !in agents
      modifies this
      ensures Valid() && Contents() == CreateTx(old(Contents()), id, projectId, fields, note, author, now)
      ensures d == RowToDefinition(id, agents[id])
      ensures agents == old(agents)[id := Agent(projectId, fields, 1, None, now, now)] && Shows(d, id, agents[id])
      ensures (id, 1) in versions && versions == old(versions)[(id, 1) := versions[(id, 1)]]
      ensures Holds(versions[(id, 1)], fields, note, author, now)
    {
      var row := Agent(projectId, fields, 1, None, now, now);
      agents := agents[id := row];
      versions := versions[(id, 1) := VersionRow(CamelSnapshot(row.fields), note, author, now)];
      d := RowToDefinition(id, row);
    }

    method Get(id: int) returns (r: Outcome)
      ensures r == if id in agents then Success(RowToDefinition(id, agents[id])) else Failed(NotFound)
      ensures r.Success? ==> Shows(r.definition, id, agents[id])
    {
      if id !in agents {
        return Failed(NotFound);
      }
      return Success(RowToDefinition(id, agents[id]));
    }

    method GetByVersion(id: int, version: int) returns (r: Outcome)
      requires Valid()
      ensures r.Success? <==> version >= 1 && id in agents && (id, version) in versions
      ensures r.Success? ==> r.definition == SnapshotToDefinition(id, agents[id], version, versions[(id, version)])
      ensures r.Success? ==>
        var d, row, v := r.definition, agents[id], versions[(id, version)];
        && Shows(d, id, row.(fields := d.fields, currentVersion := version, updatedAt := v.createdAt))
        && forall f: Field :: f in d.fields && ReadsAs(v.snapshot, row, f, d.fields[f])
      ensures r.Failed? ==>
                r.failure == if version < 1 then InvalidInput else if id !in agents then NotFound else VersionNotFound
    {
      if version < 1 {
        return Failed(InvalidInput);
      }
      if id !in agents {
        return Failed(NotFound);
      }
      if (id, version) !in versions {
        return Failed(VersionNotFound);
      }
      return Success(SnapshotToDefinition(id, agents[id], version, versions[(id, version)]));
    }

    /** Keeps the editable keys that are present and not undefined, and no other key. */
    static method PickEditablePatch(input: PatchInput) returns (out: Fields)
      ensures out == Picked(input)
      ensures forall f :: f in out <==> Editable(f) in input && input[Editable(f)].Some?
      ensures forall f :: f in out ==> out[f] == input[Editable(f)].value
    {
      out := map[];
      for i := 0 to |EDITABLE_KEYS|
        invariant forall f :: f in out <==> f in Picked(input) && f in EDITABLE_KEYS[..i]
        invariant forall f :: f in out ==> out[f] == Picked(input)[f]
      {
        var k := EDITABLE_KEYS[i];
        if Editable(k) in input && input[Editable(k)].Some? {
          out := out[k := input[Editable(k)].value];
        }
      }
      AllFieldsListed();
      assert EDITABLE_KEYS[..|EDITABLE_KEYS|] == EDITABLE_KEYS;
      assert out.Keys == Picked(input).Keys;
    }

    method Patch(id: int, ifMatch: int, input: PatchInput, note: Option<string>, author: Option<int>, now: int)
      returns (r: Outcome)
      requires Valid()
      modifies this
      ensures Valid() && (Contents(), r) == PatchTx(old(Contents()), id, ifMatch, input, note, author, now)
      ensures r.Success? <==>
        && ifMatch >= 1 && (exists f :: Gives(input, f))
        && id in old(agents) && old(agents)[id].archivedAt == None && old(agents)[id].currentVersion == ifMatch
      ensures r.Failed? ==> Contents() == old(Contents())
      ensures r.Failed? ==>
        r.failure == (if ifMatch < 1 then InvalidInput
                      else if forall f :: !Gives(input, f) then EmptyPatch
                      else if id !in old(agents) then NotFound
                      else if old(agents)[id].archivedAt.Some? then Archived(old(agents)[id].archivedAt.value)
                      else Conflict(ifMatch, old(agents)[id].currentVersion))
      ensures r.Success? ==>
        && id in agents && agents == old(agents)[id := agents[id]] && Shows(r.definition, id, agents[id])
        && var before, after := old(agents)[id], agents[id];
           && after == before.(fields := after.fields, currentVersion := ifMatch + 1, updatedAt := now)
           && forall f: Field ::
                && f in after.fields
                && after.fields[f] == if Gives(input, f) then input[Editable(f)].value else before.fields[f]
      ensures r.Success? ==>
        && (id, ifMatch + 1) in versions && versions == old(versions)[(id, ifMatch + 1) := versions[(id, ifMatch + 1)]]
        && Holds(versions[(id, ifMatch + 1)], agents[id].fields, note, author, now)
    {
      if ifMatch < 1 {
        return Failed(InvalidInput);
      }
      var editablePatch := PickEditablePatch(input);
      assert forall f :: f in editablePatch <==> Gives(input, f);
      if editablePatch == map[] {
        return Failed(EmptyPatch);
      }
      SomeKey(editablePatch);
      if id !in agents {
        return Failed(NotFound);
      }
      var row := agents[id];
      if row.archivedAt.Some? {
        return Failed(Archived(row.archivedAt.value));
      }
      if row.currentVersion != ifMatch {
        return Failed(Conflict(ifMatch, row.currentVersion));
      }
      var nextVersion := row.currentVersion + 1;
      var merged := row.fields + editablePatch;
      versions := versions[(id, nextVersion) := VersionRow(CamelSnapshot(merged), note, author, now)];
      var updated := row.(fields := row.fields + editablePatch, currentVersion := nextVersion, updatedAt := now);
      agents := agents[id := updated];
      r := Success(RowToDefinition(id, updated));
    }

    method Archive(id: int, now: int) returns (r: Outcome)
      requires Valid()
      modifies this
      ensures Valid() && (Contents(), r) == ArchiveTx(old(Contents()), id, now)
      ensures r == Failed(NotFound) <==> id !in old(agents)
      ensures r.Failed? ==> r == Failed(NotFound) && Contents() == old(Contents())
      ensures r.Success? ==>
        && versions == old(versions) && id in agents && agents == old(agents)[id := agents[id]]
        && Shows(r.definition, id, agents[id])
        && agents[id] == if old(agents)[id].archivedAt.Some? then old(agents)[id]
                         else old(agents)[id].(archivedAt := Some(now), updatedAt := now)
    {
      if id !in agents {
        return Failed(NotFound);
      }
      var row := agents[id];
      if row.archivedAt.Some? {
        return Success(RowToDefinition(id, row));
      }
      var updated := row.(archivedAt := Some(now), updatedAt := now);
      agents := agents[id := updated];
      r := Success(RowToDefinition(id, updated));
    }
  }

  lemma SomeKey(fields: Fields)
    requires fields != map[]
    ensures exists f :: f in fields
  {
    assert fields.Keys != {};
  }

  lemma AllFieldsListed()
    ensures forall f: Field :: f in EDITABLE_KEYS
  {
    var keys := EDITABLE_KEYS;
    forall f: Field ensures f in keys {
      match f
      case Name => assert keys[0] == Name;
      case Description => assert keys[1] == Description;
      case Icon => assert keys[2] == Icon;
      case ProviderType => assert keys[3] == ProviderType;
      case Model => assert keys[4] == Model;
      case SystemPrompt => assert keys[5] == SystemPrompt;
      case AppendSystemPrompt => assert keys[6] == AppendSystemPrompt;
      case AllowedTools => assert keys[7] == AllowedTools;
      case Skills => assert keys[8] == Skills;
      case McpServers => assert keys[9] == McpServers;
      case MaxSteps => assert keys[10] == MaxSteps;
      case DeliveryMode => assert keys[11] == DeliveryMode;
      case Config => assert keys[12] == Config;
    }
  }
}
