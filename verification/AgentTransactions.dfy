/**
 * Create, patch and archive transactions interleaving under row locks, and with them the older agent store, which
 * writes the same rows and knows nothing of versions.
 */
module AgentTransactions {
  import opened Text
  import opened Json
  import opened AgentDefinitions

  /** An open transaction that holds the row lock of `id`, with the row as it read it. */
  datatype Tx =
    | Patching(id: int, ifMatch: int, patch: Fields, note: Option<string>, author: Option<int>, row: Agent)
    | Archiving(id: int, row: Agent)

  /** A committed patch, or fields the older store wrote over the row. */
  datatype Change = Patched(ifMatch: int, fields: Fields) | Overwritten(fields: Fields)

  /** What an agent was created with, whether that was stored as version 1, and the changes since, oldest first. */
  datatype History = History(created: Fields, versioned: bool, changes: seq<Change>)

  datatype State = State(db: Db, pending: map<int, Tx>, history: map<int, History>)

  datatype Action =
    | Create(id: int, projectId: int, fields: Fields, note: Option<string>, author: Option<int>, now: int)
    | LockForPatch(tx: int, id: int, ifMatch: int, input: PatchInput, note: Option<string>, author: Option<int>)
    | CommitPatch(tx: int, now: int)
    | LockForArchive(tx: int, id: int)
    | CommitArchive(tx: int, now: int)
    | Rollback(tx: int)
    | LegacyCreate(id: int, projectId: int, fields: Fields, now: int)
    | LegacyUpdate(id: int, input: PatchInput, now: int)

  /** The older store never writes these two fields of an existing row. */
  predicate Overwritable(f: Field) {
    f != ProviderType && f != Config
  }

  function Overwriting(input: PatchInput): Fields {
    map f | f in Picked(input) && Overwritable(f) :: Picked(input)[f]
  }

  /** The fields of a row the older store inserts. */
  predicate LegacyFields(fields: Fields) {
    Complete(fields) && fields[ProviderType] == Str("claude-code") && fields[Config] == Null
  }

  predicate LockFree(pending: map<int, Tx>, id: int) {
    forall x :: x in pending ==> pending[x].id != id
  }

  /**
   * One action. Taking the row lock waits until it is free and reads the row as committed then; a
   * transaction whose checks fail ends there and changes nothing, so it needs no action. The older store's
   * statements check nothing; its update waits for the row lock like every write.
   */
  ghost predicate Acts(s: State, a: Action, t: State) {
    match a
    case Create(id, projectId, fields, note, author, now) =>
      && id !in s.db.agents && Complete(fields)
      && t == State(CreateTx(s.db, id, projectId, fields, note, author, now), s.pending,
                    s.history[id := History(fields, true, [])])
    case LockForPatch(tx, id, ifMatch, input, note, author) =>
      && tx !in s.pending && LockFree(s.pending, id)
      && ifMatch >= 1 && Picked(input) != map[] && PatchRefusal(s.db.agents, id, ifMatch).None?
      && t == s.(pending := s.pending[tx := Patching(id, ifMatch, Picked(input), note, author, s.db.agents[id])])
    case CommitPatch(tx, now) =>
      && tx in s.pending && s.pending[tx].Patching?
      && var p := s.pending[tx];
         p.id in s.db.agents && p.id in s.history
         && t == State(ApplyPatch(s.db, p.id, p.row, p.patch, p.note, p.author, now), s.pending - {tx},
                       s.history[p.id := Extended(s.history[p.id], p)])
    case LockForArchive(tx, id) =>
      && tx !in s.pending && LockFree(s.pending, id) && id in s.db.agents && s.db.agents[id].archivedAt.None?
      && t == s.(pending := s.pending[tx := Archiving(id, s.db.agents[id])])
    case CommitArchive(tx, now) =>
      && tx in s.pending && s.pending[tx].Archiving? && s.pending[tx].id in s.db.agents
      && t == s.(db := ApplyArchive(s.db, s.pending[tx].id, now), pending := s.pending - {tx})
    case Rollback(tx) =>
      tx in s.pending && t == s.(pending := s.pending - {tx})
    case LegacyCreate(id, projectId, fields, now) =>
      && id !in s.db.agents && LegacyFields(fields)
      && t == State(s.db.(agents := s.db.agents[id := Agent(projectId, fields, 1, None, now, now)]), s.pending,
                    s.history[id := History(fields, false, [])])
    case LegacyUpdate(id, input, now) =>
      && id in s.db.agents && id in s.history && LockFree(s.pending, id)
      && t == State(s.db.(agents := s.db.agents[id := Written(s.db.agents[id], Overwriting(input), now)]), s.pending,
                    s.history[id := More(s.history[id], Overwritten(Overwriting(input)))])
  }

  /** A patch can start exactly when the row is free and the service's checks pass. */
  lemma PatchStartsIff(s: State, tx: int, id: int, ifMatch: int, input: PatchInput, note: Option<string>, author: Option<int>)
    ensures (exists t :: Acts(s, LockForPatch(tx, id, ifMatch, input, note, author), t)) <==>
            && tx !in s.pending && (forall x :: x in s.pending ==> s.pending[x].id != id)
            && ifMatch >= 1 && (exists f :: Gives(input, f))
            && id in s.db.agents && s.db.agents[id].archivedAt == None && s.db.agents[id].currentVersion == ifMatch
    ensures forall t | Acts(s, LockForPatch(tx, id, ifMatch, input, note, author), t) ::
              && t.db == s.db && t.history == s.history && id in s.db.agents && tx in t.pending
              && t == s.(pending := s.pending[tx := t.pending[tx]])
              && t.pending[tx] == Patching(id, ifMatch, t.pending[tx].patch, note, author, s.db.agents[id])
              && forall f :: (f in t.pending[tx].patch <==> Gives(input, f))
                             && (Gives(input, f) ==> Some(t.pending[tx].patch[f]) == input[Editable(f)])
  {
    assert forall f :: f in Picked(input) <==> Gives(input, f);
    if Picked(input) != map[] {
      SomeKey(Picked(input));
    }
    if LockFree(s.pending, id) && id in s.db.agents {
      var p := Patching(id, ifMatch, Picked(input), note, author, s.db.agents[id]);
      var t := s.(pending := s.pending[tx := p]);
      assert t == s.(pending := s.pending[tx := Patching(id, ifMatch, Picked(input), note, author, s.db.agents[id])]);
      if tx !in s.pending && ifMatch >= 1 && Picked(input) != map[] && PatchRefusal(s.db.agents, id, ifMatch).None? {
        assert Acts(s, LockForPatch(tx, id, ifMatch, input, note, author), t);
      }
    }
  }

  /** An archival can start exactly when the row is free and not archived; it can commit whenever it has started. */
  lemma ArchiveStartsIff(s: State, tx: int, id: int, now: int)
    ensures (exists t :: Acts(s, LockForArchive(tx, id), t)) <==>
            && tx !in s.pending && (forall x :: x in s.pending ==> s.pending[x].id != id)
            && id in s.db.agents && s.db.agents[id].archivedAt == None
    ensures Inv(s) && tx in s.pending && s.pending[tx].Archiving? ==> exists t :: Acts(s, CommitArchive(tx, now), t)
    ensures Inv(s) && tx in s.pending && s.pending[tx].Patching? ==> exists t :: Acts(s, CommitPatch(tx, now), t)
  {
    hide AgentInv;
    if Inv(s) && tx in s.pending {
      assert s.pending[tx].id in s.db.agents && s.pending[tx].id in s.history;
      CommitsWhenStarted(s, tx, now);
    }
    if tx !in s.pending && LockFree(s.pending, id) && id in s.db.agents && s.db.agents[id].archivedAt == None {
      assert Acts(s, LockForArchive(tx, id), s.(pending := s.pending[tx := Archiving(id, s.db.agents[id])]));
    }
  }

  lemma CommitsWhenStarted(s: State, tx: int, now: int)
    requires tx in s.pending && s.pending[tx].id in s.db.agents && s.pending[tx].id in s.history
    ensures s.pending[tx].Archiving? ==> exists t :: Acts(s, CommitArchive(tx, now), t)
    ensures s.pending[tx].Patching? ==> exists t :: Acts(s, CommitPatch(tx, now), t)
  {
    hide ApplyPatch, ApplyArchive, Extended;
    var p := s.pending[tx];
    if p.Archiving? {
      var t := s.(db := ApplyArchive(s.db, p.id, now), pending := s.pending - {tx});
      assert Acts(s, CommitArchive(tx, now), t);
    } else {
      var t := State(ApplyPatch(s.db, p.id, p.row, p.patch, p.note, p.author, now), s.pending - {tx},
                     s.history[p.id := Extended(s.history[p.id], p)]);
      assert Acts(s, CommitPatch(tx, now), t);
    }
  }

  function Written(row: Agent, fields: Fields, now: int): Agent {
    row.(fields := row.fields + fields, updatedAt := now)
  }

  function More(h: History, c: Change): History {
    h.(changes := h.changes + [c])
  }

  function Extended(h: History, p: Tx): History
    requires p.Patching?
  {
    More(h, Patched(p.ifMatch, p.patch))
  }

  /** Changes applied one after the other. */
  function Fold(created: Fields, changes: seq<Change>): Fields {
    if changes == [] then created
    else Fold(created, changes[..|changes| - 1]) + changes[|changes| - 1].fields
  }

  function Patches(changes: seq<Change>): nat {
    if changes == [] then 0
    else Patches(changes[..|changes| - 1]) + if changes[|changes| - 1].Patched? then 1 else 0
  }

  /** The changes up to and including the `n`-th patch. */
  function UpTo(changes: seq<Change>, n: int): seq<Change> {
    if changes == [] then []
    else if n <= Patches(changes[..|changes| - 1]) then UpTo(changes[..|changes| - 1], n)
    else changes
  }

  /** An agent of the older store has no version 1. */
  function First(h: History): int {
    if h.versioned then 1 else 2
  }

  // ---------------------------------------------------------------- invariant

  /** The snapshot stores a value for every field, under either spelling, and these are the values. */
  ghost predicate Stores(snapshot: Snapshot, fields: Fields) {
    forall f: Field :: f in fields && ReadSnapshotField(snapshot, f) == Some(fields[f])
  }

  /** The live row is the created fields with every change folded in; the k-th patch carried If-Match k. */
  ghost predicate RowInv(row: Agent, h: History) {
    && Complete(h.created) && Complete(row.fields)
    && row.currentVersion == 1 + Patches(h.changes)
    && row.fields == Fold(h.created, h.changes)
    && (forall k | 0 <= k < |h.changes| && h.changes[k].Patched? :: h.changes[k].ifMatch == 1 + Patches(h.changes[..k]))
  }

  /** Version v stores the created fields with the changes up to the (v - 1)-th patch folded in. */
  ghost predicate VersionsInv(versions: Versions, id: int, h: History) {
    && (forall v: int :: (id, v) in versions <==> First(h) <= v <= 1 + Patches(h.changes))
    && (forall v :: First(h) <= v <= 1 + Patches(h.changes) ==>
          Stores(versions[(id, v)].snapshot, Fold(h.created, UpTo(h.changes, v - 1))))
  }

  ghost predicate AgentInv(db: Db, id: int, h: History)
    requires id in db.agents
  {
    RowInv(db.agents[id], h) && VersionsInv(db.versions, id, h)
  }

  /** A row is locked by one transaction at most, and is still as that transaction read it. */
  ghost predicate LocksInv(pending: map<int, Tx>, agents: Agents) {
    && (forall x, y :: x in pending && y in pending && x != y ==> pending[x].id != pending[y].id)
    && (forall x :: x in pending ==>
          && pending[x].id in agents
          && pending[x].row == agents[pending[x].id]
          && pending[x].row.archivedAt.None?
          && (pending[x].Patching? ==> pending[x].ifMatch == pending[x].row.currentVersion))
  }

  ghost predicate Inv(s: State) {
    && s.db.agents.Keys == s.history.Keys
    && (forall k :: k in s.db.versions ==> k.0 in s.db.agents)
    && (forall id :: id in s.db.agents ==> AgentInv(s.db, id, s.history[id]))
    && LocksInv(s.pending, s.db.agents)
  }

  /** Agents that existed before versioning have one snapshot in the migration's spelling. */
  ghost predicate Initial(s: State) {
    && s.pending == map[] && s.db.agents.Keys == s.history.Keys
    && (forall id :: id in s.db.agents ==>
          && Complete(s.db.agents[id].fields) && s.db.agents[id].currentVersion == 1
          && s.history[id] == History(s.db.agents[id].fields, true, [])
          && (id, 1) in s.db.versions
          && s.db.versions[(id, 1)].snapshot == MigratedSnapshot(s.db.agents[id].fields))
    && (forall k :: k in s.db.versions ==> k.0 in s.db.agents && k.1 == 1)
  }

  lemma StoresWritten(fields: Fields)
    requires Complete(fields)
    ensures Stores(CamelSnapshot(fields), fields) && Stores(MigratedSnapshot(fields), fields)
  {
    var camel, migrated := CamelSnapshot(fields), MigratedSnapshot(fields);
    forall f: Field
      ensures ReadSnapshotField(camel, f) == Some(fields[f])
      ensures ReadSnapshotField(migrated, f) == Some(fields[f])
    {
      assert Camel(f) in camel;
      assert SnakeKey(f) in migrated;
    }
  }

  lemma StoredReads(row: Agent, snapshot: Snapshot, fields: Fields)
    requires Complete(row.fields) && Stores(snapshot, fields)
    ensures ReadSnapshot(row, snapshot) == fields
  {
    assert forall f: Field :: ReadSnapshotField(snapshot, f) == Some(fields[f]);
  }

  lemma InitialInv(s: State)
    requires Initial(s)
    ensures Inv(s)
  {
    forall id | id in s.db.agents ensures AgentInv(s.db, id, s.history[id]) {
      StoresWritten(s.db.agents[id].fields);
    }
  }

  lemma FoldMore(created: Fields, changes: seq<Change>, c: Change)
    ensures Fold(created, changes + [c]) == Fold(created, changes) + c.fields
    ensures Patches(changes + [c]) == Patches(changes) + if c.Patched? then 1 else 0
    ensures forall n :: n <= Patches(changes) ==> UpTo(changes + [c], n) == UpTo(changes, n)
    ensures UpTo(changes + [c], Patches(changes) + 1) == changes + [c]
  {
    assert (changes + [c])[..|changes|] == changes;
  }

  lemma IfMatchMore(changes: seq<Change>, c: Change)
    requires forall k | 0 <= k < |changes| && changes[k].Patched? :: changes[k].ifMatch == 1 + Patches(changes[..k])
    requires c.Patched? ==> c.ifMatch == 1 + Patches(changes)
    ensures var more := changes + [c];
            forall k | 0 <= k < |more| && more[k].Patched? :: more[k].ifMatch == 1 + Patches(more[..k])
  {
    hide Patches;
    var more := changes + [c];
    forall k | 0 <= k < |more| && more[k].Patched? ensures more[k].ifMatch == 1 + Patches(more[..k]) {
      assert more[..k] == changes[..k];
      assert changes[..|changes|] == changes;
    }
  }

  lemma RowMore(row: Agent, h: History, c: Change, next: Agent)
    requires RowInv(row, h) && (c.Patched? ==> c.ifMatch == row.currentVersion)
    requires next.fields == row.fields + c.fields
    requires next.currentVersion == row.currentVersion + if c.Patched? then 1 else 0
    ensures RowInv(next, More(h, c))
  {
    hide Fold, Patches;
    FoldMore(h.created, h.changes, c);
    IfMatchMore(h.changes, c);
  }

  lemma OneMoreVersion(versions: Versions, id: int, h: History, c: Change, version: VersionRow)
    requires VersionsInv(versions, id, h) && c.Patched?
    requires Stores(version.snapshot, Fold(h.created, h.changes) + c.fields)
    ensures VersionsInv(versions[(id, 2 + Patches(h.changes)) := version], id, More(h, c))
  {
    hide Fold, Stores, Patches, UpTo;
    var n := 1 + Patches(h.changes);
    var after, g := versions[(id, n + 1) := version], More(h, c);
    FoldMore(h.created, h.changes, c);
    forall v: int
      ensures (id, v) in after <==> First(g) <= v <= 1 + Patches(g.changes)
      ensures First(g) <= v <= n + 1 ==> Stores(after[(id, v)].snapshot, Fold(g.created, UpTo(g.changes, v - 1)))
    {
      assert (id, v) in versions <==> First(h) <= v <= n;
    }
  }

  lemma NoMoreVersion(versions: Versions, id: int, h: History, c: Change)
    requires VersionsInv(versions, id, h) && c.Overwritten?
    ensures VersionsInv(versions, id, More(h, c))
  {
    hide Fold, Stores, Patches, UpTo;
    FoldMore(h.created, h.changes, c);
  }

  lemma SameVersions(versions: Versions, after: Versions, id: int, h: History)
    requires VersionsInv(versions, id, h)
    requires forall v: int :: ((id, v) in after <==> (id, v) in versions)
    requires forall v: int :: (id, v) in versions ==> after[(id, v)] == versions[(id, v)]
    ensures VersionsInv(after, id, h)
  {
    hide Fold, Stores, Patches, UpTo;
    forall v | First(h) <= v <= 1 + Patches(h.changes)
      ensures Stores(after[(id, v)].snapshot, Fold(h.created, UpTo(h.changes, v - 1)))
    {
      assert (id, v) in versions;
    }
  }

  lemma LocksReleased(pending: map<int, Tx>, agents: Agents, tx: int, row: Agent)
    requires LocksInv(pending, agents) && tx in pending
    ensures LocksInv(pending - {tx}, agents) && LocksInv(pending - {tx}, agents[pending[tx].id := row])
  {
  }

  lemma LocksTaken(pending: map<int, Tx>, agents: Agents, tx: int, p: Tx)
    requires LocksInv(pending, agents) && LockFree(pending, p.id) && tx !in pending
    requires p.id in agents && p.row == agents[p.id] && p.row.archivedAt.None?
    requires p.Patching? ==> p.ifMatch == p.row.currentVersion
    ensures LocksInv(pending[tx := p], agents)
  {
  }

  lemma LocksStay(pending: map<int, Tx>, agents: Agents, id: int, row: Agent)
    requires LocksInv(pending, agents) && (id !in agents || LockFree(pending, id))
    ensures LocksInv(pending, agents[id := row])
  {
  }

  lemma RowParts(row: Agent, h: History)
    requires RowInv(row, h)
    ensures Complete(row.fields) && row.currentVersion == 1 + Patches(h.changes) && row.fields == Fold(h.created, h.changes)
  {
  }

  lemma CommitAgent(s: State, tx: int, now: int, t: State)
    requires Inv(s) && Acts(s, CommitPatch(tx, now), t)
    ensures var id := s.pending[tx].id; id in t.db.agents && AgentInv(t.db, id, t.history[id])
  {
    hide RowInv, VersionsInv, CamelSnapshot, Stores, Fold, Patches;
    var p := s.pending[tx];
    var h, c := s.history[p.id], Patched(p.ifMatch, p.patch);
    assert AgentInv(s.db, p.id, h);
    RowParts(p.row, h);
    RowMore(p.row, h, c, t.db.agents[p.id]);
    StoresWritten(p.row.fields + p.patch);
    OneMoreVersion(s.db.versions, p.id, h, c, VersionRow(CamelSnapshot(p.row.fields + p.patch), p.note, p.author, now));
  }

  lemma CommitKeeps(s: State, tx: int, now: int, t: State)
    requires Inv(s) && Acts(s, CommitPatch(tx, now), t)
    ensures Inv(t)
  {
    hide RowInv, VersionsInv, LocksInv, Extended, CamelSnapshot;
    var p := s.pending[tx];
    CommitAgent(s, tx, now, t);
    forall id | id in t.db.agents && id != p.id ensures AgentInv(t.db, id, t.history[id]) {
      SameVersions(s.db.versions, t.db.versions, id, s.history[id]);
    }
    LocksReleased(s.pending, s.db.agents, tx, t.db.agents[p.id]);
  }

  lemma FirstVersion(versions: Versions, id: int, fields: Fields, version: VersionRow)
    requires Stores(version.snapshot, fields) && forall v: int :: (id, v) !in versions
    ensures VersionsInv(versions[(id, 1) := version], id, History(fields, true, []))
    ensures VersionsInv(versions, id, History(fields, false, []))
  {
    hide Stores;
  }

  lemma CreatedAgent(s: State, a: Action, t: State)
    requires Inv(s) && (a.Create? || a.LegacyCreate?) && Acts(s, a, t)
    ensures a.id in t.db.agents && AgentInv(t.db, a.id, t.history[a.id])
  {
    hide VersionsInv, Stores, CamelSnapshot;
    StoresWritten(a.fields);
    FirstVersion(s.db.versions, a.id, a.fields, VersionRow(CamelSnapshot(a.fields), if a.Create? then a.note else None,
                                                           if a.Create? then a.author else None, a.now));
  }

  lemma CreateKeeps(s: State, a: Action, t: State)
    requires Inv(s) && (a.Create? || a.LegacyCreate?) && Acts(s, a, t)
    ensures Inv(t)
  {
    hide RowInv, VersionsInv, LocksInv, CamelSnapshot, LegacyFields;
    CreatedAgent(s, a, t);
    forall id | id in t.db.agents && id != a.id ensures AgentInv(t.db, id, t.history[id]) {
      SameVersions(s.db.versions, t.db.versions, id, s.history[id]);
    }
    LocksStay(s.pending, s.db.agents, a.id, t.db.agents[a.id]);
  }

  lemma UpdateKeeps(s: State, a: Action, t: State)
    requires Inv(s) && a.LegacyUpdate? && Acts(s, a, t)
    ensures Inv(t)
  {
    hide RowInv, VersionsInv, LocksInv, Overwriting, More;
    var h, c := s.history[a.id], Overwritten(Overwriting(a.input));
    assert AgentInv(s.db, a.id, h);
    RowMore(s.db.agents[a.id], h, c, t.db.agents[a.id]);
    NoMoreVersion(s.db.versions, a.id, h, c);
    LocksStay(s.pending, s.db.agents, a.id, t.db.agents[a.id]);
  }

  lemma ArchivedRow(row: Agent, h: History, now: int)
    requires RowInv(row, h)
    ensures RowInv(row.(archivedAt := Some(now), updatedAt := now), h)
  {
  }

  lemma ArchiveKeeps(s: State, tx: int, now: int, t: State)
    requires Inv(s) && Acts(s, CommitArchive(tx, now), t)
    ensures Inv(t)
  {
    hide RowInv, VersionsInv, LocksInv;
    var id := s.pending[tx].id;
    assert AgentInv(s.db, id, s.history[id]);
    ArchivedRow(s.db.agents[id], s.history[id], now);
    LocksReleased(s.pending, s.db.agents, tx, t.db.agents[id]);
  }

  lemma LockKeeps(s: State, a: Action, t: State)
    requires Inv(s) && Acts(s, a, t) && (a.LockForPatch? || a.LockForArchive? || a.Rollback?)
    ensures Inv(t)
  {
    hide RowInv, VersionsInv, LocksInv, Picked;
    if a.Rollback? {
      LocksReleased(s.pending, s.db.agents, a.tx, s.pending[a.tx].row);
    } else {
      LocksTaken(s.pending, s.db.agents, a.tx, t.pending[a.tx]);
    }
  }

  lemma ActionKeeps(s: State, a: Action, t: State)
    requires Inv(s) && Acts(s, a, t)
    ensures Inv(t)
  {
    hide Inv;
    match a
    case Create(_, _, _, _, _, _) => CreateKeeps(s, a, t);
    case CommitPatch(tx, now) => CommitKeeps(s, tx, now, t);
    case CommitArchive(tx, now) => ArchiveKeeps(s, tx, now, t);
    case LegacyCreate(_, _, _, _) => CreateKeeps(s, a, t);
    case LegacyUpdate(_, _, _) => UpdateKeeps(s, a, t);
    case _ => LockKeeps(s, a, t);
  }

  // ---------------------------------------------------------------- runs

  ghost predicate IsRun(states: seq<State>, actions: seq<Action>) {
    && |states| == |actions| + 1 && Initial(states[0])
    && forall i :: 0 <= i < |actions| ==> Acts(states[i], actions[i], states[i + 1])
  }

  /**
   * In every reachable state each agent's versions are exactly 1..currentVersion, or 2..currentVersion for an agent
   * of the older store; the snapshot of version v holds the created fields with every change up to the (v - 1)-th
   * patch folded in, the live fields have all changes folded in, and the k-th patch carried If-Match k.
   */
  lemma {:induction false} RunKeepsInv(states: seq<State>, actions: seq<Action>, i: nat)
    requires IsRun(states, actions) && i <= |actions|
    ensures Inv(states[i])
  {
    hide Inv, Acts;
    if i == 0 {
      InitialInv(states[0]);
    } else {
      RunKeepsInv(states, actions, i - 1);
      ActionKeeps(states[i - 1], actions[i - 1], states[i]);
    }
  }

  /** A stored version reads as the fields it was written with, whatever has happened since. */
  lemma OldVersionReads(s: State, id: int, v: int)
    requires Inv(s) && id in s.db.agents && First(s.history[id]) <= v <= s.db.agents[id].currentVersion
    ensures (id, v) in s.db.versions
    ensures ReadSnapshot(s.db.agents[id], s.db.versions[(id, v)].snapshot)
            == Fold(s.history[id].created, UpTo(s.history[id].changes, v - 1))
  {
    hide Fold, UpTo, Patches, Stores, ReadSnapshot;
    var h := s.history[id];
    assert AgentInv(s.db, id, h);
    StoredReads(s.db.agents[id], s.db.versions[(id, v)].snapshot, Fold(h.created, UpTo(h.changes, v - 1)));
  }

  lemma WritesFreshVersion(s: State, a: Action, t: State)
    requires Inv(s) && Acts(s, a, t)
    ensures forall k :: k in s.db.versions ==> k in t.db.versions && t.db.versions[k] == s.db.versions[k]
  {
    hide RowInv, Stores, Fold, CamelSnapshot, Extended;
    if a.CommitPatch? {
      var p := s.pending[a.tx];
      assert AgentInv(s.db, p.id, s.history[p.id]);
      RowParts(p.row, s.history[p.id]);
      assert (p.id, p.row.currentVersion + 1) !in s.db.versions;
    }
  }

  /** No written snapshot ever changes or disappears. */
  lemma {:induction false} SnapshotsNeverChange(states: seq<State>, actions: seq<Action>, i: nat, j: nat, k: (int, int))
    requires IsRun(states, actions) && i <= j <= |actions| && k in states[i].db.versions
    ensures k in states[j].db.versions && states[j].db.versions[k] == states[i].db.versions[k]
    decreases j
  {
    hide Inv, Acts;
    if i < j {
      SnapshotsNeverChange(states, actions, i, j - 1, k);
      RunKeepsInv(states, actions, j - 1);
      WritesFreshVersion(states[j - 1], actions[j - 1], states[j]);
    }
  }

  lemma {:induction false} PatchesGrow(changes: seq<Change>, k: nat, l: nat)
    requires k < l <= |changes| && changes[k].Patched?
    ensures Patches(changes[..k]) < Patches(changes[..l])
    decreases l
  {
    assert changes[..l][..l - 1] == changes[..l - 1];
    if k < l - 1 {
      PatchesGrow(changes, k, l - 1);
    }
  }

  /** Of all patches of an agent that carried the same If-Match, at most one was committed. */
  lemma NoLostUpdate(s: State, id: int, k: nat, l: nat)
    requires Inv(s) && id in s.history && k < |s.history[id].changes| && l < |s.history[id].changes|
    requires s.history[id].changes[k].Patched? && s.history[id].changes[l].Patched?
    requires s.history[id].changes[k].ifMatch == s.history[id].changes[l].ifMatch
    ensures k == l
  {
    hide Patches, Fold, VersionsInv;
    var changes := s.history[id].changes;
    assert AgentInv(s.db, id, s.history[id]);
    if k < l {
      PatchesGrow(changes, k, l);
    } else if l < k {
      PatchesGrow(changes, l, k);
    }
  }

  /** The two-step transaction under the lock does what the whole patch would do at its commit. */
  lemma CommitIsAtomicPatch(s: State, tx: int, now: int, t: State, input: PatchInput)
    requires Inv(s) && Acts(s, CommitPatch(tx, now), t) && s.pending[tx].ifMatch >= 1
    requires Picked(input) == s.pending[tx].patch && Picked(input) != map[]
    ensures var p := s.pending[tx];
            var (db, outcome) := PatchTx(s.db, p.id, p.ifMatch, input, p.note, p.author, now);
            t.db == db && outcome == Success(RowToDefinition(p.id, t.db.agents[p.id]))
  {
    assert LocksInv(s.pending, s.db.agents);
  }

  // ---------------------------------------------------------------- the current version and the live definition

  /** The current version can be read and agrees with the live definition; only `updatedAt` may differ. */
  predicate ReadsAsLive(db: Db, id: int)
    requires id in db.agents
  {
    var row := db.agents[id];
    && Complete(row.fields) && (id, row.currentVersion) in db.versions
    && var v := db.versions[(id, row.currentVersion)];
       SnapshotToDefinition(id, row, row.currentVersion, v) == RowToDefinition(id, row).(updatedAt := v.createdAt)
  }

  /** It does exactly when there is a version at all and what was overwritten since the last patch changed nothing. */
  lemma CurrentVersionIsLive(s: State, id: int)
    requires Inv(s) && id in s.db.agents
    ensures var h := s.history[id];
            ReadsAsLive(s.db, id) <==>
            && (h.versioned || Patches(h.changes) > 0)
            && Fold(h.created, UpTo(h.changes, Patches(h.changes))) == Fold(h.created, h.changes)
  {
    hide RowInv, Fold, UpTo, Patches, Stores, ReadSnapshot;
    var row, h := s.db.agents[id], s.history[id];
    assert AgentInv(s.db, id, h);
    RowParts(row, h);
    assert (id, row.currentVersion) in s.db.versions <==> h.versioned || Patches(h.changes) > 0;
    if (id, row.currentVersion) in s.db.versions {
      OldVersionReads(s, id, row.currentVersion);
    }
  }

  ghost predicate AllReadAsLive(s: State) {
    forall id :: id in s.db.agents ==> ReadsAsLive(s.db, id)
  }

  /** An agent created without a version, or a field overwritten without one. */
  predicate Departs(s: State, a: Action) {
    || a.LegacyCreate?
    || (a.LegacyUpdate? && a.id in s.db.agents
        && s.db.agents[a.id].fields + Overwriting(a.input) != s.db.agents[a.id].fields)
  }

  lemma FoldsAlike(s: State, t: State, id: int)
    requires Inv(s) && Inv(t) && id in s.db.agents && id in t.db.agents && t.history[id] == s.history[id]
    ensures ReadsAsLive(t.db, id) <==> ReadsAsLive(s.db, id)
  {
    hide Inv, ReadsAsLive, Fold, UpTo, Patches;
    SameAgents(s);
    SameAgents(t);
    CurrentVersionIsLive(s, id);
    CurrentVersionIsLive(t, id);
  }

  lemma SameAgents(s: State)
    requires Inv(s)
    ensures s.db.agents.Keys == s.history.Keys
  {
  }

  /** Whatever was overwritten before, once a patch commits the current version reads as the live definition again. */
  lemma CommitRestores(s: State, tx: int, now: int, t: State)
    requires Inv(s) && Acts(s, CommitPatch(tx, now), t)
    ensures s.pending[tx].id in t.db.agents && ReadsAsLive(t.db, s.pending[tx].id)
  {
    hide AgentInv, ReadsAsLive, Fold, UpTo, Patches, CamelSnapshot;
    var p := s.pending[tx];
    var h := s.history[p.id];
    ActionKeeps(s, CommitPatch(tx, now), t);
    CurrentVersionIsLive(t, p.id);
    FoldMore(h.created, h.changes, Patched(p.ifMatch, p.patch));
  }

  lemma CreateReads(s: State, a: Action, t: State)
    requires Inv(s) && (a.Create? || a.LegacyCreate?) && Acts(s, a, t)
    ensures a.id in t.db.agents && (ReadsAsLive(t.db, a.id) <==> a.Create?)
  {
    hide AgentInv, ReadsAsLive, CamelSnapshot, LegacyFields;
    ActionKeeps(s, a, t);
    CurrentVersionIsLive(t, a.id);
  }

  lemma UpdateReads(s: State, a: Action, t: State)
    requires Inv(s) && a.LegacyUpdate? && Acts(s, a, t) && ReadsAsLive(s.db, a.id)
    ensures ReadsAsLive(t.db, a.id) <==> !Departs(s, a)
  {
    hide AgentInv, ReadsAsLive, Fold, UpTo, Patches, Overwriting;
    var h, c := s.history[a.id], Overwritten(Overwriting(a.input));
    ActionKeeps(s, a, t);
    CurrentVersionIsLive(s, a.id);
    CurrentVersionIsLive(t, a.id);
    FoldMore(h.created, h.changes, c);
    assert AgentInv(s.db, a.id, h);
    AgentParts(s.db, a.id, h);
  }

  lemma AgentParts(db: Db, id: int, h: History)
    requires id in db.agents && AgentInv(db, id, h)
    ensures db.agents[id].fields == Fold(h.created, h.changes)
  {
  }

  /** The agent an action writes, if it writes one and extends or begins its history. */
  function Target(s: State, a: Action): Option<int> {
    match a
    case Create(id, _, _, _, _, _) => Some(id)
    case LegacyCreate(id, _, _, _) => Some(id)
    case LegacyUpdate(id, _, _) => Some(id)
    case CommitPatch(tx, _) => if tx in s.pending then Some(s.pending[tx].id) else None
    case _ => None
  }

  lemma OthersRead(s: State, a: Action, t: State, id: int)
    requires Inv(s) && Acts(s, a, t) && id in t.db.agents && Target(s, a) != Some(id)
    ensures id in s.db.agents && (ReadsAsLive(t.db, id) <==> ReadsAsLive(s.db, id))
  {
    hide AgentInv, LocksInv, ReadsAsLive, CamelSnapshot, LegacyFields, Overwriting, Extended, More, Picked;
    ActionKeeps(s, a, t);
    FoldsAlike(s, t, id);
  }

  lemma TargetReads(s: State, a: Action, t: State, id: int)
    requires Inv(s) && Acts(s, a, t) && AllReadAsLive(s) && Target(s, a) == Some(id)
    ensures id in t.db.agents && (ReadsAsLive(t.db, id) <==> !Departs(s, a))
  {
    hide Inv, ReadsAsLive, Overwriting, Extended, More, Picked;
    match a
    case Create(_, _, _, _, _, _) => CreateReads(s, a, t);
    case LegacyCreate(_, _, _, _) => CreateReads(s, a, t);
    case LegacyUpdate(_, _, _) => UpdateReads(s, a, t);
    case CommitPatch(tx, now) => CommitRestores(s, tx, now, t);
    case _ =>
  }

  /** From a state where every current version reads as live, exactly these actions lead to one where it does not. */
  lemma ActionReadsIff(s: State, a: Action, t: State)
    requires Inv(s) && Acts(s, a, t) && AllReadAsLive(s)
    ensures AllReadAsLive(t) <==> !Departs(s, a)
  {
    hide Inv, Acts, ReadsAsLive, Overwriting;
    var target := Target(s, a);
    if target.Some? {
      TargetReads(s, a, t, target.value);
    }
    forall id | id in t.db.agents && target != Some(id) ensures ReadsAsLive(t.db, id) {
      OthersRead(s, a, t, id);
    }
  }

  lemma InitialReads(s: State)
    requires Initial(s)
    ensures AllReadAsLive(s)
  {
    hide ReadsAsLive, Complete, MigratedSnapshot;
    InitialInv(s);
    forall id | id in s.db.agents ensures ReadsAsLive(s.db, id) {
      CurrentVersionIsLive(s, id);
    }
  }

  /**
   * Over every run: each agent's current version exists and reads as the live definition throughout if and only if
   * no agent is created by the older store and none of its updates changes a field.
   */
  lemma {:induction false} ReadsAsLiveIff(states: seq<State>, actions: seq<Action>, n: nat)
    requires IsRun(states, actions) && n <= |actions|
    ensures (forall i | 0 <= i <= n :: AllReadAsLive(states[i])) <==>
            (forall i | 0 <= i < n :: !Departs(states[i], actions[i]))
  {
    hide Inv, Acts, Initial, AllReadAsLive, Departs;
    if n == 0 {
      InitialReads(states[0]);
    } else {
      ReadsAsLiveIff(states, actions, n - 1);
      RunKeepsInv(states, actions, n - 1);
      if AllReadAsLive(states[n - 1]) {
        ActionReadsIff(states[n - 1], actions[n - 1], states[n]);
      }
    }
  }

  /** An update of the older store writes the given fields but provider type and configuration, and nothing else. */
  lemma LegacyUpdateWrites(s: State, id: int, input: PatchInput, now: int, t: State)
    requires Acts(s, LegacyUpdate(id, input, now), t)
    ensures t.db.versions == s.db.versions && id in t.db.agents && t.db.agents == s.db.agents[id := t.db.agents[id]]
    ensures var before, after := s.db.agents[id], t.db.agents[id];
            && after == before.(fields := after.fields, updatedAt := now)
            && forall f: Field ::
                 if Gives(input, f) && f !in {ProviderType, Config} then
                   f in after.fields && after.fields[f] == input[Editable(f)].value
                 else
                   (f in after.fields <==> f in before.fields) && (f in before.fields ==> after.fields[f] == before.fields[f])
  {
  }

  // ---------------------------------------------------------------- archived agents

  ghost predicate IsArchived(s: State, id: int) {
    id in s.db.agents && s.db.agents[id].archivedAt.Some?
  }

  /** What no later action takes back or adds to: the archive time, the version number and the versions. */
  ghost predicate SameVersionsOf(s: State, t: State, id: int) {
    && id in s.db.agents && id in t.db.agents
    && t.db.agents[id].archivedAt == s.db.agents[id].archivedAt
    && t.db.agents[id].currentVersion == s.db.agents[id].currentVersion
    && forall v: int ::
         && ((id, v) in t.db.versions <==> (id, v) in s.db.versions)
         && ((id, v) in s.db.versions ==> t.db.versions[(id, v)] == s.db.versions[(id, v)])
  }

  ghost predicate SameRow(s: State, t: State, id: int) {
    id in s.db.agents && id in t.db.agents && t.db.agents[id] == s.db.agents[id]
  }

  /** An update of the older store that changes a field or the update time of this agent. */
  predicate Touches(s: State, a: Action, id: int) {
    && a.LegacyUpdate? && a.id == id && id in s.db.agents
    && (s.db.agents[id].fields + Overwriting(a.input) != s.db.agents[id].fields || s.db.agents[id].updatedAt != a.now)
  }

  lemma ArchivedStep(s: State, a: Action, t: State, id: int)
    requires Inv(s) && Acts(s, a, t) && IsArchived(s, id)
    ensures SameVersionsOf(s, t, id)
    ensures SameRow(s, t, id) <==> !Touches(s, a, id)
  {
    hide AgentInv, Picked, CamelSnapshot, Extended, More, Overwriting, LegacyFields;
  }

  /** Once archived, no patch commits and no version of the agent is written any more. */
  lemma {:induction false} NothingAfterArchive(states: seq<State>, actions: seq<Action>, i: nat, j: nat, id: int)
    requires IsRun(states, actions) && i <= j <= |actions| && IsArchived(states[i], id)
    ensures SameVersionsOf(states[i], states[j], id)
    decreases j
  {
    hide Inv, Acts;
    if i < j {
      NothingAfterArchive(states, actions, i, j - 1, id);
      RunKeepsInv(states, actions, j - 1);
      ArchivedStep(states[j - 1], actions[j - 1], states[j], id);
    }
  }

  /** But its row stays as it was archived if and only if no update of the older store touches it. */
  lemma {:induction false} ArchivedRowStaysIff(states: seq<State>, actions: seq<Action>, i: nat, j: nat, id: int)
    requires IsRun(states, actions) && i <= j <= |actions| && IsArchived(states[i], id)
    ensures (forall k | i <= k <= j :: SameRow(states[i], states[k], id)) <==>
            (forall k | i <= k < j :: !Touches(states[k], actions[k], id))
    decreases j
  {
    hide Inv, Acts, Touches, SameVersionsOf;
    if i < j {
      ArchivedRowStaysIff(states, actions, i, j - 1, id);
      RunKeepsInv(states, actions, j - 1);
      if SameRow(states[i], states[j - 1], id) {
        ArchivedStep(states[j - 1], actions[j - 1], states[j], id);
      }
    }
  }

  /** The older store inserts a row under a free id, for its one provider and without a config. */
  lemma LegacyCreateIff(s: State, id: int, projectId: int, fields: Fields, now: int)
    ensures (exists t :: Acts(s, LegacyCreate(id, projectId, fields, now), t)) <==>
            && id !in s.db.agents && (forall f: Field :: f in fields)
            && fields[ProviderType] == Str("claude-code") && fields[Config] == Null
  {
    if id !in s.db.agents && LegacyFields(fields) {
      var t := State(s.db.(agents := s.db.agents[id := Agent(projectId, fields, 1, None, now, now)]), s.pending,
                     s.history[id := History(fields, false, [])]);
      assert Acts(s, LegacyCreate(id, projectId, fields, now), t);
    }
  }

  // ---------------------------------------------------------------- runs in which the older store interferes

  const NOTHING := State(Db(map[], map[]), map[], map[])

  /** An agent of the older store has no version 1, and a patch of it writes version 2. */
  lemma LegacyAgentHasNoFirstVersion(id: int, projectId: int, fields: Fields, input: PatchInput, now: int)
    returns (states: seq<State>, actions: seq<Action>)
    requires LegacyFields(fields) && Picked(input) != map[]
    ensures IsRun(states, actions) && |actions| == 3
    ensures id in states[1].db.agents && states[1].db.agents[id].currentVersion == 1 && states[1].db.versions == map[]
    ensures states[3].db.versions.Keys == {(id, 2)}
  {
    hide LegacyFields, Picked, CamelSnapshot;
    var row := Agent(projectId, fields, 1, None, now, now);
    var h := History(fields, false, []);
    var p := Patching(id, 1, Picked(input), None, None, row);
    var s := State(Db(map[][id := row], map[]), map[], map[][id := h]);
    var locked := s.(pending := s.pending[0 := p]);
    var t := State(ApplyPatch(s.db, id, row, Picked(input), None, None, now), locked.pending - {0},
                   s.history[id := Extended(h, p)]);
    states := [NOTHING, s, locked, t];
    actions := [LegacyCreate(id, projectId, fields, now), LockForPatch(0, id, 1, input, None, None), CommitPatch(0, now)];
  }

  /** An update of the older store leaves the current version behind the live definition. */
  lemma OverwriteIsNotVersioned(id: int, projectId: int, fields: Fields, input: PatchInput, now: int)
    returns (states: seq<State>, actions: seq<Action>)
    requires Complete(fields) && fields + Overwriting(input) != fields
    ensures IsRun(states, actions) && |actions| == 2
    ensures id in states[2].db.agents && states[2].db.agents[id].currentVersion == 1 && !ReadsAsLive(states[2].db, id)
  {
    hide ReadsAsLive, Overwriting, CamelSnapshot, Complete;
    var create, update := Create(id, projectId, fields, None, None, now), LegacyUpdate(id, input, now);
    var h := History(fields, true, []);
    var s := State(CreateTx(NOTHING.db, id, projectId, fields, None, None, now), map[], map[][id := h]);
    var t := State(s.db.(agents := s.db.agents[id := Written(s.db.agents[id], Overwriting(input), now)]), map[],
                   s.history[id := More(h, Overwritten(Overwriting(input)))]);
    states, actions := [NOTHING, s, t], [create, update];
    assert Initial(NOTHING);
    InitialInv(NOTHING);
    ActionKeeps(NOTHING, create, s);
    CreateReads(NOTHING, create, s);
    UpdateReads(s, update, t);
  }

  /** It writes to archived agents, too. */
  lemma ArchivedRowIsOverwritten(id: int, projectId: int, fields: Fields, input: PatchInput, now: int)
    returns (states: seq<State>, actions: seq<Action>)
    requires Complete(fields)
    ensures IsRun(states, actions) && |actions| == 4 && IsArchived(states[3], id) && IsArchived(states[4], id)
    ensures states[4].db.agents[id].fields == fields + Overwriting(input)
  {
    hide Overwriting, CamelSnapshot, Complete;
    var h := History(fields, true, []);
    var s := State(CreateTx(NOTHING.db, id, projectId, fields, None, None, now), map[], map[][id := h]);
    var locked := s.(pending := s.pending[0 := Archiving(id, s.db.agents[id])]);
    var archived := locked.(db := ApplyArchive(s.db, id, now), pending := locked.pending - {0});
    var row := Written(archived.db.agents[id], Overwriting(input), now);
    var t := State(archived.db.(agents := archived.db.agents[id := row]), archived.pending,
                   s.history[id := More(h, Overwritten(Overwriting(input)))]);
    states := [NOTHING, s, locked, archived, t];
    actions := [Create(id, projectId, fields, None, None, now), LockForArchive(0, id), CommitArchive(0, now),
                LegacyUpdate(id, input, now)];
  }
}
