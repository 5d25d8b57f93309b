/** The database store: concurrent transactions under an advisory lock, refining the atomic log. */
module PgEventStore {
  import opened Json
  import opened EventLog

  /** Where a call of `appendAssignSeq` stands; `Inserted` rows are not visible to others yet. */
  datatype Writer =
    | Waiting(runId: string, content: Content)
    | Locked(runId: string, content: Content)
    | Inserted(runId: string, content: Content, seqNo: int)
    | Committed(runId: string, content: Content, seqNo: int)
    | RolledBack

  type Rows = map<(string, int), Content>

  /** Committed rows under the unique key (run, seq), and every call made so far. */
  datatype Db = Db(rows: Rows, writers: map<int, Writer>)

  datatype Action =
    | Begin(w: int, runId: string, content: Content)
    | Acquire(w: int)
    | Insert(w: int)
    | Commit(w: int)
    | Rollback(w: int)

  /** A transaction holds its lock from acquiring it until it ends. */
  predicate Holds(x: Writer) {
    x.Locked? || x.Inserted?
  }

  /** `COALESCE(MAX(seq), 0)` over the committed rows of a run. */
  ghost predicate IsMaxSeq(rows: Rows, runId: string, m: int) {
    && (forall k: int :: (runId, k) in rows ==> k <= m)
    && ((runId, m) in rows || (m == 0 && forall k: int :: (runId, k) !in rows))
  }

  /**
   * One action of one transaction. The lock key is a hash of the run id, so runs may share a lock;
   * a lock is granted when no other holder has the same key. The insert computes its seq from the
   * rows committed at that moment; a failing transaction leaves no row.
   */
  ghost predicate Acts(hash: string -> int, s: Db, a: Action, t: Db) {
    match a
    case Begin(w, runId, content) =>
      w !in s.writers && t == s.(writers := s.writers[w := Waiting(runId, content)])
    case Acquire(w) =>
      && w in s.writers && s.writers[w].Waiting?
      && (forall v :: v in s.writers && Holds(s.writers[v]) ==> hash(s.writers[v].runId) != hash(s.writers[w].runId))
      && t == s.(writers := s.writers[w := Locked(s.writers[w].runId, s.writers[w].content)])
    case Insert(w) =>
      && w in s.writers && s.writers[w].Locked?
      && exists m :: IsMaxSeq(s.rows, s.writers[w].runId, m)
                     && t == s.(writers := s.writers[w := Inserted(s.writers[w].runId, s.writers[w].content, m + 1)])
    case Commit(w) =>
      && w in s.writers && s.writers[w].Inserted?
      && var x := s.writers[w];
         t == Db(s.rows[(x.runId, x.seqNo) := x.content], s.writers[w := Committed(x.runId, x.content, x.seqNo)])
    case Rollback(w) =>
      && w in s.writers && !s.writers[w].Committed? && !s.writers[w].RolledBack?
      && t == s.(writers := s.writers[w := RolledBack])
  }

  /** What an action can do to a call: it keeps its run and content until it is rolled back, and an ended call stays. */
  lemma CallsKeep(hash: string -> int, s: Db, a: Action, t: Db, w: int)
    requires Acts(hash, s, a, t) && w in s.writers
    ensures w in t.writers
    ensures s.writers[w].Committed? || s.writers[w].RolledBack? ==> t.writers[w] == s.writers[w]
    ensures !t.writers[w].RolledBack? ==>
              && !s.writers[w].RolledBack?
              && t.writers[w].runId == s.writers[w].runId && t.writers[w].content == s.writers[w].content
    ensures a.w != w ==> t.writers[w] == s.writers[w]
    ensures a == Commit(w) ==> t.writers[w].Committed?
    ensures a == Rollback(w) ==> t.writers[w].RolledBack? && t.rows == s.rows
  {
  }

  /** When each action is possible: waiting calls get a free lock, and a call may fail as long as it has not ended. */
  lemma EnabledIff(hash: string -> int, s: Db, w: int, runId: string, content: Content)
    ensures (exists t :: Acts(hash, s, Begin(w, runId, content), t)) <==> w !in s.writers
    ensures w in s.writers ==>
              ((exists t :: Acts(hash, s, Acquire(w), t)) <==>
               && s.writers[w].Waiting?
               && forall v :: v in s.writers && (s.writers[v].Locked? || s.writers[v].Inserted?) ==>
                    hash(s.writers[v].runId) != hash(s.writers[w].runId))
    ensures w in s.writers ==> ((exists t :: Acts(hash, s, Commit(w), t)) <==> s.writers[w].Inserted?)
    ensures w in s.writers ==>
              ((exists t :: Acts(hash, s, Rollback(w), t)) <==> !s.writers[w].Committed? && !s.writers[w].RolledBack?)
  {
    if w !in s.writers {
      assert Acts(hash, s, Begin(w, runId, content), s.(writers := s.writers[w := Waiting(runId, content)]));
    } else {
      var x := s.writers[w];
      if x.Waiting? && forall v :: v in s.writers && Holds(s.writers[v]) ==> hash(s.writers[v].runId) != hash(x.runId) {
        assert Acts(hash, s, Acquire(w), s.(writers := s.writers[w := Locked(x.runId, x.content)]));
      }
      if x.Inserted? {
        assert Acts(hash, s, Commit(w),
                    Db(s.rows[(x.runId, x.seqNo) := x.content], s.writers[w := Committed(x.runId, x.content, x.seqNo)]));
      }
      if !x.Committed? && !x.RolledBack? {
        assert Acts(hash, s, Rollback(w), s.(writers := s.writers[w := RolledBack]));
      }
    }
  }

  /** In a reachable state a call that holds its lock can always insert. */
  lemma LockedInserts(hash: string -> int, s: Db, w: int, log: AtomicLog)
    requires Inv(hash, s, log) && w in s.writers && s.writers[w].Locked?
    ensures exists t :: Acts(hash, s, Insert(w), t)
  {
    var x := s.writers[w];
    var m := |AtomicOf(log, x.runId)|;
    assert IsMaxSeq(s.rows, x.runId, m) by {
      assert m > 0 ==> (x.runId, m) in s.rows;
    }
    assert Acts(hash, s, Insert(w), s.(writers := s.writers[w := Inserted(x.runId, x.content, m + 1)]));
  }

  /** The rows of every run are exactly the contents of its list, under the seqs 1..n. */
  ghost predicate Represents(rows: Rows, log: AtomicLog) {
    forall runId: string, k: int ::
      ((runId, k) in rows <==> 1 <= k <= |AtomicOf(log, runId)|)
      && ((runId, k) in rows ==> rows[(runId, k)] == AtomicOf(log, runId)[k - 1])
  }

  ghost predicate LocksExclude(hash: string -> int, writers: map<int, Writer>) {
    forall v, w :: v in writers && w in writers && v != w && Holds(writers[v]) && Holds(writers[w])
                   ==> hash(writers[v].runId) != hash(writers[w].runId)
  }

  /** A pending insert has the next free seq; a committed one is where its caller was told. */
  ghost predicate SeqsRight(writers: map<int, Writer>, log: AtomicLog) {
    && (forall w :: w in writers && writers[w].Inserted? ==>
          writers[w].seqNo == |AtomicOf(log, writers[w].runId)| + 1)
    && (forall w :: w in writers && writers[w].Committed? ==>
          1 <= writers[w].seqNo <= |AtomicOf(log, writers[w].runId)|
          && AtomicOf(log, writers[w].runId)[writers[w].seqNo - 1] == writers[w].content)
    && (forall v, w | v in writers && w in writers && v != w && writers[v].Committed? && writers[w].Committed? ::
          writers[v].runId == writers[w].runId ==> writers[v].seqNo != writers[w].seqNo)
  }

  ghost predicate Inv(hash: string -> int, s: Db, log: AtomicLog) {
    Represents(s.rows, log) && LocksExclude(hash, s.writers) && SeqsRight(s.writers, log)
  }

  const EMPTY := Db(map[], map[])

  /** What an action does to the atomic log: only a commit does anything. */
  function LogAfter(log: AtomicLog, s: Db, a: Action): AtomicLog {
    if a.Commit? && a.w in s.writers && s.writers[a.w].Inserted?
    then AtomicAppend(log, s.writers[a.w].runId, s.writers[a.w].content) else log
  }

  lemma MaxIsLength(rows: Rows, log: AtomicLog, runId: string, m: int)
    requires Represents(rows, log) && IsMaxSeq(rows, runId, m)
    ensures m == |AtomicOf(log, runId)|
  {
    var n := |AtomicOf(log, runId)|;
    if n > 0 {
      assert (runId, n) in rows;
    }
    assert (runId, m) in rows ==> m <= n;
  }

  lemma CommitKeeps(hash: string -> int, s: Db, w: int, t: Db, log: AtomicLog)
    requires Inv(hash, s, log) && Acts(hash, s, Commit(w), t)
    ensures Inv(hash, t, LogAfter(log, s, Commit(w)))
  {
    hide Represents, SeqsRight;
    var x := s.writers[w];
    NextSeq(s.writers, w, log);
    RowMore(s.rows, log, x.runId, x.content);
    SeqsAfterCommit(hash, s.writers, w, log);
  }

  lemma NextSeq(writers: map<int, Writer>, w: int, log: AtomicLog)
    requires SeqsRight(writers, log) && w in writers && writers[w].Inserted?
    ensures writers[w].seqNo == |AtomicOf(log, writers[w].runId)| + 1
  {
  }

  lemma RowMore(rows: Rows, log: AtomicLog, runId: string, content: Content)
    requires Represents(rows, log)
    ensures Represents(rows[(runId, |AtomicOf(log, runId)| + 1) := content], AtomicAppend(log, runId, content))
  {
  }

  lemma SeqsAfterCommit(hash: string -> int, writers: map<int, Writer>, w: int, log: AtomicLog)
    requires LocksExclude(hash, writers) && SeqsRight(writers, log) && w in writers && writers[w].Inserted?
    ensures var x := writers[w];
            SeqsRight(writers[w := Committed(x.runId, x.content, x.seqNo)], AtomicAppend(log, x.runId, x.content))
  {
    var x := writers[w];
    var after := AtomicAppend(log, x.runId, x.content);
    forall v | v in writers && v != w && writers[v].Inserted?
      ensures writers[v].seqNo == |AtomicOf(after, writers[v].runId)| + 1
    {
      assert Holds(writers[v]) && Holds(x);
    }
  }

  lemma InsertKeeps(hash: string -> int, s: Db, w: int, t: Db, log: AtomicLog)
    requires Inv(hash, s, log) && Acts(hash, s, Insert(w), t)
    ensures Inv(hash, t, log)
  {
    var m :| IsMaxSeq(s.rows, s.writers[w].runId, m)
      && t == s.(writers := s.writers[w := Inserted(s.writers[w].runId, s.writers[w].content, m + 1)]);
    MaxIsLength(s.rows, log, s.writers[w].runId, m);
    assert Represents(t.rows, log);
    assert SeqsRight(t.writers, log);
  }

  lemma AcquireKeeps(hash: string -> int, s: Db, w: int, t: Db, log: AtomicLog)
    requires Inv(hash, s, log) && Acts(hash, s, Acquire(w), t)
    ensures Inv(hash, t, log)
  {
    assert SeqsRight(t.writers, log);
    assert Represents(t.rows, log);
  }

  lemma ActionKeeps(hash: string -> int, s: Db, a: Action, t: Db, log: AtomicLog)
    requires Inv(hash, s, log) && Acts(hash, s, a, t)
    ensures Inv(hash, t, LogAfter(log, s, a)) && AtomicStep(log, LogAfter(log, s, a))
  {
    match a
    case Begin(_, _, _) => BeginKeeps(hash, s, a, t, log);
    case Acquire(w) => AcquireKeeps(hash, s, w, t, log);
    case Insert(w) => InsertKeeps(hash, s, w, t, log);
    case Commit(w) => CommitKeeps(hash, s, w, t, log);
    case Rollback(_) => BeginKeeps(hash, s, a, t, log);
  }

  lemma BeginKeeps(hash: string -> int, s: Db, a: Action, t: Db, log: AtomicLog)
    requires Inv(hash, s, log) && Acts(hash, s, a, t) && (a.Begin? || a.Rollback?)
    ensures Inv(hash, t, log)
  {
    assert Represents(t.rows, log);
    assert SeqsRight(t.writers, log);
  }

  /** A run of the system: states linked by actions, from the empty database. */
  ghost predicate IsRun(hash: string -> int, states: seq<Db>, actions: seq<Action>) {
    && |states| == |actions| + 1 && states[0] == EMPTY
    && forall i :: 0 <= i < |actions| ==> Acts(hash, states[i], actions[i], states[i + 1])
  }

  /** The atomic log after the first `i` actions. */
  function LogAt(states: seq<Db>, actions: seq<Action>, i: nat): AtomicLog
    requires i <= |actions| <= |states|
  {
    if i == 0 then map[] else LogAfter(LogAt(states, actions, i - 1), states[i - 1], actions[i - 1])
  }

  /**
   * Every run of the transactional store is a run of the atomic log, which starts empty: each
   * action is one atomic append or nothing, and at every moment the committed rows of each run are
   * exactly its contents under the seqs 1..n, with every committed caller at the seq it was given.
   */
  lemma {:induction false} RunRefinesAtomicLog(hash: string -> int, states: seq<Db>, actions: seq<Action>, i: nat)
    requires IsRun(hash, states, actions) && i <= |actions|
    ensures Inv(hash, states[i], LogAt(states, actions, i))
    ensures i < |actions| ==> AtomicStep(LogAt(states, actions, i), LogAt(states, actions, i + 1))
  {
    hide Inv, Acts, AtomicStep;
    NothingYet(hash);
    if i > 0 {
      RunRefinesAtomicLog(hash, states, actions, i - 1);
      ActionKeeps(hash, states[i - 1], actions[i - 1], states[i], LogAt(states, actions, i - 1));
    }
    if i < |actions| {
      ActionKeeps(hash, states[i], actions[i], states[i + 1], LogAt(states, actions, i));
    }
  }

  /** Whatever a call has become, it was begun once, and what it commits is what it was begun with. */
  lemma {:induction false} BegunWith(hash: string -> int, states: seq<Db>, actions: seq<Action>, i: nat, w: int)
    returns (j: nat)
    requires IsRun(hash, states, actions) && i <= |actions| && w in states[i].writers
    ensures j < i && actions[j].Begin? && actions[j].w == w
    ensures !states[i].writers[w].RolledBack? ==>
              states[i].writers[w].runId == actions[j].runId && states[i].writers[w].content == actions[j].content
  {
    hide Acts;
    if w in states[i - 1].writers {
      j := BegunWith(hash, states, actions, i - 1, w);
      CallsKeep(hash, states[i - 1], actions[i - 1], states[i], w);
    } else {
      j := i - 1;
      NewCall(hash, states[j], actions[j], states[i], w);
    }
  }

  lemma NewCall(hash: string -> int, s: Db, a: Action, t: Db, w: int)
    requires Acts(hash, s, a, t) && w !in s.writers && w in t.writers
    ensures a.Begin? && a.w == w && t.writers[w].Waiting?
    ensures t.writers[w].runId == a.runId && t.writers[w].content == a.content
  {
  }

  lemma NothingYet(hash: string -> int)
    ensures Inv(hash, EMPTY, map[])
  {
  }

  /** The key a commit writes is free, so no insertion ever collides. */
  lemma CommitFindsFreeKey(hash: string -> int, s: Db, w: int, log: AtomicLog)
    requires Inv(hash, s, log) && w in s.writers && s.writers[w].Inserted?
    ensures (s.writers[w].runId, s.writers[w].seqNo) !in s.rows
  {
    assert s.writers[w].seqNo == |AtomicOf(log, s.writers[w].runId)| + 1;
  }
}
