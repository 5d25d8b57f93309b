/** From the writers of a run to the consumer of its stream. */
module EndToEnd {
  import opened Text
  import opened Json
  import opened SseEvents
  import opened SseStream
  import EventLog
  import PgEventStore
  import SseIds
  import SseReconnect

  /** A run's log in the in-memory store after these steps of its writers. */
  function LogAfter(ops: seq<EventLog.Op>, runId: string): seq<EventLog.Event> {
    EventLog.LogOf(EventLog.Perform(ops).logs, runId)
  }

  /** The log as the events route sends it. */
  function Sent(log: seq<EventLog.Event>): (r: seq<RunEvent>)
    ensures |r| == |log| && forall i :: 0 <= i < |log| ==> r[i] == RunEvent(log[i].seqNo, log[i].payload)
  {
    seq(|log|, i requires 0 <= i < |log| => RunEvent(log[i].seqNo, log[i].payload))
  }

  lemma LastStepGrows(ops: seq<EventLog.Op>, runId: string)
    requires ops != []
    ensures LogAfter(ops[..|ops| - 1], runId) <= LogAfter(ops, runId)
  {
    var before, op := ops[..|ops| - 1], ops[|ops| - 1];
    var s := EventLog.Perform(before);
    if op.Settle? && EventLog.ChainOf(s.chains, op.runId) != [] {
      var done := EventLog.LogIsNumberedCalls(before, op.runId);
      var calls := EventLog.Calls(before, op.runId);
      var d := EventLog.ChainOf(s.chains, op.runId)[0];
      assert d == calls[done] && d in calls;
      EventLog.AssignIsAppend(s.logs, d, EventLog.Contents(calls[..done]));
    }
  }

  /** Whatever the writers do, a log only grows at its end. */
  lemma {:induction false} LogGrows(ops: seq<EventLog.Op>, n: nat, runId: string)
    requires n <= |ops|
    ensures LogAfter(ops[..n], runId) <= LogAfter(ops, runId)
    decreases |ops|
  {
    hide LogAfter;
    if n == |ops| {
      assert ops[..n] == ops;
    } else {
      var before := ops[..|ops| - 1];
      LogGrows(before, n, runId);
      assert before[..n] == ops[..n];
      LastStepGrows(ops, runId);
    }
  }

  ghost predicate ValidPayloads(log: seq<EventLog.Event>) {
    forall i :: 0 <= i < |log| ==> Valid(log[i].payload)
  }

  /** Seqs are 1..n, so the log is one the reader's guarantees are about. */
  lemma SentIsLog(ops: seq<EventLog.Op>, runId: string)
    requires ValidPayloads(LogAfter(ops, runId))
    ensures IsLog(Sent(LogAfter(ops, runId)))
    ensures forall i :: 0 <= i < |LogAfter(ops, runId)| ==> Sent(LogAfter(ops, runId))[i].id == i + 1
  {
    var done := EventLog.LogIsNumberedCalls(ops, runId);
  }

  /**
   * Every reply is an initial part of the body written for the log as it stood after some of the writers' steps,
   * from some id no later than the requested one.
   */
  ghost predicate ServesStore(w: SseReconnect.World, ops: seq<EventLog.Op>, runId: string) {
    forall turn: nat, id: int | id >= 0 && w.reply(turn, id).Streamed? ::
      exists n: nat, from: int | n <= |ops| && from <= id ::
        ServedAt(Sent(LogAfter(ops[..n], runId)), from, Concat(w.reply(turn, id).chunks))
  }

  ghost predicate ServedAt(log: seq<RunEvent>, from: int, text: string) {
    AllDeliverable(After(log, from)) && text <= Wire(After(log, from))
  }

  lemma StoreServes(w: SseReconnect.World, ops: seq<EventLog.Op>, runId: string)
    requires ServesStore(w, ops, runId) && AllDeliverable(Sent(LogAfter(ops, runId)))
    ensures SseReconnect.Serves(w, Sent(LogAfter(ops, runId)))
  {
    hide LogAfter, ServedAt;
    var log := Sent(LogAfter(ops, runId));
    forall turn: nat, id: int | id >= 0 && w.reply(turn, id).Streamed?
      ensures SseReconnect.ServedFrom(log, id, Concat(w.reply(turn, id).chunks))
    {
      var text := Concat(w.reply(turn, id).chunks);
      var n: nat, from: int :| n <= |ops| && from <= id && ServedAt(Sent(LogAfter(ops[..n], runId)), from, text);
      LogGrows(ops, n, runId);
      PrefixServes(log, Sent(LogAfter(ops[..n], runId)), from, id, text);
    }
  }

  lemma PrefixServes(log: seq<RunEvent>, part: seq<RunEvent>, from: int, id: int, text: string)
    requires AllDeliverable(log) && part <= log && from <= id && ServedAt(part, from, text)
    ensures SseReconnect.ServedFrom(log, id, text)
  {
    assert log[..|part|] == part;
  }

  lemma NumberedAfter(log: seq<RunEvent>, start: nat)
    requires start <= |log| && forall i :: 0 <= i < |log| ==> log[i].id == i + 1
    ensures After(log, start) == log[start..]
  {
    assert log == log[..start] + log[start..];
    AfterAppend(log[..start], log[start..], start);
    SseReconnect.NoneAfter(log[..start], start);
    SseReconnect.AllAfter(log[start..], start);
  }

  /**
   * Seqs `start + 1`, `start + 2` and so on, none missing and none twice; and, unless a payload past the start is a
   * bare number of several digits, exactly the log's entries.
   */
  ghost predicate Received(delivered: seq<RunEvent>, log: seq<RunEvent>, start: nat) {
    && start + |delivered| <= |log|
    && (forall i :: 0 <= i < |delivered| ==> delivered[i].id == start + 1 + i)
    && (Uncuttable(After(log, start)) ==> delivered == log[start..start + |delivered|])
  }

  ghost predicate NumberedLog(log: seq<RunEvent>) {
    IsLog(log) && forall i :: 0 <= i < |log| ==> log[i].id == i + 1
  }

  lemma ConsumerSeesLog(log: seq<RunEvent>, w: SseReconnect.World, start: nat, turns: nat)
    requires NumberedLog(log) && start <= |log| && SseReconnect.Serves(w, log)
    ensures Received(SseReconnect.Run(w, start, turns).delivered, log, start)
  {
    hide SseReconnect.Serves, SseReconnect.Run, Uncuttable, After;
    NumberedAfter(log, start);
    SseIds.IdsGrow(w, log, start, turns);
    var delivered := SseReconnect.Run(w, start, turns).delivered;
    assert forall i :: 0 <= i < |delivered| ==>
      delivered[i].id == SseIds.Ids(delivered)[i] == SseIds.Ids(log[start..])[i] == log[start + i].id;
    if Uncuttable(After(log, start)) {
      SseReconnect.DeliversExactPrefix(w, log, start, turns);
      ExactIsPrefix(SseReconnect.Run(w, start, turns), log, start);
    }
  }

  lemma ExactIsPrefix(s: SseReconnect.State, log: seq<RunEvent>, start: nat)
    requires SseReconnect.Exact(s, log, start) && start <= |log| && After(log, start) == log[start..]
    ensures |s.delivered| <= |log| - start && s.delivered == log[start..start + |s.delivered|]
  {
    assert s.delivered <= log[start..];
  }

  /**
   * However the writers' calls interleave and fail, and however connections are cut, chunked and resumed while the
   * log grows, a consumer has received the entries that follow its starting seq.
   */
  lemma ConsumerSeesTheWritersLog(ops: seq<EventLog.Op>, runId: string, w: SseReconnect.World, start: nat, turns: nat)
    requires ValidPayloads(LogAfter(ops, runId)) && start <= |LogAfter(ops, runId)| && ServesStore(w, ops, runId)
    ensures Received(SseReconnect.Run(w, start, turns).delivered, Sent(LogAfter(ops, runId)), start)
  {
    hide LogAfter, ServesStore, SseReconnect.Run, Received;
    SentIsLog(ops, runId);
    StoreServes(w, ops, runId);
    ConsumerSeesLog(Sent(LogAfter(ops, runId)), w, start, turns);
  }

  // ---------------------------------------------------------------- the database store

  /** These are the committed rows of a run in seq order, as the events route sends them. */
  ghost predicate RowsAre(rows: PgEventStore.Rows, runId: string, log: seq<RunEvent>) {
    forall k: int ::
      && ((runId, k) in rows <==> 1 <= k <= |log|)
      && ((runId, k) in rows ==> log[k - 1] == RunEvent(k, rows[(runId, k)].payload))
  }

  function SentContents(contents: seq<EventLog.Content>): (r: seq<RunEvent>)
    ensures |r| == |contents| && forall i :: 0 <= i < |contents| ==> r[i] == RunEvent(i + 1, contents[i].payload)
  {
    seq(|contents|, i requires 0 <= i < |contents| => RunEvent(i + 1, contents[i].payload))
  }

  lemma RepresentedRows(rows: PgEventStore.Rows, atomic: EventLog.AtomicLog, runId: string)
    requires PgEventStore.Represents(rows, atomic)
    ensures RowsAre(rows, runId, SentContents(EventLog.AtomicOf(atomic, runId)))
  {
  }

  lemma RowsUnique(rows: PgEventStore.Rows, runId: string, a: seq<RunEvent>, b: seq<RunEvent>)
    requires RowsAre(rows, runId, a) && RowsAre(rows, runId, b)
    ensures a == b
  {
    assert |a| > 0 ==> (runId, |a|) in rows;
    assert |b| > 0 ==> (runId, |b|) in rows;
    forall i | 0 <= i < |a| ensures a[i] == b[i] {
      assert (runId, i + 1) in rows;
    }
  }

  /** The committed rows of a run after the first `i` actions. */
  function CommittedAt(states: seq<PgEventStore.Db>, actions: seq<PgEventStore.Action>, i: nat, runId: string): seq<RunEvent>
    requires i <= |actions| <= |states|
  {
    SentContents(EventLog.AtomicOf(PgEventStore.LogAt(states, actions, i), runId))
  }

  lemma CommittedRows(hash: string -> int, states: seq<PgEventStore.Db>, actions: seq<PgEventStore.Action>, i: nat,
                      runId: string, log: seq<RunEvent>)
    requires PgEventStore.IsRun(hash, states, actions) && i <= |actions| && RowsAre(states[i].rows, runId, log)
    ensures log == CommittedAt(states, actions, i, runId)
  {
    hide RowsAre, PgEventStore.Represents, PgEventStore.Acts, PgEventStore.LocksExclude, PgEventStore.SeqsRight;
    PgEventStore.RunRefinesAtomicLog(hash, states, actions, i);
    var atomic := PgEventStore.LogAt(states, actions, i);
    RepresentedRows(states[i].rows, atomic, runId);
    RowsUnique(states[i].rows, runId, log, SentContents(EventLog.AtomicOf(atomic, runId)));
  }

  lemma {:induction false} CommittedGrow(states: seq<PgEventStore.Db>, actions: seq<PgEventStore.Action>, i: nat, j: nat,
                                         runId: string)
    requires i <= j <= |actions| <= |states|
    ensures CommittedAt(states, actions, i, runId) <= CommittedAt(states, actions, j, runId)
    decreases j
  {
    if i < j {
      CommittedGrow(states, actions, i, j - 1, runId);
    }
  }

  /**
   * Every reply is an initial part of the body written for a run's rows as they were committed at some moment, from
   * some id no later than the requested one.
   */
  ghost predicate ServesRows(w: SseReconnect.World, states: seq<PgEventStore.Db>, runId: string) {
    forall turn: nat, id: int | id >= 0 && w.reply(turn, id).Streamed? ::
      exists i: nat, from: int, log: seq<RunEvent> | i < |states| && from <= id ::
        RowsAre(states[i].rows, runId, log) && ServedAt(log, from, Concat(w.reply(turn, id).chunks))
  }

  lemma RowsServe(hash: string -> int, states: seq<PgEventStore.Db>, actions: seq<PgEventStore.Action>, runId: string,
                  log: seq<RunEvent>, w: SseReconnect.World)
    requires PgEventStore.IsRun(hash, states, actions) && ServesRows(w, states, runId)
    requires AllDeliverable(log) && log == CommittedAt(states, actions, |actions|, runId)
    ensures SseReconnect.Serves(w, log)
  {
    hide RowsAre, ServedAt, CommittedAt, PgEventStore.Acts;
    forall turn: nat, id: int | id >= 0 && w.reply(turn, id).Streamed?
      ensures SseReconnect.ServedFrom(log, id, Concat(w.reply(turn, id).chunks))
    {
      var text := Concat(w.reply(turn, id).chunks);
      var i: nat, from: int, part: seq<RunEvent> :| i < |states| && from <= id
        && RowsAre(states[i].rows, runId, part) && ServedAt(part, from, text);
      CommittedRows(hash, states, actions, i, runId, part);
      CommittedGrow(states, actions, i, |actions|, runId);
      PrefixServes(log, part, from, id, text);
    }
  }

  /**
   * The same for the database store: however transactions interleave, wait for locks and roll back, and however
   * connections are cut, chunked and resumed while rows are committed, a consumer has received the committed rows
   * that follow its starting seq.
   */
  lemma ConsumerSeesCommittedRows(hash: string -> int, states: seq<PgEventStore.Db>, actions: seq<PgEventStore.Action>,
                                  runId: string, log: seq<RunEvent>, w: SseReconnect.World, start: nat, turns: nat)
    requires PgEventStore.IsRun(hash, states, actions) && RowsAre(states[|actions|].rows, runId, log)
    requires (forall i :: 0 <= i < |log| ==> Valid(log[i].data)) && start <= |log| && ServesRows(w, states, runId)
    ensures Received(SseReconnect.Run(w, start, turns).delivered, log, start)
  {
    hide PgEventStore.IsRun, RowsAre, ServesRows, SseReconnect.Run, Received, SseReconnect.Serves;
    CommittedRows(hash, states, actions, |actions|, runId, log);
    RowsServe(hash, states, actions, runId, log, w);
    ConsumerSeesLog(log, w, start, turns);
  }
}
