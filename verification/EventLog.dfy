/** The per-run event log: one atomic append as the specification, and the in-memory store. */
module EventLog {
  import opened Text
  import opened Json
  import opened Sorting

  // ---------------------------------------------------------------- data

  /** A stored event, without the generated id and creation time. */
  datatype Event = Event(runId: string, eventType: string, payload: Value, seqNo: int, schemaVersion: string)

  /** What a caller hands over as payload; some values cannot be cloned. */
  datatype Payload = Undefined | Uncloneable | Given(value: Value)

  datatype Draft = Draft(runId: string, eventType: string, payload: Payload, schemaVersion: Option<string>)

  datatype Result<T> = Ok(value: T) | Err(reason: Reason)
  datatype Reason = InvalidSeq | CloneFailed

  datatype InsertResult = InsertResult(inserted: bool, event: Event)

  datatype GapResult = GapResult(hasGaps: bool, missingSeqs: seq<int>, lastSeq: int)

  predicate Storable(d: Draft) {
    !d.payload.Uncloneable?
  }

  function Stored(d: Draft, seqNo: int): Event
    requires Storable(d)
  {
    Event(d.runId, d.eventType, if d.payload.Given? then d.payload.value else Null, seqNo,
          if d.schemaVersion.Some? then d.schemaVersion.value else "1")
  }

  /** What is stored of a draft: an absent payload becomes null, an absent version "1". */
  ghost predicate IsStored(e: Event, d: Draft, seqNo: int) {
    && e.runId == d.runId && e.eventType == d.eventType && e.seqNo == seqNo
    && (d.payload == Undefined ==> e.payload == Null) && (d.payload.Given? ==> e.payload == d.payload.value)
    && e.schemaVersion == if d.schemaVersion == None then "1" else d.schemaVersion.value
  }

  /** One more event in the log of its run, which is in growing order of seqs again; other logs are as they were. */
  ghost predicate Added(before: Logs, after: Logs, e: Event) {
    && e.runId in after && after == before[e.runId := after[e.runId]]
    && (forall x :: x in after[e.runId] <==> x == e || (e.runId in before && x in before[e.runId]))
    && (forall i, j | 0 <= i < j < |after[e.runId]| :: after[e.runId][i].seqNo < after[e.runId][j].seqNo)
  }

  predicate BySeq(a: Event, b: Event) {
    a.seqNo < b.seqNo
  }

  type Logs = map<string, seq<Event>>

  function LogOf(logs: Logs, runId: string): seq<Event> {
    if runId in logs then logs[runId] else []
  }

  function Seqs(log: seq<Event>): set<int> {
    set e | e in log :: e.seqNo
  }

  /** Each list is in strictly growing seq order and holds only events of its run. */
  ghost predicate ValidLogs(logs: Logs) {
    forall r :: r in logs ==> Increasing(logs[r], BySeq) && forall e :: e in logs[r] ==> e.runId == r
  }

  lemma SeqOrder()
    ensures WeakOrder(BySeq)
  {
  }

  /** An event with a new seq takes its place in the order. */
  lemma InsertEvent(log: seq<Event>, e: Event)
    requires Increasing(log, BySeq) && e.seqNo !in Seqs(log)
    ensures Increasing(Sort(log + [e], BySeq), BySeq)
    ensures forall x :: x in Sort(log + [e], BySeq) <==> x in log || x == e
  {
    SeqOrder();
    var s := log + [e];
    forall i, j | 0 <= i < j < |s| ensures BySeq(s[i], s[j]) || BySeq(s[j], s[i]) {
      if j == |log| { assert log[i] in log; }
    }
    SortIncreasing(s, BySeq);
  }

  /** Storing a draft under a new seq adds exactly its event. */
  lemma StoredIsAdded(logs: Logs, d: Draft, seqNo: int)
    requires ValidLogs(logs) && Storable(d) && seqNo !in Seqs(LogOf(logs, d.runId))
    ensures var e := Stored(d, seqNo);
            var after := logs[d.runId := Sort(LogOf(logs, d.runId) + [e], BySeq)];
            ValidLogs(after) && IsStored(e, d, seqNo) && Added(logs, after, e)
  {
    hide Sort;
    InsertEvent(LogOf(logs, d.runId), Stored(d, seqNo));
  }

  /** An event later than all others goes to the end. */
  lemma InsertLast(log: seq<Event>, e: Event)
    requires Increasing(log, BySeq) && forall x :: x in log ==> x.seqNo < e.seqNo
    ensures Sort(log + [e], BySeq) == log + [e]
  {
    SeqOrder();
    InsertEvent(log, e);
    var s := log + [e];
    forall i, j | 0 <= i < j < |s| ensures BySeq(s[i], s[j]) {
      if j == |log| { assert log[i] in log; }
    }
    IncreasingUnique(Sort(s, BySeq), s, BySeq);
  }

  // ---------------------------------------------------------------- append at a given seq

  function AppendAt(logs: Logs, d: Draft, seqNo: int): (Logs, Result<InsertResult>) {
    var log := LogOf(logs, d.runId);
    if seqNo < 0 then (logs, Err(InvalidSeq))
    else if exists e :: e in log && e.runId == d.runId && e.seqNo == seqNo then
      (logs, Ok(InsertResult(false, First(log, d.runId, seqNo))))
    else if !Storable(d) then (logs, Err(CloneFailed))
    else (logs[d.runId := Sort(log + [Stored(d, seqNo)], BySeq)], Ok(InsertResult(true, Stored(d, seqNo))))
  }

  /** `find`: the first match. */
  function First(log: seq<Event>, runId: string, seqNo: int): (e: Event)
    requires exists e :: e in log && e.runId == runId && e.seqNo == seqNo
    ensures e in log && e.runId == runId && e.seqNo == seqNo
  {
    if log[0].runId == runId && log[0].seqNo == seqNo then log[0] else First(log[1..], runId, seqNo)
  }

  // ---------------------------------------------------------------- append with an assigned seq

  function MaxSeq(log: seq<Event>): (m: int)
    ensures m >= 0 && forall e :: e in log ==> e.seqNo <= m
    ensures m > 0 ==> exists e :: e in log && e.seqNo == m
  {
    if log == [] then 0
    else
      var m := MaxSeq(log[..|log| - 1]);
      assert forall e :: e in log <==> e in log[..|log| - 1] || e == log[|log| - 1];
      if log[|log| - 1].seqNo > m then log[|log| - 1].seqNo else m
  }

  method Reduce(log: seq<Event>) returns (maxSeq: int)
    ensures maxSeq == MaxSeq(log)
  {
    maxSeq := 0;
    for i := 0 to |log|
      invariant maxSeq == MaxSeq(log[..i])
    {
      assert log[..i + 1][..i] == log[..i];
      if log[i].seqNo > maxSeq {
        maxSeq := log[i].seqNo;
      }
    }
    assert log[..|log|] == log;
  }

  function Assign(logs: Logs, d: Draft): (Logs, Result<InsertResult>) {
    var log := LogOf(logs, d.runId);
    if !Storable(d) then (logs, Err(CloneFailed))
    else
      var e := Stored(d, MaxSeq(log) + 1);
      (logs[d.runId := Sort(log + [e], BySeq)], Ok(InsertResult(true, e)))
  }

  // ---------------------------------------------------------------- the store

  /** Logs, and per run the calls chained behind each other that have not run yet. */
  datatype Store = Store(logs: Logs, chains: map<string, seq<Draft>>)

  function ChainOf(chains: map<string, seq<Draft>>, runId: string): seq<Draft> {
    if runId in chains then chains[runId] else []
  }

  /** What may happen next: a call joins its run's chain, or a chain's oldest call runs. */
  datatype Op = Call(draft: Draft) | Settle(runId: string)

  function Step(s: Store, op: Op): Store {
    match op
    case Call(d) => s.(chains := s.chains[d.runId := ChainOf(s.chains, d.runId) + [d]])
    case Settle(r) =>
      var chain := ChainOf(s.chains, r);
      if chain == [] then s
      else Store(Assign(s.logs, chain[0]).0, s.chains[r := chain[1..]])
  }

  function Perform(ops: seq<Op>): Store {
    if ops == [] then Store(map[], map[]) else Step(Perform(ops[..|ops| - 1]), ops[|ops| - 1])
  }

  class InMemoryEventStore {
    var events: Logs
    var writeLocks: map<string, seq<Draft>>

    ghost predicate Valid()
      reads this
    {
      ValidLogs(events)
    }

    function Contents(): Store
      reads this
    {
      Store(events, writeLocks)
    }

    constructor ()
      ensures Valid() && Contents() == Store(map[], map[])
    {
      events, writeLocks := map[], map[];
    }

    method Append(d: Draft, seqNo: int) returns (r: Result<InsertResult>)
      requires Valid()
      modifies this`events
      ensures Valid() && (events, r) == AppendAt(old(events), d, seqNo)
      ensures r == Err(InvalidSeq) <==> seqNo < 0
      ensures r == Err(CloneFailed) <==>
        seqNo >= 0 && d.payload == Uncloneable && forall e :: e in LogOf(old(events), d.runId) ==> e.seqNo != seqNo
      ensures r.Ok? && !r.value.inserted ==> r.value.event in LogOf(old(events), d.runId) && r.value.event.seqNo == seqNo
      ensures r.Ok? && r.value.inserted ==>
        && (forall e :: e in LogOf(old(events), d.runId) ==> e.seqNo != seqNo)
        && IsStored(r.value.event, d, seqNo) && Added(old(events), events, r.value.event)
      ensures !(r.Ok? && r.value.inserted) ==> events == old(events)
    {
      hide Sort, IsStored, Added;
      if seqNo < 0 {
        return Err(InvalidSeq);
      }
      var runEvents := LogOf(events, d.runId);
      for i := 0 to |runEvents|
        invariant forall j :: 0 <= j < i ==> runEvents[j].seqNo != seqNo
      {
        if runEvents[i].runId == d.runId && runEvents[i].seqNo == seqNo {
          FirstAt(runEvents, d.runId, seqNo, i);
          assert runEvents[i] in runEvents;
          return Ok(InsertResult(false, runEvents[i]));
        }
        assert runEvents[i] in runEvents;
      }
      if !Storable(d) {
        return Err(CloneFailed);
      }
      var e := Stored(d, seqNo);
      StoredIsAdded(events, d, seqNo);
      events := events[d.runId := Sort(runEvents + [e], BySeq)];
      r := Ok(InsertResult(true, e));
    }

    /** Joins the run's chain; the answer is settled when the chain gets there. */
    method AppendAssignSeq(d: Draft)
      modifies this`writeLocks
      ensures Contents() == Step(old(Contents()), Call(d))
    {
      writeLocks := writeLocks[d.runId := ChainOf(writeLocks, d.runId) + [d]];
    }

    method DoAssignSeq(d: Draft) returns (r: Result<InsertResult>)
      requires Valid()
      modifies this`events
      ensures Valid() && (events, r) == Assign(old(events), d)
      ensures d.payload == Uncloneable ==> r == Err(CloneFailed) && events == old(events)
      ensures d.payload != Uncloneable ==>
        && r.Ok? && r.value.inserted && r.value.event.seqNo >= 1
        && (forall e :: e in LogOf(old(events), d.runId) ==> e.seqNo < r.value.event.seqNo)
        && (r.value.event.seqNo > 1 ==> exists e :: e in LogOf(old(events), d.runId) && e.seqNo == r.value.event.seqNo - 1)
        && IsStored(r.value.event, d, r.value.event.seqNo) && Added(old(events), events, r.value.event)
    {
      hide Sort, IsStored, Added;
      var runEvents := LogOf(events, d.runId);
      var maxSeq := Reduce(runEvents);
      if !Storable(d) {
        return Err(CloneFailed);
      }
      var e := Stored(d, maxSeq + 1);
      StoredIsAdded(events, d, maxSeq + 1);
      events := events[d.runId := Sort(runEvents + [e], BySeq)];
      r := Ok(InsertResult(true, e));
    }

    /** The next link of a run's chain: it runs whether or not the one before it failed. */
    method RunChain(runId: string) returns (r: Result<InsertResult>)
      requires Valid() && ChainOf(writeLocks, runId) != []
      modifies this
      ensures Valid() && Contents() == Step(old(Contents()), Settle(runId))
      ensures r == Assign(old(events), ChainOf(old(writeLocks), runId)[0]).1
    {
      var chain := ChainOf(writeLocks, runId);
      writeLocks := writeLocks[runId := chain[1..]];
      r := DoAssignSeq(chain[0]);
    }

    method GetEvents(runId: string, afterSeq: int) returns (r: seq<Event>)
      requires Valid()
      ensures Increasing(r, BySeq)
      ensures forall e :: e in r <==> e in LogOf(events, runId) && e.seqNo > afterSeq
    {
      var runEvents := LogOf(events, runId);
      r := [];
      for i := 0 to |runEvents|
        invariant Increasing(r, BySeq)
        invariant forall e :: e in r <==> e in runEvents[..i] && e.seqNo > afterSeq
      {
        assert runEvents[..i + 1] == runEvents[..i] + [runEvents[i]];
        if runEvents[i].seqNo > afterSeq {
          forall j | 0 <= j < |r| ensures r[j].seqNo < runEvents[i].seqNo {
            assert r[j] in r;
          }
          r := r + [runEvents[i]];
        }
      }
      assert runEvents[..|runEvents|] == runEvents;
    }

    method GetLastSeq(runId: string) returns (n: int)
      requires Valid()
      ensures LogOf(events, runId) == [] ==> n == -1
      ensures LogOf(events, runId) != [] ==> n in Seqs(LogOf(events, runId))
      ensures forall e :: e in LogOf(events, runId) ==> e.seqNo <= n
    {
      var runEvents := LogOf(events, runId);
      if |runEvents| == 0 {
        return -1;
      }
      n := runEvents[|runEvents| - 1].seqNo;
      assert runEvents[|runEvents| - 1] in runEvents;
    }

    /** Lists exactly the seqs absent between the smallest and the largest stored one. */
    method DetectGaps(runId: string) returns (r: GapResult)
      requires Valid()
      ensures IsGapReport(LogOf(events, runId), r)
    {
      var runEvents := LogOf(events, runId);
      if |runEvents| == 0 {
        return GapResult(false, [], -1);
      }
      var first, last := runEvents[0].seqNo, runEvents[|runEvents| - 1].seqNo;
      var missing: seq<int> := [];
      var i := first;
      assert runEvents[0] in runEvents && runEvents[|runEvents| - 1] in runEvents;
      while i <= last
        invariant first <= i <= last + 1
        invariant forall j, k :: 0 <= j < k < |missing| ==> missing[j] < missing[k]
        invariant forall n :: n in missing <==> first <= n < i && n !in Seqs(runEvents)
      {
        if i !in Seqs(runEvents) {
          forall j | 0 <= j < |missing| ensures missing[j] < i {
            assert missing[j] in missing;
          }
          missing := missing + [i];
        }
        i := i + 1;
      }
      r := GapResult(|missing| > 0, missing, last);
      forall n ensures n in missing <==> Absent(runEvents, n) {
        AbsentBetween(runEvents, n);
      }
    }
  }

  /** Missing between two stored seqs. */
  ghost predicate Absent(log: seq<Event>, n: int) {
    n !in Seqs(log) && (exists m :: m in Seqs(log) && m < n) && (exists m :: m in Seqs(log) && n < m)
  }

  lemma AbsentBetween(log: seq<Event>, n: int)
    requires log != [] && Increasing(log, BySeq)
    ensures Absent(log, n) <==> n !in Seqs(log) && log[0].seqNo <= n <= log[|log| - 1].seqNo
  {
    assert log[0] in log && log[|log| - 1] in log;
    assert log[0].seqNo in Seqs(log) && log[|log| - 1].seqNo in Seqs(log);
  }

  ghost predicate IsGapReport(log: seq<Event>, r: GapResult) {
    && (log == [] ==> r == GapResult(false, [], -1))
    && (log != [] ==> r.lastSeq in Seqs(log) && forall n :: n in Seqs(log) ==> n <= r.lastSeq)
    && (forall n :: n in r.missingSeqs <==> Absent(log, n))
    && (forall j, k :: 0 <= j < k < |r.missingSeqs| ==> r.missingSeqs[j] < r.missingSeqs[k])
    && (r.hasGaps <==> r.missingSeqs != [])
  }

  lemma {:induction false} FirstAt(log: seq<Event>, runId: string, seqNo: int, i: nat)
    requires i < |log| && log[i].runId == runId && log[i].seqNo == seqNo
    requires forall j :: 0 <= j < i ==> log[j].seqNo != seqNo
    ensures log[i] in log
    ensures First(log, runId, seqNo) == log[i]
  {
    assert log[i] in log;
    if i > 0 {
      FirstAt(log[1..], runId, seqNo, i - 1);
    }
  }

  // ---------------------------------------------------------------- the atomic log

  /** The specification: a list of contents per run; the place in the list is the seq. */
  datatype Content = Content(eventType: string, payload: Value, schemaVersion: string)

  type AtomicLog = map<string, seq<Content>>

  function AtomicOf(log: AtomicLog, runId: string): seq<Content> {
    if runId in log then log[runId] else []
  }

  function AtomicAppend(log: AtomicLog, runId: string, c: Content): AtomicLog {
    log[runId := AtomicOf(log, runId) + [c]]
  }

  function ContentOf(d: Draft): Content
    requires Storable(d)
  {
    var e := Stored(d, 0);
    Content(e.eventType, e.payload, e.schemaVersion)
  }

  /** The stored log is the atomic one, numbered from 1. */
  ghost predicate Numbered(log: seq<Event>, runId: string, atomic: seq<Content>) {
    |log| == |atomic| && forall i :: 0 <= i < |log| ==>
      log[i] == Event(runId, atomic[i].eventType, atomic[i].payload, i + 1, atomic[i].schemaVersion)
  }

  lemma {:induction false} MaxOfNumbered(log: seq<Event>, runId: string, atomic: seq<Content>)
    requires Numbered(log, runId, atomic)
    ensures MaxSeq(log) == |log|
  {
    if log != [] {
      var n := |log| - 1;
      MaxOfNumbered(log[..n], runId, atomic[..n]);
    }
  }

  /** One assignment on a numbered log is one atomic append, or nothing when it fails. */
  lemma AssignIsAppend(logs: Logs, d: Draft, atomic: seq<Content>)
    requires Numbered(LogOf(logs, d.runId), d.runId, atomic)
    ensures var (after, r) := Assign(logs, d);
            && (forall run :: run != d.runId ==> LogOf(after, run) == LogOf(logs, run))
            && (Storable(d) ==> r == Ok(InsertResult(true, Stored(d, |atomic| + 1)))
                                && LogOf(after, d.runId) == LogOf(logs, d.runId) + [Stored(d, |atomic| + 1)]
                                && Numbered(LogOf(after, d.runId), d.runId, atomic + [ContentOf(d)]))
            && (!Storable(d) ==> after == logs && r.Err?)
  {
    var log := LogOf(logs, d.runId);
    MaxOfNumbered(log, d.runId, atomic);
    if Storable(d) {
      var e := Stored(d, |atomic| + 1);
      InsertLast(log, e);
    }
  }

  // ---------------------------------------------------------------- every interleaving of callers

  /** The calls made for a run, oldest first. */
  function Calls(ops: seq<Op>, runId: string): (ds: seq<Draft>)
    ensures forall d :: d in ds ==> d.runId == runId
  {
    if ops == [] then []
    else
      var op := ops[|ops| - 1];
      var before := Calls(ops[..|ops| - 1], runId);
      if op.Call? && op.draft.runId == runId then before + [op.draft] else before
  }

  function Contents(ds: seq<Draft>): seq<Content> {
    if ds == [] then []
    else
      var d := ds[|ds| - 1];
      Contents(ds[..|ds| - 1]) + if Storable(d) then [ContentOf(d)] else []
  }

  /**
   * However calls on any runs interleave and whichever of them fail: of a run's calls some initial
   * part has run and the rest waits in order, and the run's log holds exactly the contents of the
   * calls that succeeded, in call order, numbered 1..n. A failed call uses no seq.
   */
  lemma {:induction false} LogIsNumberedCalls(ops: seq<Op>, runId: string) returns (done: nat)
    ensures done <= |Calls(ops, runId)|
    ensures ChainOf(Perform(ops).chains, runId) == Calls(ops, runId)[done..]
    ensures Numbered(LogOf(Perform(ops).logs, runId), runId, Contents(Calls(ops, runId)[..done]))
  {
    if ops == [] {
      done := 0;
    } else {
      var n := |ops| - 1;
      var before := Perform(ops[..n]);
      var calls := Calls(ops[..n], runId);
      done := LogIsNumberedCalls(ops[..n], runId);
      match ops[n]
      case Call(d) =>
        if d.runId == runId {
          assert (calls + [d])[..done] == calls[..done];
        }
      case Settle(r) =>
        var chain := ChainOf(before.chains, r);
        if chain != [] {
          var k := LogIsNumberedCalls(ops[..n], r);
          assert chain[0] == Calls(ops[..n], r)[k];
          SettleStep(before, r, Calls(ops[..n], r), k);
          if r == runId {
            done := k + 1;
          } else {
            OtherRun(before, r, runId);
          }
        }
    }
  }

  lemma SettleStep(s: Store, r: string, calls: seq<Draft>, k: nat)
    requires k < |calls| && ChainOf(s.chains, r) == calls[k..] && forall d :: d in calls ==> d.runId == r
    requires Numbered(LogOf(s.logs, r), r, Contents(calls[..k]))
    ensures ChainOf(Step(s, Settle(r)).chains, r) == calls[k + 1..]
    ensures Numbered(LogOf(Step(s, Settle(r)).logs, r), r, Contents(calls[..k + 1]))
  {
    hide Assign, Numbered, Contents;
    AssignIsAppend(s.logs, calls[k], Contents(calls[..k]));
    ContentsMore(calls, k);
    assert calls[k..][1..] == calls[k + 1..];
  }

  lemma ContentsMore(calls: seq<Draft>, k: nat)
    requires k < |calls|
    ensures Contents(calls[..k + 1]) ==
            if Storable(calls[k]) then Contents(calls[..k]) + [ContentOf(calls[k])] else Contents(calls[..k])
  {
    assert calls[..k + 1][..k] == calls[..k];
  }

  lemma OtherRun(s: Store, r: string, other: string)
    requires other != r && ChainOf(s.chains, r) != [] && ChainOf(s.chains, r)[0].runId == r
    ensures LogOf(Step(s, Settle(r)).logs, other) == LogOf(s.logs, other)
    ensures ChainOf(Step(s, Settle(r)).chains, other) == ChainOf(s.chains, other)
  {
  }

  function ContentOfEvent(e: Event): Content {
    Content(e.eventType, e.payload, e.schemaVersion)
  }

  function ContentsOf(log: seq<Event>): (r: seq<Content>)
    ensures |r| == |log| && forall i :: 0 <= i < |log| ==> r[i] == ContentOfEvent(log[i])
  {
    seq(|log|, i requires 0 <= i < |log| => ContentOfEvent(log[i]))
  }

  /** The atomic log a store stands for. */
  function Abs(logs: Logs): AtomicLog {
    map r | r in logs :: ContentsOf(logs[r])
  }

  /** Nothing happens, or one content joins the end of one run's list. */
  ghost predicate AtomicStep(before: AtomicLog, after: AtomicLog) {
    after == before || exists runId, c :: after == AtomicAppend(before, runId, c)
  }

  /** Every step of the promise-chain store is a step of the atomic log. */
  lemma StepIsAtomic(ops: seq<Op>, op: Op)
    ensures AtomicStep(Abs(Perform(ops).logs), Abs(Perform(ops + [op]).logs))
  {
    var s := Perform(ops);
    assert (ops + [op])[..|ops|] == ops;
    if op.Settle? && ChainOf(s.chains, op.runId) != [] {
      var k := LogIsNumberedCalls(ops, op.runId);
      var d := ChainOf(s.chains, op.runId)[0];
      assert d == Calls(ops, op.runId)[k];
      SettledIsAtomic(s.logs, d, Contents(Calls(ops, op.runId)[..k]));
    }
  }

  lemma SettledIsAtomic(logs: Logs, d: Draft, atomic: seq<Content>)
    requires Numbered(LogOf(logs, d.runId), d.runId, atomic)
    ensures AtomicStep(Abs(logs), Abs(Assign(logs, d).0))
  {
    hide Assign, Stored, Numbered;
    AssignIsAppend(logs, d, atomic);
    if Storable(d) {
      AssignedKeys(logs, d);
      StoredIsAtomic(logs, Assign(logs, d).0, d, |atomic| + 1);
    }
  }

  lemma AssignedKeys(logs: Logs, d: Draft)
    requires Storable(d)
    ensures Assign(logs, d).0.Keys == logs.Keys + {d.runId}
  {
  }

  lemma AbsAt(logs: Logs, run: string)
    ensures AtomicOf(Abs(logs), run) == ContentsOf(LogOf(logs, run))
  {
  }

  lemma StoredIsAtomic(logs: Logs, after: Logs, d: Draft, n: nat)
    requires Storable(d) && LogOf(after, d.runId) == LogOf(logs, d.runId) + [Stored(d, n)]
    requires d.runId in after && after.Keys == logs.Keys + {d.runId}
    requires forall run :: run != d.runId ==> LogOf(after, run) == LogOf(logs, run)
    ensures AtomicStep(Abs(logs), Abs(after))
  {
    var atomic := AtomicAppend(Abs(logs), d.runId, ContentOf(d));
    forall run | run in after ensures Abs(after)[run] == atomic[run] {
      AbsAt(logs, run);
      if run != d.runId {
        assert LogOf(after, run) == LogOf(logs, run);
      } else {
        assert ContentsOf(LogOf(after, run)) == ContentsOf(LogOf(logs, run)) + [ContentOf(d)];
      }
    }
    assert Abs(after) == atomic;
  }
}
