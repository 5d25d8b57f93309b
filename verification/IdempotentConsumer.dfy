/** At-least-once, reordered delivery into the event log. */
module IdempotentConsumer {
  import opened Text
  import opened Sorting
  import opened EventLog

  datatype ConsumeResult = ConsumeResult(accepted: bool, duplicate: bool, event: Event, gaps: GapResult)

  class Consumer {
    const store: InMemoryEventStore

    constructor (store: InMemoryEventStore)
      ensures this.store == store
    {
      this.store := store;
    }

    /**
     * Appends, then reports the gaps of the log as it stands when it goes on; `meanwhile` are the deliveries that
     * others append while it waits.
     */
    method Consume(d: Draft, seqNo: int, meanwhile: seq<Delivery>) returns (r: Result<ConsumeResult>)
      requires store.Valid()
      modifies store`events
      ensures store.Valid()
      ensures var (after, answer) := AppendAt(old(store.events), d, seqNo);
              && (r.Err? <==> answer.Err?)
              && store.events == (if r.Err? then after else DeliverTo(after, meanwhile))
              && (r.Ok? ==> answer == Ok(InsertResult(r.value.accepted, r.value.event)))
      ensures r.Ok? ==> r.value.accepted == !r.value.duplicate
      ensures r.Ok? ==> IsGapReport(LogOf(store.events, d.runId), r.value.gaps)
    {
      var inserted := store.Append(d, seqNo);
      if inserted.Err? {
        return Err(inserted.reason);
      }
      ghost var appended := store.events;
      for i := 0 to |meanwhile|
        invariant store.Valid() && store.events == DeliverTo(appended, meanwhile[..i])
      {
        assert meanwhile[..i + 1][..i] == meanwhile[..i];
        var other := store.Append(meanwhile[i].draft, meanwhile[i].seqNo);
      }
      assert meanwhile[..|meanwhile|] == meanwhile;
      var gaps := store.DetectGaps(d.runId);
      r := Ok(ConsumeResult(inserted.value.inserted, !inserted.value.inserted, inserted.value.event, gaps));
    }
  }

  /** One delivery of an event at a seq. */
  datatype Delivery = Delivery(draft: Draft, seqNo: int)

  /** The logs after these further deliveries, in this order. */
  function DeliverTo(logs: Logs, ds: seq<Delivery>): Logs {
    if ds == [] then logs
    else AppendAt(DeliverTo(logs, ds[..|ds| - 1]), ds[|ds| - 1].draft, ds[|ds| - 1].seqNo).0
  }

  /** The logs after these deliveries, from an empty store. */
  function Deliver(ds: seq<Delivery>): Logs {
    DeliverTo(map[], ds)
  }

  lemma {:induction false} DeliverMore(ds: seq<Delivery>, d: Delivery, meanwhile: seq<Delivery>)
    ensures DeliverTo(AppendAt(Deliver(ds), d.draft, d.seqNo).0, meanwhile) == Deliver(ds + [d] + meanwhile)
  {
    hide AppendAt;
    var all := ds + [d] + meanwhile;
    if meanwhile == [] {
      assert all == ds + [d] && all[..|ds|] == ds;
    } else {
      var n := |meanwhile| - 1;
      DeliverMore(ds, d, meanwhile[..n]);
      assert all[..|all| - 1] == ds + [d] + meanwhile[..n];
    }
  }

  predicate Acceptable(d: Delivery) {
    d.seqNo >= 0 && Storable(d.draft)
  }

  function EventOf(d: Delivery): Event
    requires Acceptable(d)
  {
    Stored(d.draft, d.seqNo)
  }

  /** Delivery `i` is acceptable and the first to bring its run's seq. */
  ghost predicate IsFirst(ds: seq<Delivery>, i: nat) {
    && i < |ds| && Acceptable(ds[i])
    && forall j :: 0 <= j < i && Acceptable(ds[j]) && ds[j].draft.runId == ds[i].draft.runId
                   ==> ds[j].seqNo != ds[i].seqNo
  }

  ghost predicate FirstsOf(ds: seq<Delivery>, runId: string, e: Event) {
    exists i: nat :: IsFirst(ds, i) && ds[i].draft.runId == runId && EventOf(ds[i]) == e
  }

  /** The log is sorted by seq and holds exactly the first delivered event of each seq. */
  ghost predicate HoldsFirsts(log: seq<Event>, ds: seq<Delivery>, runId: string) {
    && Increasing(log, BySeq)
    && (forall e :: e in log <==> FirstsOf(ds, runId, e))
  }

  /** Some acceptable delivery brought the run's seq `n`. */
  predicate Delivered(ds: seq<Delivery>, runId: string, n: int) {
    exists i :: 0 <= i < |ds| && Acceptable(ds[i]) && ds[i].draft.runId == runId && ds[i].seqNo == n
  }

  /** A seq is in the log exactly when it was delivered. */
  lemma SeqDelivered(ds: seq<Delivery>, runId: string, log: seq<Event>, n: int)
    requires HoldsFirsts(log, ds, runId)
    ensures n in Seqs(log) <==> Delivered(ds, runId, n)
  {
    if n in Seqs(log) {
      var e :| e in log && e.seqNo == n;
      var i: nat :| IsFirst(ds, i) && ds[i].draft.runId == runId && EventOf(ds[i]) == e;
      assert ds[i].seqNo == n;
    }
    if i :| 0 <= i < |ds| && Acceptable(ds[i]) && ds[i].draft.runId == runId && ds[i].seqNo == n {
      var k := Earliest(ds, i);
      assert FirstsOf(ds, runId, EventOf(ds[k]));
      assert EventOf(ds[k]) in log;
    }
  }

  /**
   * The gaps a delivery is told: exactly the seqs that neither it nor any delivery before or meanwhile has brought,
   * while both a lower and a higher one has been.
   */
  lemma ReportedGaps(ds: seq<Delivery>, d: Delivery, meanwhile: seq<Delivery>, gaps: GapResult)
    requires IsGapReport(LogOf(DeliverTo(AppendAt(Deliver(ds), d.draft, d.seqNo).0, meanwhile), d.draft.runId), gaps)
    ensures var all, run := ds + [d] + meanwhile, d.draft.runId;
            forall n :: n in gaps.missingSeqs <==>
              && !Delivered(all, run, n)
              && (exists m :: m < n && Delivered(all, run, m)) && (exists m :: n < m && Delivered(all, run, m))
  {
    hide Deliver, DeliverTo, HoldsFirsts, LogOf, Seqs;
    var all, run := ds + [d] + meanwhile, d.draft.runId;
    DeliverMore(ds, d, meanwhile);
    DeliveredLog(all, run);
    var log := LogOf(Deliver(all), run);
    forall n ensures n in Seqs(log) <==> Delivered(all, run, n) {
      SeqDelivered(all, run, log, n);
    }
  }

  lemma {:induction false} Earliest(ds: seq<Delivery>, i: nat) returns (k: nat)
    requires i < |ds| && Acceptable(ds[i])
    ensures IsFirst(ds, k) && ds[k].draft.runId == ds[i].draft.runId && ds[k].seqNo == ds[i].seqNo
  {
    if j :| 0 <= j < i && Acceptable(ds[j]) && ds[j].draft.runId == ds[i].draft.runId && ds[j].seqNo == ds[i].seqNo {
      k := Earliest(ds, j);
    } else {
      k := i;
    }
  }

  lemma FirstsMore(ds: seq<Delivery>, d: Delivery, runId: string, e: Event)
    ensures FirstsOf(ds + [d], runId, e) <==>
            FirstsOf(ds, runId, e) || (IsFirst(ds + [d], |ds|) && d.draft.runId == runId && EventOf(d) == e)
  {
    var all := ds + [d];
    forall i: nat | i < |ds| ensures IsFirst(all, i) <==> IsFirst(ds, i) {
      assert all[..i] == ds[..i];
      assert forall j :: 0 <= j <= i ==> all[j] == ds[j];
    }
    if FirstsOf(ds, runId, e) {
      var i: nat :| IsFirst(ds, i) && ds[i].draft.runId == runId && EventOf(ds[i]) == e;
      assert IsFirst(all, i) && all[i] == ds[i];
    }
    if FirstsOf(all, runId, e) {
      var i: nat :| IsFirst(all, i) && all[i].draft.runId == runId && EventOf(all[i]) == e;
      if i < |ds| {
        assert IsFirst(ds, i) && all[i] == ds[i];
      }
    }
  }

  lemma NothingNew(ds: seq<Delivery>, d: Delivery, runId: string, log: seq<Event>)
    requires HoldsFirsts(log, ds, runId) && !(IsFirst(ds + [d], |ds|) && d.draft.runId == runId)
    ensures HoldsFirsts(log, ds + [d], runId)
  {
    hide FirstsOf, IsFirst, BySeq;
    forall e ensures FirstsOf(ds + [d], runId, e) <==> FirstsOf(ds, runId, e) {
      FirstsMore(ds, d, runId, e);
    }
  }

  lemma OneNew(ds: seq<Delivery>, d: Delivery, runId: string, log: seq<Event>, after: seq<Event>)
    requires HoldsFirsts(log, ds, runId) && IsFirst(ds + [d], |ds|) && d.draft.runId == runId && Acceptable(d)
    requires Increasing(after, BySeq) && forall e :: e in after <==> e in log || e == EventOf(d)
    ensures HoldsFirsts(after, ds + [d], runId)
  {
    hide FirstsOf, IsFirst, BySeq, EventOf;
    forall e ensures FirstsOf(ds + [d], runId, e) <==> FirstsOf(ds, runId, e) || e == EventOf(d) {
      FirstsMore(ds, d, runId, e);
    }
  }

  lemma DeliverOne(logs: Logs, ds: seq<Delivery>, d: Delivery, runId: string)
    requires HoldsFirsts(LogOf(logs, runId), ds, runId)
    ensures HoldsFirsts(LogOf(AppendAt(logs, d.draft, d.seqNo).0, runId), ds + [d], runId)
  {
    hide FirstsOf, IsFirst, BySeq, HoldsFirsts;
    var log := LogOf(logs, runId);
    if d.draft.runId == runId && Acceptable(d) {
      NewIsFirst(ds, d, runId, log);
      if d.seqNo in Seqs(log) {
        NothingNew(ds, d, runId, log);
      } else {
        LogIncreases(log, ds, runId);
        InsertEvent(log, EventOf(d));
        OneNew(ds, d, runId, log, Sort(log + [EventOf(d)], BySeq));
      }
    } else {
      FirstIsAcceptable(ds, d);
      NothingNew(ds, d, runId, log);
    }
  }

  lemma LogIncreases(log: seq<Event>, ds: seq<Delivery>, runId: string)
    requires HoldsFirsts(log, ds, runId)
    ensures Increasing(log, BySeq)
  {
  }

  lemma FirstIsAcceptable(ds: seq<Delivery>, d: Delivery)
    ensures IsFirst(ds + [d], |ds|) ==> Acceptable(d)
  {
  }

  /** After any sequence of deliveries, each run's log is the sorted list of first events. */
  lemma {:induction false} DeliveredLog(ds: seq<Delivery>, runId: string)
    ensures HoldsFirsts(LogOf(Deliver(ds), runId), ds, runId)
  {
    hide AppendAt, HoldsFirsts;
    if ds == [] {
      NothingDelivered(runId);
    } else {
      var n := |ds| - 1;
      DeliveredLog(ds[..n], runId);
      DeliverOne(Deliver(ds[..n]), ds[..n], ds[n], runId);
      assert ds[..n] + [ds[n]] == ds;
    }
  }

  lemma NothingDelivered(runId: string)
    ensures HoldsFirsts(LogOf(Deliver([]), runId), [], runId)
  {
  }

  lemma NewIsFirst(ds: seq<Delivery>, d: Delivery, runId: string, log: seq<Event>)
    requires HoldsFirsts(log, ds, runId) && d.draft.runId == runId && Acceptable(d)
    ensures IsFirst(ds + [d], |ds|) <==> d.seqNo !in Seqs(log)
    ensures d.seqNo in Seqs(log) <==> exists e :: e in log && e.runId == runId && e.seqNo == d.seqNo
  {
    SeqDelivered(ds, runId, log, d.seqNo);
    assert forall j :: 0 <= j < |ds| ==> (ds + [d])[j] == ds[j];
    forall e | e in log ensures e.runId == runId {
      assert FirstsOf(ds, runId, e);
    }
  }

  /** All deliveries of a run's seq bring the same event. */
  ghost predicate OnePayload(ds: seq<Delivery>) {
    forall i, j :: 0 <= i < |ds| && 0 <= j < |ds| && Acceptable(ds[i]) && Acceptable(ds[j])
                   && ds[i].draft.runId == ds[j].draft.runId && ds[i].seqNo == ds[j].seqNo
                   ==> EventOf(ds[i]) == EventOf(ds[j])
  }

  ghost predicate Brings(ds: seq<Delivery>, e: Event) {
    exists i :: 0 <= i < |ds| && Acceptable(ds[i]) && EventOf(ds[i]) == e
  }

  /** With one payload per seq the log holds exactly the distinct delivered events of the run. */
  lemma LogIsDistinctEvents(ds: seq<Delivery>, runId: string)
    requires OnePayload(ds)
    ensures Increasing(LogOf(Deliver(ds), runId), BySeq)
    ensures forall e :: e in LogOf(Deliver(ds), runId) <==> Brings(ds, e) && e.runId == runId
  {
    DeliveredLog(ds, runId);
    var log := LogOf(Deliver(ds), runId);
    forall e ensures e in log <==> Brings(ds, e) && e.runId == runId {
      if Brings(ds, e) && e.runId == runId {
        var i :| 0 <= i < |ds| && Acceptable(ds[i]) && EventOf(ds[i]) == e;
        var k := Earliest(ds, i);
        assert EventOf(ds[k]) == e;
        assert FirstsOf(ds, runId, e);
      }
      if e in log {
        assert FirstsOf(ds, runId, e);
      }
    }
  }

  /** Order and repetition of deliveries do not matter. */
  lemma OrderAndRepeatsDoNotMatter(ds: seq<Delivery>, es: seq<Delivery>, runId: string)
    requires OnePayload(ds) && OnePayload(es) && forall e :: Brings(ds, e) <==> Brings(es, e)
    ensures LogOf(Deliver(ds), runId) == LogOf(Deliver(es), runId)
  {
    LogIsDistinctEvents(ds, runId);
    LogIsDistinctEvents(es, runId);
    SeqOrder();
    IncreasingUnique(LogOf(Deliver(ds), runId), LogOf(Deliver(es), runId), BySeq);
  }
}
