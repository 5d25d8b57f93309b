/** What holds of the delivered ids whatever the payloads are. */
module SseIds {
  import opened Text
  import opened SseEvents
  import opened SseStream
  import opened SseReconnect

  function Ids(events: seq<RunEvent>): (r: seq<int>)
    ensures |r| == |events| && forall i :: 0 <= i < |events| ==> r[i] == events[i].id
  {
    seq(|events|, i requires 0 <= i < |events| => events[i].id)
  }

  lemma IdsPrefix(a: seq<RunEvent>, b: seq<RunEvent>)
    requires a <= b
    ensures Ids(a) <= Ids(b)
  {
  }

  lemma IdsAppend(a: seq<RunEvent>, b: seq<RunEvent>)
    ensures Ids(a + b) == Ids(a) + Ids(b)
  {
  }

  /** A body cut at any character yields events under the first ids past `id`, in order. */
  lemma {:induction false} CutBodyIds(events: seq<RunEvent>, text: string, ended: bool, id: int)
    requires AllDeliverable(events) && text <= Wire(events)
    ensures Ids(After(EventsOf(text, ended), id)) <= Ids(After(events, id))
  {
    hide EventsOf, ServerFrame, Ids;
    if events == [] {
      EventsOfNothing(ended);
      IdsPrefix([], []);
    } else if FirstLength(events) <= |text| {
      var tail := EventsOf(text[FirstLength(events)..], ended);
      EventsTail(events, text, ended);
      CutBodyIds(events[1..], text[FirstLength(events)..], ended, id);
      assert [events[0]] + events[1..] == events;
      MoreIds(events[0], tail, events[1..], id);
    } else {
      HeadIds(events, text, ended, id);
    }
  }

  lemma MoreIds(e: RunEvent, tail: seq<RunEvent>, rest: seq<RunEvent>, id: int)
    requires Ids(After(tail, id)) <= Ids(After(rest, id))
    ensures Ids(After([e] + tail, id)) <= Ids(After([e] + rest, id))
  {
    AfterMore(e, tail, id);
    AfterMore(e, rest, id);
    var first := if e.id > id then [e] else [];
    IdsAppend(first, After(tail, id));
    IdsAppend(first, After(rest, id));
  }

  lemma HeadIds(events: seq<RunEvent>, text: string, ended: bool, id: int)
    requires events != [] && AllDeliverable(events) && text <= Wire(events) && |text| < FirstLength(events)
    ensures Ids(After(EventsOf(text, ended), id)) <= Ids(After(events, id))
  {
    hide EventsOf, ServerFrame, Wire, After, Ids, ParseFrame, Trim;
    CutHead(events, text);
    EventsOfCutFrame(events[0], text, ended);
    OneEventIds(EventsOf(text, ended), events, id);
  }

  lemma OneEventIds(got: seq<RunEvent>, events: seq<RunEvent>, id: int)
    requires |got| <= 1 && events != [] && (got != [] ==> got[0].id == events[0].id)
    ensures Ids(After(got, id)) <= Ids(After(events, id))
  {
    assert [events[0]] + events[1..] == events;
    AfterMore(events[0], events[1..], id);
    if got != [] {
      assert got == [got[0]] + [];
      AfterMore(got[0], [], id);
    }
  }

  /** The ids delivered and those still to come make up exactly the ids of the log after the starting id. */
  ghost predicate ExactIds(s: State, log: seq<RunEvent>, start: int) {
    Ids(s.delivered) + Ids(After(log, s.lastEventId)) == Ids(After(log, start)) && s.lastEventId >= start
  }

  lemma FreshIds(log: seq<RunEvent>, id: int, chunks: seq<string>, ending: Ending)
    requires IsLog(log) && ServedFrom(log, id, Concat(chunks))
    ensures Ids(Fresh(chunks, ending, id)) <= Ids(After(log, id))
  {
    var m: nat, from: int :| m <= |log| && from <= id
      && AllDeliverable(After(log[..m], from)) && Concat(chunks) <= Wire(After(log[..m], from));
    var served := After(log[..m], from);
    AfterAfter(log[..m], from, id);
    AfterPrefix(log[..m], log, id);
    IdsPrefix(After(log[..m], id), After(log, id));
    CutBodyIds(served, Concat(chunks), ending.Closed?, id);
  }

  lemma AdvanceIds(s: State, log: seq<RunEvent>, start: int, taken: seq<RunEvent>)
    requires IsLog(log) && ExactIds(s, log, start) && Ids(taken) <= Ids(After(log, s.lastEventId))
    ensures ExactIds(Advance(s, taken), log, start)
  {
    hide After, IsLog, Ids;
    var rest := After(log, s.lastEventId);
    var n := |taken|;
    if n == 0 {
      assert taken == [] && s.delivered + taken == s.delivered;
    } else {
      LastId(rest, taken);
      RestAfter(log, s.lastEventId, rest[..n]);
      IdsDrop(rest, n);
      IdsAppend(s.delivered, taken);
      Shift(Ids(s.delivered), Ids(taken), Ids(rest), n);
    }
  }

  lemma LastId(rest: seq<RunEvent>, taken: seq<RunEvent>)
    requires taken != [] && Ids(taken) <= Ids(rest)
    ensures |taken| <= |rest| && rest[..|taken|][|taken| - 1].id == taken[|taken| - 1].id
  {
    assert Ids(taken)[|taken| - 1] == Ids(rest)[|taken| - 1];
  }

  lemma IdsDrop(events: seq<RunEvent>, n: nat)
    requires n <= |events|
    ensures Ids(events[n..]) == Ids(events)[n..]
  {
  }

  lemma Shift(d: seq<int>, t: seq<int>, r: seq<int>, n: nat)
    requires |t| == n && t <= r
    ensures d + r == (d + t) + r[n..]
  {
  }

  lemma TurnIds(w: World, turn: nat, s: State, log: seq<RunEvent>, start: int)
    requires IsLog(log) && Serves(w, log) && start >= 0 && ExactIds(s, log, start)
    ensures ExactIds(Turn(w, turn, s), log, start)
  {
    hide Fresh, OnReply, After, IsLog, ServedFrom, Ids;
    var reply := w.reply(turn, s.lastEventId);
    if reply.Streamed? {
      var events := Fresh(reply.chunks, reply.ending, s.lastEventId);
      FreshIds(log, s.lastEventId, reply.chunks, reply.ending);
      IdsPrefix(Taken(events), events);
      OnReplyKeeps(w, s, events, reply.ending);
      AdvanceIds(s, log, start, Taken(events));
    }
  }

  /**
   * Whatever the payloads: over any run of connections, cut anywhere and resumed, the delivered ids are an initial
   * part of the log's ids after the start, and the id to resume from leaves exactly the rest.
   */
  lemma {:induction false} DeliversIdsInOrder(w: World, log: seq<RunEvent>, start: int, turns: nat)
    requires IsLog(log) && Serves(w, log) && start >= 0
    ensures ExactIds(Run(w, start, turns), log, start)
  {
    hide Turn, IsLog, Serves, After;
    if turns == 0 {
      assert Ids([]) + Ids(After(log, start)) == Ids(After(log, start));
    } else {
      DeliversIdsInOrder(w, log, start, turns - 1);
      var s := Run(w, start, turns - 1);
      if s.end.None? {
        TurnIds(w, turns - 1, s, log, start);
      }
    }
  }

  /** In particular no id arrives twice or out of order, and none is skipped. */
  lemma IdsGrow(w: World, log: seq<RunEvent>, start: int, turns: nat)
    requires IsLog(log) && Serves(w, log) && start >= 0
    ensures Growing(Run(w, start, turns).delivered)
    ensures Ids(Run(w, start, turns).delivered) <= Ids(After(log, start))
  {
    hide Run, IsLog, Serves, After;
    DeliversIdsInOrder(w, log, start, turns);
    var got, all := Run(w, start, turns).delivered, After(log, start);
    LogGrowing(log, start);
    assert forall i :: 0 <= i < |got| ==> got[i].id == Ids(got)[i] == Ids(all)[i] == all[i].id;
  }

  lemma LogGrowing(log: seq<RunEvent>, start: int)
    requires IsLog(log)
    ensures Growing(After(log, start))
  {
    AfterIncreasing(log, start);
  }
}
