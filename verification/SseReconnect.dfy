/** `streamEvents`: connect, deliver, and reconnect from the last delivered id. */
module SseReconnect {
  import opened Text
  import opened Json
  import opened SseEvents
  import opened SseStream

  // ---------------------------------------------------------------- the world around the reader

  /** How a body ends: end of stream (an aborted body reads as ended too), or a read that throws. */
  datatype Ending = Closed | Broken(abort: bool)

  /** What a request comes back with; `abort` says whether what is thrown is an AbortError. */
  datatype Reply = Refused(abort: bool) | Streamed(chunks: seq<string>, ending: Ending)

  datatype Cause = Eof | Error

  /** The reconnect policy's answer; `Throws` when the policy itself throws. */
  datatype Answer = Stop | Retry(sleepAborted: bool) | Throws(abort: bool)

  /** Every choice the reader does not make itself, by turn, last id and attempt. */
  datatype World = World(
    abortedAtTurn: nat -> bool,
    reply: (nat, int) -> Reply,
    policy: (nat, int, Cause) -> Answer,
    abortedAfterPolicy: nat -> bool)

  /** Why the iteration ended; only `Failed` throws to the consumer. */
  datatype End = RunDone | NothingNew | Declined | Aborted | Failed

  datatype State = State(lastEventId: int, attempt: nat, delivered: seq<RunEvent>, end: Option<End>)

  // ---------------------------------------------------------------- specification of one turn

  /** The terminal event; asking a null payload for its type throws. */
  predicate IsRunDone(v: Value) {
    v.Object? && exists i :: 0 <= i < |v.members| && v.members[i] == Member("type", Str("data-openrush-run-done"))
  }

  predicate Crashes(events: seq<RunEvent>) {
    exists i :: 0 <= i < |events| && events[i].data.Null?
  }

  /** The events handed over before the first one whose payload makes the reader throw, that one included. */
  function Taken(events: seq<RunEvent>): (r: seq<RunEvent>)
    ensures r <= events
    ensures !Crashes(events) ==> r == events
  {
    if events == [] then []
    else if events[0].data.Null? then [events[0]]
    else
      assert Crashes(events[1..]) ==> Crashes(events);
      [events[0]] + Taken(events[1..])
  }

  function Advance(s: State, taken: seq<RunEvent>): State {
    s.(lastEventId := if taken == [] then s.lastEventId else taken[|taken| - 1].id,
       delivered := s.delivered + taken)
  }

  function OnError(w: World, s: State, abort: bool): State {
    if abort then s.(end := Some(Aborted))
    else
      var t := s.(attempt := s.attempt + 1);
      match w.policy(t.attempt, t.lastEventId, Error)
      case Throws(_) => t.(end := Some(Failed))
      case Stop => t.(end := Some(Failed))
      case Retry(sleepAborted) =>
        if w.abortedAfterPolicy(t.attempt) || sleepAborted then t.(end := Some(Failed)) else t
  }

  function OnEof(w: World, s: State): State {
    var t := s.(attempt := s.attempt + 1);
    match w.policy(t.attempt, t.lastEventId, Eof)
    case Throws(abort) => OnError(w, t, abort)
    case Stop => t.(end := Some(Declined))
    case Retry(sleepAborted) =>
      if w.abortedAfterPolicy(t.attempt) || sleepAborted then t.(end := Some(Aborted)) else t
  }

  /** What the reader makes of a reply: the events past `lastEventId`, in the order of the body. */
  function Fresh(chunks: seq<string>, ending: Ending, lastEventId: int): seq<RunEvent> {
    After(EventsOf(Concat(chunks), ending.Closed?), lastEventId)
  }

  predicate SawRunDone(events: seq<RunEvent>) {
    exists i :: 0 <= i < |events| && IsRunDone(events[i].data)
  }

  function OnReply(w: World, s: State, events: seq<RunEvent>, ending: Ending): State {
    var t := Advance(s, Taken(events));
    if Crashes(events) then OnError(w, t, false)
    else if ending.Broken? then OnError(w, t, ending.abort)
    else if SawRunDone(events) then t.(end := Some(RunDone))
    else if events == [] then t.(end := Some(NothingNew))
    else OnEof(w, t)
  }

  function Turn(w: World, turn: nat, s: State): State {
    if w.abortedAtTurn(turn) then s.(end := Some(Aborted))
    else
      match w.reply(turn, s.lastEventId)
      case Refused(abort) => OnError(w, s, abort)
      case Streamed(chunks, ending) => OnReply(w, s, Fresh(chunks, ending, s.lastEventId), ending)
  }

  /** The state after at most `turns` turns of the loop. */
  function Run(w: World, start: int, turns: nat): State {
    if turns == 0 then State(start, 0, [], None)
    else Next(w, Run(w, start, turns - 1), turns - 1)
  }

  /** The loop goes round again only while the iteration has not ended. */
  function Next(w: World, s: State, turn: nat): State {
    if s.end.Some? then s else Turn(w, turn, s)
  }

  // ---------------------------------------------------------------- the loop

  /** The catch branch. */
  method HandleError(w: World, s: State, abort: bool) returns (r: State)
    ensures r == OnError(w, s, abort)
  {
    if abort {
      return s.(end := Some(Aborted));
    }
    var attempt := s.attempt + 1;
    r := s.(attempt := attempt);
    var next := w.policy(attempt, s.lastEventId, Error);
    if next.Throws? || next.Stop? || w.abortedAfterPolicy(attempt) || next.sleepAborted {
      r := r.(end := Some(Failed));
    }
  }

  /** The body of the consuming loop: remember the id, hand the event over, look for the end of the run. */
  method DeliverAll(events: seq<RunEvent>, s: State)
    returns (r: State, yielded: nat, sawRunDone: bool, threw: bool)
    ensures r == Advance(s, Taken(events)) && threw == Crashes(events)
    ensures !threw ==> yielded == |events|
    ensures !threw ==> sawRunDone == SawRunDone(events)
  {
    r, yielded, sawRunDone := s, 0, false;
    for i := 0 to |events|
      invariant yielded == i && r == Advance(s, events[..i])
      invariant forall j :: 0 <= j < i ==> !events[j].data.Null?
      invariant sawRunDone == exists j :: 0 <= j < i && IsRunDone(events[j].data)
    {
      var ev := events[i];
      r := r.(lastEventId := ev.id, delivered := r.delivered + [ev]);
      yielded := yielded + 1;
      assert events[..i + 1] == events[..i] + [ev];
      if ev.data.Null? {
        TakenUpTo(events, i);
        return r, yielded, sawRunDone, true;
      }
      if IsRunDone(ev.data) {
        sawRunDone := true;
      }
    }
    assert events[..|events|] == events;
    threw := false;
  }

  lemma {:induction false} TakenUpTo(events: seq<RunEvent>, i: nat)
    requires i < |events| && events[i].data.Null?
    requires forall j :: 0 <= j < i ==> !events[j].data.Null?
    ensures Taken(events) == events[..i + 1]
  {
    if i > 0 {
      TakenUpTo(events[1..], i - 1);
      assert events[..i + 1] == [events[0]] + events[1..][..i];
    }
  }

  /** A stream that ended while the run goes on: ask the policy. */
  method HandleEof(w: World, s: State) returns (r: State)
    ensures r == OnEof(w, s)
  {
    r := s.(attempt := s.attempt + 1);
    var next := w.policy(r.attempt, r.lastEventId, Eof);
    if next.Throws? {
      r := HandleError(w, r, next.abort);
    } else if next.Stop? {
      r := r.(end := Some(Declined));
    } else if w.abortedAfterPolicy(r.attempt) || next.sleepAborted {
      r := r.(end := Some(Aborted));
    }
  }

  method HandleReply(w: World, s: State, chunks: seq<string>, ending: Ending) returns (r: State)
    ensures r == OnReply(w, s, Fresh(chunks, ending, s.lastEventId), ending)
  {
    var events := ReadSingleConnection(chunks, ending.Closed?, s.lastEventId);
    var yielded, sawRunDone, threw;
    r, yielded, sawRunDone, threw := DeliverAll(events, s);
    if threw {
      r := HandleError(w, r, false);
    } else if ending.Broken? {
      r := HandleError(w, r, ending.abort);
    } else if sawRunDone {
      r := r.(end := Some(RunDone));
    } else if yielded == 0 {
      r := r.(end := Some(NothingNew));
    } else {
      r := HandleEof(w, r);
    }
  }

  /** The reconnect loop, observed after at most `turns` turns. */
  method StreamEvents(w: World, start: int, turns: nat) returns (s: State)
    ensures s == Run(w, start, turns)
    ensures turns == 0 ==> s == State(start, 0, [], None)
  {
    hide OnReply, OnError, Fresh;
    s := State(start, 0, [], None);
    var turn := 0;
    while turn < turns && s.end.None?
      invariant turn <= turns && s == Run(w, start, turn)
    {
      if w.abortedAtTurn(turn) {
        s := s.(end := Some(Aborted));
      } else {
        var reply := w.reply(turn, s.lastEventId);
        if reply.Refused? {
          s := HandleError(w, s, reply.abort);
        } else {
          s := HandleReply(w, s, reply.chunks, reply.ending);
        }
      }
      turn := turn + 1;
    }
    RunStays(w, start, turn, turns);
  }

  lemma {:induction false} RunStays(w: World, start: int, turn: nat, turns: nat)
    requires turn <= turns && (turn == turns || Run(w, start, turn).end.Some?)
    ensures Run(w, start, turns) == Run(w, start, turn)
  {
    if turn < turns {
      RunStays(w, start, turn, turns - 1);
    }
  }

  // ---------------------------------------------------------------- one turn, case by case

  /** The fresh events of a body: those of its complete frames, and of its tail only when it ended regularly. */
  lemma FreshMeans(chunks: seq<string>, ending: Ending, lastEventId: int)
    ensures var frames, tail := SseFrames.Seen(Concat(chunks)), SseFrames.Left(Concat(chunks));
            Fresh(chunks, ending, lastEventId) ==
              After(Collect(ParseFrame, frames + if ending == Closed && Trim(tail) != "" then [tail] else []), lastEventId)
  {
    hide ParseFrame, After, Trim;
  }

  /** What a turn hands over: every fresh event, or those up to and including the first null payload. */
  ghost predicate HandsOver(s: State, t: State, events: seq<RunEvent>) {
    exists n: nat | n <= |events| ::
      && t.delivered == s.delivered + events[..n]
      && t.lastEventId == (if n == 0 then s.lastEventId else events[n - 1].id)
      && (forall i :: 0 <= i < n - 1 ==> events[i].data != Null)
      && (n < |events| ==> n > 0 && events[n - 1].data == Null)
  }

  lemma {:induction false} TakenEnds(events: seq<RunEvent>)
    ensures forall i :: 0 <= i < |Taken(events)| - 1 ==> events[i].data != Null
    ensures |Taken(events)| < |events| ==> Taken(events) != [] && events[|Taken(events)| - 1].data == Null
  {
    if events != [] && !events[0].data.Null? {
      TakenEnds(events[1..]);
      var rest := Taken(events[1..]);
      forall i | 0 <= i < |Taken(events)| - 1 ensures events[i].data != Null {
        assert i > 0 ==> events[i] == events[1..][i - 1];
      }
    }
  }

  lemma TurnHandsOver(w: World, turn: nat, s: State)
    requires !w.abortedAtTurn(turn) && w.reply(turn, s.lastEventId).Streamed?
    ensures var reply := w.reply(turn, s.lastEventId);
            HandsOver(s, Turn(w, turn, s), Fresh(reply.chunks, reply.ending, s.lastEventId))
  {
    hide Fresh, OnReply;
    var reply := w.reply(turn, s.lastEventId);
    var events := Fresh(reply.chunks, reply.ending, s.lastEventId);
    var t := Turn(w, turn, s);
    OnReplyKeeps(w, s, events, reply.ending);
    TakenEnds(events);
    var n := |Taken(events)|;
    assert Taken(events) == events[..n];
    assert t.delivered == s.delivered + events[..n];
  }

  /** The regular end of a body is handled without asking the error branch. */
  ghost predicate EndsRegularly(reply: Reply, lastEventId: int) {
    && reply.Streamed? && reply.ending == Closed
    && forall e :: e in Fresh(reply.chunks, reply.ending, lastEventId) ==> e.data != Null
  }

  /** The payload of the event that closes a run. */
  ghost predicate ClosesRun(v: Value) {
    v.Object? && Member("type", Str("data-openrush-run-done")) in v.members
  }

  /** The event that closes the run ends the iteration at the end of its body; the policy is not asked. */
  lemma ClosingEventEnds(w: World, turn: nat, s: State)
    requires s.end.None? && !w.abortedAtTurn(turn) && EndsRegularly(w.reply(turn, s.lastEventId), s.lastEventId)
    requires var reply := w.reply(turn, s.lastEventId);
             exists e :: e in Fresh(reply.chunks, Closed, s.lastEventId) && ClosesRun(e.data)
    ensures var t := Turn(w, turn, s); t.end == Some(RunDone) && t.attempt == s.attempt
  {
    hide Fresh;
    var reply := w.reply(turn, s.lastEventId);
    var events := Fresh(reply.chunks, Closed, s.lastEventId);
    var e :| e in events && ClosesRun(e.data);
    var i :| 0 <= i < |events| && events[i] == e;
    assert IsRunDone(events[i].data);
  }

  /** A body without fresh events ends it, too, and any other body asks the policy with its cause. */
  lemma OtherBodiesAskPolicy(w: World, turn: nat, s: State)
    requires s.end.None? && !w.abortedAtTurn(turn) && EndsRegularly(w.reply(turn, s.lastEventId), s.lastEventId)
    requires var reply := w.reply(turn, s.lastEventId);
             forall e :: e in Fresh(reply.chunks, Closed, s.lastEventId) ==> !ClosesRun(e.data)
    ensures var reply := w.reply(turn, s.lastEventId);
            var events, t := Fresh(reply.chunks, Closed, s.lastEventId), Turn(w, turn, s);
            var n := s.attempt + 1;
            if events == [] then t == s.(end := Some(NothingNew))
            else
              match w.policy(n, t.lastEventId, Eof)
              case Stop => t.end == Some(Declined) && t.attempt == n
              case Retry(sleepAborted) =>
                t.end == (if sleepAborted || w.abortedAfterPolicy(n) then Some(Aborted) else None) && t.attempt == n
              case Throws(abort) => AfterError(w, s.attempt + 1, abort, t)
  {
    hide Fresh;
    var reply := w.reply(turn, s.lastEventId);
    var events := Fresh(reply.chunks, Closed, s.lastEventId);
    forall i | 0 <= i < |events| ensures !IsRunDone(events[i].data) && !events[i].data.Null? {
      assert events[i] in events && !ClosesRun(events[i].data);
    }
    assert s.delivered + [] == s.delivered;
  }

  /** An error after `attempt` attempts: aborting ends silently, else the policy is asked, and a refusal throws. */
  ghost predicate AfterError(w: World, attempt: nat, abort: bool, t: State) {
    if abort then t.end == Some(Aborted) && t.attempt == attempt
    else
      var n := attempt + 1;
      var answer := w.policy(n, t.lastEventId, Error);
      && t.attempt == n
      && t.end == if answer == Retry(false) && !w.abortedAfterPolicy(n) then None else Some(Failed)
  }

  /** A refused request, a body that breaks off and a null payload are errors; only the first two can be aborts. */
  lemma ErrorsAskPolicy(w: World, turn: nat, s: State)
    requires s.end.None? && !w.abortedAtTurn(turn) && !EndsRegularly(w.reply(turn, s.lastEventId), s.lastEventId)
    ensures var reply, t := w.reply(turn, s.lastEventId), Turn(w, turn, s);
            match reply
            case Refused(abort) => AfterError(w, s.attempt, abort, t)
            case Streamed(chunks, ending) =>
              var throws := exists e :: e in Fresh(chunks, ending, s.lastEventId) && e.data == Null;
              AfterError(w, s.attempt, !throws && ending.Broken? && ending.abort, t)
  {
    hide Fresh;
    var reply := w.reply(turn, s.lastEventId);
    if reply.Streamed? {
      var events := Fresh(reply.chunks, reply.ending, s.lastEventId);
      if e :| e in events && e.data == Null {
        var i :| 0 <= i < |events| && events[i] == e;
        assert Crashes(events);
      } else {
        forall i | 0 <= i < |events| ensures !events[i].data.Null? {
          assert events[i] in events;
        }
      }
    }
  }

  lemma AbortEnds(w: World, turn: nat, s: State)
    requires w.abortedAtTurn(turn)
    ensures Turn(w, turn, s) == s.(end := Some(Aborted))
  {
  }

  // ---------------------------------------------------------------- what is delivered

  /**
   * The text is an initial part of a body the server wrote for the log as it stood then (its
   * first `m` events), replayed from some id no later than the requested one: from exactly that
   * id when the server honours Last-Event-ID, from 0 when it does not.
   */
  ghost predicate ServedFrom(log: seq<RunEvent>, lastEventId: int, text: string)
    requires AllDeliverable(log)
  {
    exists m: nat, from: int | m <= |log| && from <= lastEventId ::
      AllDeliverable(After(log[..m], from)) && text <= Wire(After(log[..m], from))
  }

  ghost predicate Serves(w: World, log: seq<RunEvent>)
    requires AllDeliverable(log)
  {
    forall turn: nat, id: int | id >= 0 && w.reply(turn, id).Streamed? ::
      ServedFrom(log, id, Concat(w.reply(turn, id).chunks))
  }

  lemma {:induction false} AfterKeeps(log: seq<RunEvent>, id: int)
    ensures AllDeliverable(log) ==> AllDeliverable(After(log, id))
    ensures Uncuttable(log) ==> Uncuttable(After(log, id))
    ensures forall e :: e in After(log, id) ==> e in log && e.id > id
    ensures |After(log, id)| <= |log|
  {
    if log != [] {
      AfterKeeps(log[1..], id);
    }
  }

  /** Filtering by a later id after an earlier one. */
  lemma {:induction false} AfterAfter(log: seq<RunEvent>, from: int, id: int)
    requires from <= id
    ensures After(After(log, from), id) == After(log, id)
  {
    if log != [] {
      AfterAfter(log[1..], from, id);
      AfterAppend(if log[0].id > from then [log[0]] else [], After(log[1..], from), id);
      assert [log[0]][1..] == [];
    }
  }

  lemma AfterPrefix(a: seq<RunEvent>, log: seq<RunEvent>, id: int)
    requires a <= log
    ensures After(a, id) <= After(log, id)
  {
    assert log == a + log[|a|..];
    AfterAppend(a, log[|a|..], id);
  }

  lemma UncuttableLater(log: seq<RunEvent>, start: int, id: int)
    requires start <= id && Uncuttable(After(log, start))
    ensures Uncuttable(After(log, id))
  {
    AfterAfter(log, start, id);
    AfterKeeps(After(log, start), id);
  }

  lemma UncuttablePrefix(a: seq<RunEvent>, log: seq<RunEvent>)
    requires a <= log && Uncuttable(log)
    ensures Uncuttable(a)
  {
    assert forall i :: 0 <= i < |a| ==> a[i] == log[i];
  }

  /** What a faithful reply makes the reader deliver is an initial part of what it still lacks. */
  lemma FreshIsPrefix(log: seq<RunEvent>, id: int, chunks: seq<string>, ending: Ending)
    requires IsLog(log) && Uncuttable(After(log, id)) && ServedFrom(log, id, Concat(chunks))
    ensures Fresh(chunks, ending, id) <= After(log, id)
  {
    var m: nat, from: int :| m <= |log| && from <= id
      && AllDeliverable(After(log[..m], from)) && Concat(chunks) <= Wire(After(log[..m], from));
    var served := After(log[..m], from);
    AfterAfter(log[..m], from, id);
    AfterPrefix(log[..m], log, id);
    UncuttablePrefix(After(served, id), After(log, id));
    CutBody(served, Concat(chunks), ending.Closed?, id);
  }

  /** Events with growing ids: dropping those up to the last delivered one leaves exactly the rest. */
  lemma {:induction false} RestAfter(log: seq<RunEvent>, id: int, taken: seq<RunEvent>)
    requires IsLog(log) && taken <= After(log, id) && taken != []
    ensures After(log, taken[|taken| - 1].id) == After(log, id)[|taken|..]
    ensures taken[|taken| - 1].id > id
  {
    hide After, Deliverable;
    var last := taken[|taken| - 1].id;
    var all := After(log, id);
    AfterKeeps(log, id);
    assert taken[|taken| - 1] in all;
    AfterAfter(log, id, last);
    AfterIncreasing(log, id);
    assert all == taken + all[|taken|..];
    AfterAppend(taken, all[|taken|..], last);
    NoneAfter(taken, last);
    AllAfter(all[|taken|..], last);
  }

  predicate Growing(log: seq<RunEvent>) {
    forall i, j :: 0 <= i < j < |log| ==> log[i].id < log[j].id
  }

  lemma {:induction false} AfterIncreasing(log: seq<RunEvent>, id: int)
    requires Growing(log)
    ensures Growing(After(log, id))
  {
    if log != [] {
      AfterIncreasing(log[1..], id);
      AfterKeeps(log[1..], id);
      var r := After(log[1..], id);
      forall j | 0 <= j < |r| ensures log[0].id < r[j].id {
        assert r[j] in log[1..];
      }
    }
  }

  lemma {:induction false} NoneAfter(events: seq<RunEvent>, id: int)
    requires forall i :: 0 <= i < |events| ==> events[i].id <= id
    ensures After(events, id) == []
  {
    if events != [] {
      NoneAfter(events[1..], id);
    }
  }

  lemma {:induction false} AllAfter(events: seq<RunEvent>, id: int)
    requires forall i :: 0 <= i < |events| ==> events[i].id > id
    ensures After(events, id) == events
  {
    if events != [] {
      AllAfter(events[1..], id);
    }
  }

  /** What was delivered and what is still to come make up exactly the log after the starting id. */
  ghost predicate Exact(s: State, log: seq<RunEvent>, start: int) {
    s.delivered + After(log, s.lastEventId) == After(log, start) && s.lastEventId >= start
  }

  lemma AdvanceExact(s: State, log: seq<RunEvent>, start: int, taken: seq<RunEvent>)
    requires IsLog(log) && Exact(s, log, start) && taken <= After(log, s.lastEventId)
    ensures Exact(Advance(s, taken), log, start)
  {
    var rest := After(log, s.lastEventId);
    if taken == [] {
      assert s.delivered + taken == s.delivered;
    } else {
      RestAfter(log, s.lastEventId, taken);
      assert rest == taken + rest[|taken|..];
      assert s.delivered + (taken + rest[|taken|..]) == (s.delivered + taken) + rest[|taken|..];
    }
  }

  lemma OnReplyKeeps(w: World, s: State, events: seq<RunEvent>, ending: Ending)
    ensures OnReply(w, s, events, ending).delivered == Advance(s, Taken(events)).delivered
    ensures OnReply(w, s, events, ending).lastEventId == Advance(s, Taken(events)).lastEventId
  {
  }

  lemma ReplyExact(w: World, s: State, events: seq<RunEvent>, ending: Ending, log: seq<RunEvent>, start: int)
    requires IsLog(log) && Exact(s, log, start) && events <= After(log, s.lastEventId)
    ensures Exact(OnReply(w, s, events, ending), log, start)
  {
    OnReplyKeeps(w, s, events, ending);
    AdvanceExact(s, log, start, Taken(events));
  }

  lemma TurnExact(w: World, turn: nat, s: State, log: seq<RunEvent>, start: int)
    requires IsLog(log) && Uncuttable(After(log, start)) && Serves(w, log) && start >= 0 && Exact(s, log, start)
    ensures Exact(Turn(w, turn, s), log, start)
  {
    hide Fresh, OnReply, After, Uncuttable, IsLog, ServedFrom;
    var reply := w.reply(turn, s.lastEventId);
    if reply.Streamed? {
      UncuttableLater(log, start, s.lastEventId);
      FreshIsPrefix(log, s.lastEventId, reply.chunks, reply.ending);
      ReplyExact(w, s, Fresh(reply.chunks, reply.ending, s.lastEventId), reply.ending, log, start);
    }
  }

  /** Only the last event of the log, if any, is the run-done event. */
  predicate RunDoneOnlyLast(log: seq<RunEvent>) {
    forall i :: 0 <= i < |log| && IsRunDone(log[i].data) ==> i == |log| - 1
  }

  /** Delivery is exact, and complete once the iteration ended on the log's closing event. */
  ghost predicate Sound(s: State, log: seq<RunEvent>, start: int) {
    Exact(s, log, start) &&
    (RunDoneOnlyLast(log) && s.end == Some(RunDone) ==> s.delivered == After(log, start))
  }

  lemma NextSound(w: World, s: State, turn: nat, log: seq<RunEvent>, start: int)
    requires IsLog(log) && Uncuttable(After(log, start)) && Serves(w, log) && start >= 0 && Sound(s, log, start)
    ensures Sound(Next(w, s, turn), log, start)
  {
    if s.end.None? {
      TurnExact(w, turn, s, log, start);
      if RunDoneOnlyLast(log) && Turn(w, turn, s).end == Some(RunDone) {
        DoneTurnIsComplete(w, log, start, turn, s);
      }
    }
  }

  lemma {:induction false} RunSound(w: World, log: seq<RunEvent>, start: int, turns: nat)
    requires IsLog(log) && Uncuttable(After(log, start)) && Serves(w, log) && start >= 0
    ensures Sound(Run(w, start, turns), log, start)
  {
    hide Next, IsLog, Uncuttable, Serves;
    if turns == 0 {
      assert [] + After(log, start) == After(log, start);
    } else {
      RunSound(w, log, start, turns - 1);
      NextSound(w, Run(w, start, turns - 1), turns - 1, log, start);
    }
  }

  /**
   * Over any run of connections, each cut at any character and whether or not the server honours
   * Last-Event-ID, the consumer has received an initial part of the log after the starting id, and
   * the id it would resume from leaves exactly the rest.
   */
  lemma DeliversExactPrefix(w: World, log: seq<RunEvent>, start: int, turns: nat)
    requires IsLog(log) && Uncuttable(After(log, start)) && Serves(w, log) && start >= 0
    ensures Exact(Run(w, start, turns), log, start)
  {
    RunSound(w, log, start, turns);
  }

  /** When the run-done event closes the log, ending on it means everything was delivered. */
  lemma RunDoneIsComplete(w: World, log: seq<RunEvent>, start: int, turns: nat)
    requires IsLog(log) && Uncuttable(After(log, start)) && Serves(w, log) && start >= 0 && RunDoneOnlyLast(log)
    requires Run(w, start, turns).end == Some(RunDone)
    ensures Run(w, start, turns).delivered == After(log, start)
  {
    RunSound(w, log, start, turns);
  }

  // ---------------------------------------------------------------- the hypothesis on payloads is needed

  lemma EventsStep(events: seq<RunEvent>, tail: string)
    requires events != [] && AllDeliverable(events)
    ensures EventsOf(Wire(events) + tail, true) == [events[0]] + EventsOf(Wire(events[1..]) + tail, true)
  {
    WireSplit(events, tail);
    EventsMore(events[0], Wire(events[1..]) + tail, true);
  }

  lemma WireSplit(events: seq<RunEvent>, tail: string)
    requires events != [] && AllDeliverable(events)
    ensures Wire(events) + tail == ServerFrame(events[0]) + SseFrames.BREAK + (Wire(events[1..]) + tail)
  {
  }

  lemma ConsAppend<T>(s: seq<T>, t: seq<T>)
    requires s != []
    ensures [s[0]] + (s[1..] + t) == s + t
  {
  }

  lemma {:induction false} EventsAppend(events: seq<RunEvent>, tail: string)
    requires AllDeliverable(events)
    ensures EventsOf(Wire(events) + tail, true) == events + EventsOf(tail, true)
  {
    if events == [] {
      assert Wire(events) + tail == tail;
    } else {
      EventsAppend(events[1..], tail);
      EventsStep(events, tail);
      ConsAppend(events, EventsOf(tail, true));
    }
  }

  lemma {:induction false} WireAppend(a: seq<RunEvent>, e: RunEvent)
    requires AllDeliverable(a) && Deliverable(e)
    ensures Wire(a + [e]) == Wire(a) + ServerFrame(e) + SseFrames.BREAK
  {
    hide ServerFrame;
    if a == [] {
      assert a + [e] == [e] && [e][1..] == [];
    } else {
      WireAppend(a[1..], e);
      assert (a + [e])[1..] == a[1..] + [e] && (a + [e])[0] == a[0];
    }
  }

  lemma {:induction false} TakenWithLast(events: seq<RunEvent>, last: RunEvent)
    requires !Crashes(events)
    ensures Taken(events + [last]) == events + [last]
  {
    if events == [] {
      assert events + [last] == [last];
      assert [last][1..] == [];
    } else {
      assert (events + [last])[1..] == events[1..] + [last];
      assert forall i :: 0 <= i < |events[1..]| ==> events[1..][i] == events[i + 1];
      TakenWithLast(events[1..], last);
    }
  }

  lemma {:induction false} TakenToNull(events: seq<RunEvent>, more: seq<RunEvent>)
    requires Crashes(events)
    ensures Crashes(events + more) && Taken(events + more) == Taken(events) != []
  {
    var i :| 0 <= i < |events| && events[i].data.Null?;
    assert (events + more)[i] == events[i];
    if !events[0].data.Null? {
      assert events[1..][i - 1] == events[i];
      assert (events + more)[1..] == events[1..] + more;
      TakenToNull(events[1..], more);
    }
  }

  /** A cut of a cuttable event that reads as a different event under its id. */
  lemma AlteringCut(e: RunEvent) returns (cut: string, altered: RunEvent)
    requires Deliverable(e) && JsonLaws.Cuttable(e.data)
    ensures cut <= ServerFrame(e) && EventsOf(cut, true) == [altered]
    ensures altered.id == e.id && altered != e
  {
    hide EventsOf, ParseFrame, ServerFrame;
    CutSafeIff(e);
    var k :| 0 <= k <= |ServerFrame(e)| && ParseFrame(ServerFrame(e)[..k]) != None && ParseFrame(ServerFrame(e)[..k]) != Some(e);
    cut := ServerFrame(e)[..k];
    altered := ParseFrame(cut).value;
    NothingParsesToNothing();
    CutIsVisible(e, cut);
    EventsOfCutFrame(e, cut, true);
  }

  lemma NothingParsesToNothing()
    ensures ParseFrame("") == None
  {
    ParseOneLine("");
  }

  lemma CutIsVisible(e: RunEvent, cut: string)
    requires e.id > 0 && cut <= ServerFrame(e) && cut != ""
    ensures Trim(cut) != ""
  {
    assert cut[0] == 'i' && cut[0] in cut;
    TrimOfBlank(cut);
  }

  lemma ServedText(log: seq<RunEvent>, k: nat, cut: string, id: int)
    requires IsLog(log) && k < |log| && cut <= ServerFrame(log[k]) && id >= 0
    ensures ServedFrom(log, id, Wire(log[..k]) + cut)
  {
    var m, from := k + 1, 0;
    assert log[..m] == log[..k] + [log[k]];
    AllAfter(log[..m], 0);
    WireAppend(log[..k], log[k]);
    assert Wire(log[..k]) + cut <= Wire(log[..m]);
    assert AllDeliverable(After(log[..m], from)) && Wire(log[..k]) + cut <= Wire(After(log[..m], from));
  }

  /** Every connection brings the same text and then ends; the policy always says to go on. */
  function Replaying(text: string): World {
    World(n => false, (n, id) => Streamed([text], Closed), (n, id, c) => Retry(false), n => false)
  }

  lemma ReplayingServes(log: seq<RunEvent>, k: nat, cut: string)
    requires IsLog(log) && k < |log| && cut <= ServerFrame(log[k])
    ensures Serves(Replaying(Wire(log[..k]) + cut), log)
  {
    var text := Wire(log[..k]) + cut;
    var w := Replaying(text);
    ConcatOne(text);
    forall turn: nat, id: int | id >= 0 && w.reply(turn, id).Streamed?
      ensures ServedFrom(log, id, Concat(w.reply(turn, id).chunks))
    {
      ServedText(log, k, cut, id);
    }
  }

  lemma AfterOne(e: RunEvent, id: int)
    requires e.id > id
    ensures After([e], id) == [e]
  {
    assert [e][1..] == [];
  }

  lemma FreshAltered(log: seq<RunEvent>, k: nat, cut: string, altered: RunEvent, start: int)
    requires AllDeliverable(log) && k < |log| && EventsOf(cut, true) == [altered] && altered.id > start
    ensures Fresh([Wire(log[..k]) + cut], Closed, start) == After(log[..k], start) + [altered]
  {
    var text := Wire(log[..k]) + cut;
    ConcatOne(text);
    EventsAppend(log[..k], cut);
    FreshOf([text], log[..k] + [altered], start);
    AfterAppend(log[..k], [altered], start);
    AfterOne(altered, start);
  }

  lemma ConcatOne(text: string)
    ensures Concat([text]) == text
  {
    assert [text][1..] == [];
  }

  lemma FreshOf(chunks: seq<string>, events: seq<RunEvent>, id: int)
    requires EventsOf(Concat(chunks), true) == events
    ensures Fresh(chunks, Closed, id) == After(events, id)
  {
  }

  lemma AfterAt(log: seq<RunEvent>, k: nat, start: int)
    requires k < |log| && log[k].id > start
    ensures |After(log[..k], start)| < |After(log, start)|
    ensures After(log, start)[|After(log[..k], start)|] == log[k]
  {
    assert log == log[..k] + ([log[k]] + log[k + 1..]);
    AfterAppend(log[..k], [log[k]] + log[k + 1..], start);
    AfterMore(log[k], log[k + 1..], start);
  }

  /** The world in which every connection is cut at the same place. */
  function CutWorld(log: seq<RunEvent>, k: nat, cut: string): World
    requires AllDeliverable(log) && k < |log|
  {
    Replaying(Wire(log[..k]) + cut)
  }

  lemma CutTurn(log: seq<RunEvent>, k: nat, cut: string, altered: RunEvent, turn: nat, s: State)
    requires AllDeliverable(log) && k < |log| && EventsOf(cut, true) == [altered] && altered.id > s.lastEventId
    ensures var w := CutWorld(log, k, cut);
            Turn(w, turn, s) == OnReply(w, s, After(log[..k], s.lastEventId) + [altered], Closed)
  {
    hide EventsOf, After, OnReply, Wire;
    FreshAltered(log, k, cut, altered, s.lastEventId);
  }

  lemma GoesOn(text: string, s: State, events: seq<RunEvent>)
    requires Crashes(events) && s.end.None?
    ensures var t := OnReply(Replaying(text), s, events, Closed);
            t.end.None? && t.delivered == s.delivered + Taken(events) && t.lastEventId == Advance(s, Taken(events)).lastEventId
  {
  }

  /** After the turn at state `s` an altered event has been delivered, or a null payload has and the reader goes on. */
  lemma CutTurnAlters(log: seq<RunEvent>, start: int, k: nat, cut: string, altered: RunEvent, turn: nat, s: State)
    requires AllDeliverable(log) && k < |log| && EventsOf(cut, true) == [altered]
    requires altered.id == log[k].id > s.lastEventId && altered != log[k]
    requires Exact(s, log, start) && !Crashes(After(log[..k], s.lastEventId))
    ensures !Exact(Turn(CutWorld(log, k, cut), turn, s), log, start)
  {
    hide EventsOf, After, Turn, CutWorld, Taken, Crashes, OnReply;
    var before := After(log[..k], s.lastEventId);
    var w := CutWorld(log, k, cut);
    CutTurn(log, k, cut, altered, turn, s);
    TakenWithLast(before, altered);
    OnReplyKeeps(w, s, before + [altered], Closed);
    AfterAt(log, k, s.lastEventId);
    NotExact(s, Turn(w, turn, s), log, start, before, altered);
  }

  lemma NotExact(s: State, t: State, log: seq<RunEvent>, start: int, before: seq<RunEvent>, altered: RunEvent)
    requires Exact(s, log, start) && t.delivered == s.delivered + (before + [altered])
    requires |before| < |After(log, s.lastEventId)| && After(log, s.lastEventId)[|before|] != altered
    ensures !Exact(t, log, start)
  {
    var n := |s.delivered| + |before|;
    assert (t.delivered + After(log, t.lastEventId))[n] == altered;
    assert (s.delivered + After(log, s.lastEventId))[n] == After(log, s.lastEventId)[|before|];
  }

  lemma CutTurnGoesOn(log: seq<RunEvent>, start: int, k: nat, cut: string, altered: RunEvent, turn: nat, s: State)
    requires IsLog(log) && k < |log| && EventsOf(cut, true) == [altered]
    requires altered.id == log[k].id > s.lastEventId && s.end.None?
    requires Exact(s, log, start) && Crashes(After(log[..k], s.lastEventId))
    ensures var t := Turn(CutWorld(log, k, cut), turn, s);
            && t.end.None? && Exact(t, log, start) && s.lastEventId < t.lastEventId < log[k].id
  {
    hide EventsOf, After, Turn, Taken, Crashes, OnReply, Wire, Exact;
    var id := s.lastEventId;
    var before := After(log[..k], id);
    CutTurn(log, k, cut, altered, turn, s);
    TakenToNull(before, [altered]);
    GoesOn(Wire(log[..k]) + cut, s, before + [altered]);
    AfterPrefix(log[..k], log, id);
    var taken := Taken(before);
    AdvanceExact(s, log, start, taken);
    LastTaken(log, k, id, taken);
    ExactMeans(Advance(s, taken), Turn(CutWorld(log, k, cut), turn, s), log, start);
  }

  lemma ExactMeans(s: State, t: State, log: seq<RunEvent>, start: int)
    requires Exact(s, log, start) && t.delivered == s.delivered && t.lastEventId == s.lastEventId
    ensures Exact(t, log, start)
  {
  }

  lemma LastTaken(log: seq<RunEvent>, k: nat, id: int, taken: seq<RunEvent>)
    requires IsLog(log) && k < |log| && taken <= After(log[..k], id) && taken != []
    ensures id < taken[|taken| - 1].id < log[k].id
  {
    AfterKeeps(log[..k], id);
    var last := taken[|taken| - 1];
    assert last in After(log[..k], id);
    assert last in log[..k];
  }

  /** From any exact state the cut world delivers an altered event sooner or later. */
  lemma {:induction false} AltersSoonerOrLater(log: seq<RunEvent>, start: int, k: nat, cut: string, altered: RunEvent, n: nat)
    returns (turns: nat)
    requires IsLog(log) && k < |log| && EventsOf(cut, true) == [altered] && altered.id == log[k].id && altered != log[k]
    requires var s := Run(CutWorld(log, k, cut), start, n);
             s.end.None? && Exact(s, log, start) && s.lastEventId < log[k].id
    ensures !Exact(Run(CutWorld(log, k, cut), start, turns), log, start)
    decreases log[k].id - Run(CutWorld(log, k, cut), start, n).lastEventId
  {
    hide EventsOf, Exact, Turn, CutWorld, Crashes, After;
    var w := CutWorld(log, k, cut);
    var s := Run(w, start, n);
    assert Run(w, start, n + 1) == Turn(w, n, s);
    if Crashes(After(log[..k], s.lastEventId)) {
      CutTurnGoesOn(log, start, k, cut, altered, n, s);
      turns := AltersSoonerOrLater(log, start, k, cut, altered, n + 1);
    } else {
      CutTurnAlters(log, start, k, cut, altered, n, s);
      turns := n + 1;
    }
  }

  /** Connections cut at one place that deliver an altered event, for any log with such a payload. */
  lemma CuttableIsAltered(log: seq<RunEvent>, start: int, k: nat) returns (w: World, turns: nat)
    requires IsLog(log) && start >= 0 && k < |log| && log[k].id > start && JsonLaws.Cuttable(log[k].data)
    ensures Serves(w, log) && !Exact(Run(w, start, turns), log, start)
  {
    hide EventsOf, Serves, After, Wire, JsonLaws.Cuttable;
    var cut, altered := AlteringCut(log[k]);
    w := CutWorld(log, k, cut);
    ReplayingServes(log, k, cut);
    assert Run(w, start, 0) == State(start, 0, [], None);
    assert [] + After(log, start) == After(log, start);
    turns := AltersSoonerOrLater(log, start, k, cut, altered, 0);
  }

  /**
   * Delivery is exact in every world that serves the log if and only if no event past the starting
   * id is a bare number of several digits.
   */
  lemma ExactIffUncuttable(log: seq<RunEvent>, start: int)
    requires IsLog(log) && start >= 0
    ensures Uncuttable(After(log, start)) <==>
            forall w: World, turns: nat :: Serves(w, log) ==> Exact(Run(w, start, turns), log, start)
  {
    if Uncuttable(After(log, start)) {
      forall w: World, turns: nat | Serves(w, log) ensures Exact(Run(w, start, turns), log, start) {
        DeliversExactPrefix(w, log, start, turns);
      }
    } else {
      var all := After(log, start);
      var i :| 0 <= i < |all| && JsonLaws.Cuttable(all[i].data);
      AfterKeeps(log, start);
      assert all[i] in log;
      var k :| 0 <= k < |log| && log[k] == all[i];
      var w, turns := CuttableIsAltered(log, start, k);
    }
  }

  // ---------------------------------------------------------------- ending

  lemma DoneTurnIsComplete(w: World, log: seq<RunEvent>, start: int, turn: nat, s: State)
    requires IsLog(log) && Uncuttable(After(log, start)) && Serves(w, log) && start >= 0 && RunDoneOnlyLast(log)
    requires Exact(s, log, start) && s.end.None? && Turn(w, turn, s).end == Some(RunDone)
    ensures Turn(w, turn, s).delivered == After(log, start)
  {
    TurnExact(w, turn, s, log, start);
    EndsOnlyOnRunDone(w, turn, s);
    var reply := w.reply(turn, s.lastEventId);
    UncuttableLater(log, start, s.lastEventId);
    FreshIsPrefix(log, s.lastEventId, reply.chunks, reply.ending);
    LastIdIsGreatest(log, s.lastEventId, Fresh(reply.chunks, reply.ending, s.lastEventId));
    NothingLeft(Turn(w, turn, s), log, start);
  }

  lemma NothingLeft(s: State, log: seq<RunEvent>, start: int)
    requires Exact(s, log, start) && forall i :: 0 <= i < |log| ==> log[i].id <= s.lastEventId
    ensures s.delivered == After(log, start)
  {
    NoneAfter(log, s.lastEventId);
    assert s.delivered + [] == s.delivered;
  }

  lemma EndsOnlyOnRunDone(w: World, turn: nat, s: State)
    requires Turn(w, turn, s).end == Some(RunDone) && s.end.None?
    ensures w.reply(turn, s.lastEventId).Streamed?
    ensures var reply := w.reply(turn, s.lastEventId);
            var events := Fresh(reply.chunks, reply.ending, s.lastEventId);
            SawRunDone(events) && events != [] && Turn(w, turn, s).lastEventId == events[|events| - 1].id
  {
    var reply := w.reply(turn, s.lastEventId);
    ErrorIsNotDone(w, s);
    if reply.Streamed? {
      RepliesDone(w, s, Fresh(reply.chunks, reply.ending, s.lastEventId), reply.ending);
    }
  }

  lemma ErrorIsNotDone(w: World, s: State)
    requires s.end.None?
    ensures forall abort :: OnError(w, s, abort).end != Some(RunDone)
  {
  }

  lemma RepliesDone(w: World, s: State, events: seq<RunEvent>, ending: Ending)
    requires OnReply(w, s, events, ending).end == Some(RunDone) && s.end.None?
    ensures SawRunDone(events) && events != []
    ensures OnReply(w, s, events, ending).lastEventId == events[|events| - 1].id
  {
  }

  lemma LastIdIsGreatest(log: seq<RunEvent>, id: int, events: seq<RunEvent>)
    requires IsLog(log) && events != [] && events <= After(log, id) && SawRunDone(events)
    requires RunDoneOnlyLast(log)
    ensures forall i :: 0 <= i < |log| ==> log[i].id <= events[|events| - 1].id
  {
    hide After, IsRunDone, Deliverable;
    var j :| 0 <= j < |events| && IsRunDone(events[j].data);
    var rest, last := After(log, id), |events| - 1;
    AfterKeeps(log, id);
    AfterIncreasing(log, id);
    assert events[j] == rest[j] && events[last] == rest[last];
    assert rest[j] in rest;
    var k :| 0 <= k < |log| && log[k] == rest[j];
    assert rest[j].id <= rest[last].id;
  }

  /** The default schedule gives up after five reconnects: six turns always suffice. */
  lemma DefaultPolicyTerminates(w: World, start: int)
    requires forall a: nat, id: int, c: Cause :: a > 5 ==> w.policy(a, id, c) == Stop
    ensures Run(w, start, 6).end.Some?
  {
    RunningAttempts(w, start, 6);
  }

  lemma {:induction false} RunningAttempts(w: World, start: int, turns: nat)
    requires forall a: nat, id: int, c: Cause :: a > 5 ==> w.policy(a, id, c) == Stop
    ensures Run(w, start, turns).end.None? ==> turns <= Run(w, start, turns).attempt <= 5
  {
    hide Turn;
    if turns > 0 {
      RunningAttempts(w, start, turns - 1);
      TurnAttempt(w, turns - 1, Run(w, start, turns - 1));
    }
  }

  lemma ReplyAttempt(w: World, s: State, events: seq<RunEvent>, ending: Ending)
    requires s.end.None? && forall a: nat, id: int, c: Cause :: a > 5 ==> w.policy(a, id, c) == Stop
    ensures OnReply(w, s, events, ending).end.None? ==> s.attempt < OnReply(w, s, events, ending).attempt <= 5
  {
  }

  lemma TurnAttempt(w: World, turn: nat, s: State)
    requires forall a: nat, id: int, c: Cause :: a > 5 ==> w.policy(a, id, c) == Stop
    ensures s.end.None? && Turn(w, turn, s).end.None? ==> s.attempt < Turn(w, turn, s).attempt <= 5
  {
    if s.end.None? && w.reply(turn, s.lastEventId).Streamed? {
      var reply := w.reply(turn, s.lastEventId);
      ReplyAttempt(w, s, Fresh(reply.chunks, reply.ending, s.lastEventId), reply.ending);
    }
  }

  // ---------------------------------------------------------------- everything arrives

  /** The text is the whole body the server writes for the log, from the requested id on or from an earlier one. */
  ghost predicate WholeFrom(log: seq<RunEvent>, id: int, text: string)
    requires AllDeliverable(log)
  {
    exists from: int | from <= id :: AllDeliverable(After(log, from)) && text == Wire(After(log, from))
  }

  /** From turn `n` on connections bring whole bodies, the policy goes on past these attempts, and nothing aborts. */
  ghost predicate Healthy(w: World, log: seq<RunEvent>, n: nat, attempts: nat)
    requires AllDeliverable(log)
  {
    && (forall turn | turn >= n :: !w.abortedAtTurn(turn))
    && (forall turn: nat, id: int | turn >= n && id >= 0 ::
          && w.reply(turn, id).Streamed? && w.reply(turn, id).ending == Closed
          && WholeFrom(log, id, Concat(w.reply(turn, id).chunks)))
    && (forall a: nat, id: int, c: Cause | a > attempts :: w.policy(a, id, c) == Retry(false))
    && (forall a | a > attempts :: !w.abortedAfterPolicy(a))
  }

  lemma WholeIsFresh(log: seq<RunEvent>, id: int, chunks: seq<string>)
    requires AllDeliverable(log) && WholeFrom(log, id, Concat(chunks))
    ensures Fresh(chunks, Closed, id) == After(log, id)
  {
    hide EventsOf, After, Wire;
    var from: int :| from <= id && AllDeliverable(After(log, from)) && Concat(chunks) == Wire(After(log, from));
    WholeBody(After(log, from), true);
    AfterAfter(log, from, id);
  }

  lemma {:induction false} TakesSome(events: seq<RunEvent>)
    requires events != []
    ensures Taken(events) != []
  {
  }

  /** One turn on a reply of fresh events where the policy goes on and nothing aborts. */
  lemma GoodReply(w: World, s: State, events: seq<RunEvent>)
    requires s.end.None? && w.policy(s.attempt + 1, Advance(s, Taken(events)).lastEventId, Eof) == Retry(false)
    requires w.policy(s.attempt + 1, Advance(s, Taken(events)).lastEventId, Error) == Retry(false)
    requires !w.abortedAfterPolicy(s.attempt + 1)
    ensures var t := OnReply(w, s, events, Closed);
            && (events == [] ==> t == s.(end := Some(NothingNew)))
            && (events != [] && t.end.None? ==> t == Advance(s, Taken(events)).(attempt := s.attempt + 1))
            && (events != [] && t.end.Some? ==> t.end == Some(RunDone) && Taken(events) == events)
  {
    if events == [] {
      assert s.delivered + [] == s.delivered;
    }
  }

  lemma HealthyTurn(w: World, log: seq<RunEvent>, n: nat, s: State)
    requires AllDeliverable(log) && Healthy(w, log, n, s.attempt) && s.end.None? && s.lastEventId >= 0
    ensures var rest := After(log, s.lastEventId);
            var t := Turn(w, n, s);
            && t.delivered == Advance(s, Taken(rest)).delivered && t.lastEventId == Advance(s, Taken(rest)).lastEventId
            && (rest == [] ==> t == s.(end := Some(NothingNew)))
            && (rest != [] && t.end.None? ==> t.attempt == s.attempt + 1)
            && (rest != [] && t.end.Some? ==> t.end == Some(RunDone) && Taken(rest) == rest)
  {
    hide After, Taken, Fresh, OnReply, Wire, WholeFrom;
    var reply := w.reply(n, s.lastEventId);
    WholeIsFresh(log, s.lastEventId, reply.chunks);
    OnReplyKeeps(w, s, After(log, s.lastEventId), Closed);
    GoodReply(w, s, After(log, s.lastEventId));
  }

  lemma HealthyLater(w: World, log: seq<RunEvent>, n: nat, attempts: nat)
    requires AllDeliverable(log) && Healthy(w, log, n, attempts)
    ensures Healthy(w, log, n + 1, attempts + 1)
  {
    hide WholeFrom;
  }

  lemma ExactTurn(w: World, log: seq<RunEvent>, start: int, n: nat, s: State)
    requires IsLog(log) && Healthy(w, log, n, s.attempt) && s.end.None? && s.lastEventId >= 0 && Exact(s, log, start)
    requires After(log, s.lastEventId) != []
    ensures var t := Turn(w, n, s);
            && Exact(t, log, start) && |After(log, t.lastEventId)| < |After(log, s.lastEventId)|
            && t.lastEventId >= 0 && (t.end.Some? ==> t.delivered == After(log, start))
  {
    hide Turn, Healthy, After, Deliverable;
    var rest := After(log, s.lastEventId);
    var taken := Taken(rest);
    HealthyTurn(w, log, n, s);
    TakesSome(rest);
    AdvanceExact(s, log, start, taken);
    RestAfter(log, s.lastEventId, taken);
    ExactMeans(Advance(s, taken), Turn(w, n, s), log, start);
  }

  /**
   * Whatever happened before turn `n`: if delivery was exact so far and from then on connections bring whole bodies,
   * the policy goes on and nothing aborts, then the iteration ends, everything has been delivered, and it has taken
   * no more than one turn an event and one to see that nothing is left.
   */
  lemma {:induction false} EverythingArrives(w: World, log: seq<RunEvent>, start: int, n: nat) returns (turns: nat)
    requires IsLog(log) && start >= 0
    requires var s := Run(w, start, n); s.end.None? && Exact(s, log, start) && Healthy(w, log, n, s.attempt)
    ensures n < turns <= n + 1 + |After(log, Run(w, start, n).lastEventId)|
    ensures var s := Run(w, start, turns); s.delivered == After(log, start) && s.end in {Some(RunDone), Some(NothingNew)}
    decreases |After(log, Run(w, start, n).lastEventId)|
  {
    hide Turn, After, Healthy, Deliverable;
    var s := Run(w, start, n);
    var t := Turn(w, n, s);
    assert Run(w, start, n + 1) == t;
    HealthyTurn(w, log, n, s);
    turns := n + 1;
    if After(log, s.lastEventId) == [] {
      assert s.delivered + [] == s.delivered;
    } else {
      ExactTurn(w, log, start, n, s);
      if t.end.None? {
        HealthyLater(w, log, n, s.attempt);
        turns := EverythingArrives(w, log, start, n + 1);
      }
    }
  }

  /**
   * Ending because a connection brought nothing new is complete exactly when the body was of the whole log: a body of
   * its first `m` events leaves out what comes behind them.
   */
  lemma NothingNewIsCompleteIff(w: World, log: seq<RunEvent>, start: int, turn: nat, s: State, m: nat, from: int)
    requires IsLog(log) && Exact(s, log, start) && s.end.None? && m <= |log| && from <= s.lastEventId
    requires Turn(w, turn, s).end == Some(NothingNew) && AllDeliverable(After(log[..m], from))
    requires var reply := w.reply(turn, s.lastEventId);
             reply.Streamed? && Concat(reply.chunks) == Wire(After(log[..m], from))
    ensures Turn(w, turn, s).delivered == After(log, start) <==> After(log[m..], s.lastEventId) == []
  {
    hide EventsOf, After, Wire, Crashes, SawRunDone;
    var id := s.lastEventId;
    var reply := w.reply(turn, id);
    WholeBody(After(log[..m], from), reply.ending.Closed?);
    AfterAfter(log[..m], from, id);
    assert log == log[..m] + log[m..];
    AfterAppend(log[..m], log[m..], id);
    EndsOnNothing(w, s, Fresh(reply.chunks, reply.ending, id), reply.ending);
    assert s.delivered + [] == s.delivered;
  }

  lemma EndsOnNothing(w: World, s: State, events: seq<RunEvent>, ending: Ending)
    requires s.end.None? && OnReply(w, s, events, ending).end == Some(NothingNew)
    ensures events == [] && OnReply(w, s, events, ending).delivered == s.delivered
  {
  }

  /** A connection cut before its first event ends the iteration without an error, whatever is still to come. */
  lemma CutAtOnceEnds(log: seq<RunEvent>, start: int)
    requires IsLog(log) && start >= 0 && After(log, start) != []
    ensures Serves(Replaying(""), log)
    ensures var s := Run(Replaying(""), start, 1); s.end == Some(NothingNew) && s.delivered == [] != After(log, start)
  {
    hide EventsOf, Serves, Wire, After, Turn, Deliverable;
    var w := Replaying("");
    AfterKeeps(log, start);
    ReplayingServes(log, 0, "");
    assert Wire(log[..0]) + "" == "" by { WireOfNone(); }
    EmptyTurn(State(start, 0, [], None));
    assert Run(w, start, 1) == Turn(w, 0, Run(w, start, 0));
  }

  lemma WireOfNone()
    ensures Wire([]) == ""
  {
  }

  lemma EmptyTurn(s: State)
    requires s.end.None?
    ensures Turn(Replaying(""), 0, s) == s.(end := Some(NothingNew))
  {
    hide EventsOf;
    ConcatOne("");
    EventsOfNothing(true);
    assert s.delivered + [] == s.delivered;
  }
}
