/** One connection of the event stream: the log on the wire, and the events a reader makes of its body. */
module SseStream {
  import opened Text
  import opened Json
  import opened JsonLaws
  import opened SseFrames
  import opened SseEvents

  // ---------------------------------------------------------------- log and wire

  /** Ids grow along the log and start above 0; payloads are values the printer accepts. */
  predicate IsLog(log: seq<RunEvent>) {
    && (forall i :: 0 <= i < |log| ==> Deliverable(log[i]))
    && (forall i, j :: 0 <= i < j < |log| ==> log[i].id < log[j].id)
  }

  /** The events after a given id: the store's answer to the server, and the reader's own filter. */
  function After(log: seq<RunEvent>, id: int): seq<RunEvent> {
    if log == [] then []
    else (if log[0].id > id then [log[0]] else []) + After(log[1..], id)
  }

  /** The body the events route writes for these events. */
  function Wire(events: seq<RunEvent>): string
    requires forall i :: 0 <= i < |events| ==> events[i].id > 0
  {
    if events == [] then "" else ServerFrame(events[0]) + BREAK + Wire(events[1..])
  }

  // ---------------------------------------------------------------- one connection

  function ParseAll(frames: seq<string>): seq<RunEvent> {
    Collect(ParseFrame, frames)
  }

  /** The events a reader makes of a body. */
  function EventsOf(body: string, ended: bool): seq<RunEvent> {
    ParseAll(FramesOf(body, ended))
  }

  lemma {:induction false} AfterAppend(a: seq<RunEvent>, b: seq<RunEvent>, id: int)
    ensures After(a + b, id) == After(a, id) + After(b, id)
  {
    if a == [] {
      assert a + b == b;
    } else {
      assert (a + b)[1..] == a[1..] + b;
      AfterAppend(a[1..], b, id);
    }
  }

  lemma AfterUpTo(read: string -> Option<RunEvent>, frames: seq<string>, i: nat, id: int, ev: Option<RunEvent>)
    requires i < |frames| && read(frames[i]) == ev
    ensures After(Collect(read, frames[..i + 1]), id)
         == After(Collect(read, frames[..i]), id) + if ev.Some? && ev.value.id > id then [ev.value] else []
  {
    CollectUpTo(read, frames, i);
    AfterAppend(Collect(read, frames[..i]), Listed(ev), id);
    if ev.Some? {
      assert [ev.value][1..] == [];
    }
  }

  method ReadSingleConnection(chunks: seq<string>, ended: bool, lastEventId: int) returns (events: seq<RunEvent>)
    ensures events == After(EventsOf(Concat(chunks), ended), lastEventId)
  {
    var frames := IterateSseFrames(chunks, ended);
    events := [];
    for i := 0 to |frames|
      invariant events == After(ParseAll(frames[..i]), lastEventId)
    {
      var ev := ParseSseFrame(frames[i]);
      AfterUpTo(ParseFrame, frames, i, lastEventId, ev);
      if ev.None? {
        continue;
      }
      if ev.value.id <= lastEventId {
        continue;
      }
      events := events + [ev.value];
    }
    assert frames[..|frames|] == frames;
  }

  lemma FrameUnbroken(e: RunEvent)
    requires Deliverable(e)
    ensures Unbroken(ServerFrame(e) + "\n")
  {
    NoNewline(e);
    var s := ServerFrame(e) + "\n";
    var n := |IdLine(e)|;
    assert s == IdLine(e) + "\n" + DataLine(e) + "\n";
    forall k | 0 <= k && k + 1 < |s| ensures !IsBreak(s, k) {
      if k < n {
        assert s[k] == IdLine(e)[k] && IdLine(e)[k] in IdLine(e);
      } else if k == n {
        assert s[k + 1] == DataLine(e)[0] && DataLine(e)[0] in DataLine(e);
      } else {
        assert s[k] == DataLine(e)[k - n - 1] && DataLine(e)[k - n - 1] in DataLine(e);
      }
    }
  }

  lemma ParseAllMore(frame: string, frames: seq<string>, e: RunEvent)
    requires ParseFrame(frame) == Some(e)
    ensures ParseAll([frame] + frames) == [e] + ParseAll(frames)
  {
    CollectMore(ParseFrame, frame, frames);
  }

  lemma ParseAllOne(frame: string)
    ensures ParseAll([frame]) == match ParseFrame(frame) case None => [] case Some(e) => [e]
  {
    CollectMore(ParseFrame, frame, []);
    assert [frame] == [frame] + [];
  }

  /** A body that starts with a whole frame yields that frame's event first. */
  lemma EventsMore(e: RunEvent, tail: string, ended: bool)
    requires Deliverable(e)
    ensures EventsOf(ServerFrame(e) + BREAK + tail, ended) == [e] + EventsOf(tail, ended)
  {
    FrameUnbroken(e);
    FramesMore(ServerFrame(e), tail, ended);
    ParseServerFrame(e);
    ParseAllMore(ServerFrame(e), FramesOf(tail, ended), e);
  }

  lemma ParseCut(e: RunEvent, text: string)
    requires Deliverable(e) && text <= ServerFrame(e) + "\n"
    ensures ParseFrame(text).Some? ==> ParseFrame(text).value.id == e.id
    ensures !Cuttable(e.data) ==> ParseFrame(text) == None || ParseFrame(text) == Some(e)
  {
    if |text| == |ServerFrame(e)| + 1 {
      assert text == ServerFrame(e) + "\n";
      ParseServerFrame(e);
    } else {
      assert text <= ServerFrame(e);
      CutFrame(e, text);
    }
  }

  lemma UnbrokenPrefix(s: string, t: string)
    requires t <= s && Unbroken(s)
    ensures Unbroken(t)
  {
    forall k ensures !IsBreak(t, k) {
      assert IsBreak(t, k) ==> IsBreak(s, k);
    }
  }

  /** A body cut inside its first frame yields nothing, or one event under that frame's id. */
  lemma EventsOfCutFrame(e: RunEvent, text: string, ended: bool)
    requires Deliverable(e) && text <= ServerFrame(e) + "\n"
    ensures |EventsOf(text, ended)| <= 1
    ensures EventsOf(text, ended) != [] ==> EventsOf(text, ended)[0].id == e.id
    ensures !Cuttable(e.data) ==> EventsOf(text, ended) == [] || EventsOf(text, ended) == [e]
    ensures Trim(text) != "" && ended ==>
              EventsOf(text, ended) == match ParseFrame(text) case None => [] case Some(v) => [v]
  {
    FrameUnbroken(e);
    UnbrokenPrefix(ServerFrame(e) + "\n", text);
    FramesOfUnbroken(text, ended);
    ParseCut(e, text);
    ParseAllOne(text);
  }

  predicate Uncuttable(log: seq<RunEvent>) {
    forall i :: 0 <= i < |log| ==> !Cuttable(log[i].data)
  }

  predicate AllDeliverable(log: seq<RunEvent>) {
    forall i :: 0 <= i < |log| ==> Deliverable(log[i])
  }

  lemma EventsOfNothing(ended: bool)
    ensures EventsOf("", ended) == []
  {
    FramesOfUnbroken("", ended);
  }

  /** Length of the first event's text on the wire. */
  function FirstLength(events: seq<RunEvent>): (n: nat)
    requires events != [] && events[0].id > 0
    ensures n > 0
  {
    |ServerFrame(events[0])| + 2
  }

  /**
   * Of a body cut at any character the reader keeps exactly an initial part of the events past
   * `id`, provided none of those is a bare number of several digits.
   */
  lemma {:induction false} CutBody(events: seq<RunEvent>, text: string, ended: bool, id: int)
    requires AllDeliverable(events) && Uncuttable(After(events, id)) && text <= Wire(events)
    ensures After(EventsOf(text, ended), id) <= After(events, id)
  {
    hide EventsOf, ServerFrame;
    if events == [] {
      EventsOfNothing(ended);
    } else if FirstLength(events) <= |text| {
      var tail := EventsOf(text[FirstLength(events)..], ended);
      EventsTail(events, text, ended);
      UncuttableTail(events, id);
      CutBody(events[1..], text[FirstLength(events)..], ended, id);
      AfterMore(events[0], tail, id);
      AfterMore(events[0], events[1..], id);
      assert [events[0]] + events[1..] == events;
    } else {
      EventsHead(events, text, ended, id);
    }
  }

  lemma AfterMore(e: RunEvent, rest: seq<RunEvent>, id: int)
    ensures After([e] + rest, id) == (if e.id > id then [e] else []) + After(rest, id)
  {
    assert ([e] + rest)[1..] == rest;
  }

  lemma UncuttableTail(events: seq<RunEvent>, id: int)
    requires events != [] && Uncuttable(After(events, id))
    ensures Uncuttable(After(events[1..], id))
    ensures events[0].id > id ==> !Cuttable(events[0].data)
  {
    var all, rest := After(events, id), After(events[1..], id);
    assert forall i :: 0 <= i < |rest| ==> rest[i] == all[i + |all| - |rest|];
    assert events[0].id > id ==> all[0] == events[0];
  }

  lemma EventsTail(events: seq<RunEvent>, text: string, ended: bool)
    requires events != [] && AllDeliverable(events) && text <= Wire(events) && FirstLength(events) <= |text|
    ensures EventsOf(text, ended) == [events[0]] + EventsOf(text[FirstLength(events)..], ended)
    ensures text[FirstLength(events)..] <= Wire(events[1..])
  {
    CutTail(events, text);
    EventsMore(events[0], text[FirstLength(events)..], ended);
  }

  lemma EventsHead(events: seq<RunEvent>, text: string, ended: bool, id: int)
    requires events != [] && AllDeliverable(events) && Uncuttable(After(events, id))
    requires text <= Wire(events) && |text| < FirstLength(events)
    ensures After(EventsOf(text, ended), id) <= After(events, id)
  {
    hide EventsOf, ServerFrame;
    CutHead(events, text);
    EventsOfCutFrame(events[0], text, ended);
    UncuttableTail(events, id);
    var got := EventsOf(text, ended);
    if got != [] {
      assert got == [got[0]] + [];
      AfterMore(got[0], [], id);
    }
  }

  lemma CutTail(events: seq<RunEvent>, text: string)
    requires events != [] && AllDeliverable(events) && text <= Wire(events)
    requires |ServerFrame(events[0])| + 2 <= |text|
    ensures var tail := text[|ServerFrame(events[0])| + 2..];
            text == ServerFrame(events[0]) + BREAK + tail && tail <= Wire(events[1..])
  {
    var frame := ServerFrame(events[0]) + BREAK;
    assert text[..|frame|] == Wire(events)[..|frame|] == frame;
    assert Wire(events)[|frame|..] == Wire(events[1..]);
  }

  lemma CutHead(events: seq<RunEvent>, text: string)
    requires events != [] && AllDeliverable(events) && text <= Wire(events)
    requires |text| < |ServerFrame(events[0])| + 2
    ensures text <= ServerFrame(events[0]) + "\n"
  {
    var frame := ServerFrame(events[0]) + "\n";
    assert Wire(events)[..|frame|] == frame;
  }

  /** An uncut body yields all its events. */
  lemma {:induction false} WholeBody(events: seq<RunEvent>, ended: bool)
    requires AllDeliverable(events)
    ensures EventsOf(Wire(events), ended) == events
  {
    if events == [] {
      EventsOfNothing(ended);
    } else {
      EventsMore(events[0], Wire(events[1..]), ended);
      WholeBody(events[1..], ended);
    }
  }
}
