/** The browser's own reader of the run stream. */
module RunChatStream {
  import opened Text
  import opened Json
  import JsonLaws
  import opened SseFrames
  import opened SseEvents
  import opened SseStream

  /** `seqNo` is None where `parseInt` gives NaN. */
  datatype StreamEvent = StreamEvent(seqNo: Option<int>, payload: Value, done: bool)

  /** CRLF becomes LF, chunk by chunk. */
  function Normalize(s: string): string {
    if |s| < 2 then s
    else if s[0] == '\r' && s[1] == '\n' then "\n" + Normalize(s[2..])
    else [s[0]] + Normalize(s[1..])
  }

  function NormalizeAll(chunks: seq<string>): (r: seq<string>)
    ensures |r| == |chunks| && forall i :: 0 <= i < |chunks| ==> r[i] == Normalize(chunks[i])
  {
    if chunks == [] then [] else [Normalize(chunks[0])] + NormalizeAll(chunks[1..])
  }

  /** `parseInt(text, 10)`. */
  function ParseInt(text: string): Option<int> {
    var s := TrimStart(text);
    var negative := s != "" && s[0] == '-';
    var t := if s != "" && (s[0] == '-' || s[0] == '+') then s[1..] else s;
    var n := DigitRun(t);
    if n == 0 then None
    else
      var v: int := if negative then 0 - DigitsValue(t[..n]) else DigitsValue(t[..n]);
      Some(v)
  }

  predicate HasCrLf(s: string) {
    exists k :: 0 <= k < |s| - 1 && s[k] == '\r' && s[k + 1] == '\n'
  }

  /** Text without a CRLF stays as it is. */
  lemma {:induction false} NormalizeNone(s: string)
    requires !HasCrLf(s)
    ensures Normalize(s) == s
  {
    if |s| >= 2 {
      forall k | 0 <= k < |s[1..]| - 1 ensures !(s[1..][k] == '\r' && s[1..][k + 1] == '\n') {
        assert s[1..][k] == s[k + 1] && s[1..][k + 1] == s[k + 2];
      }
      NormalizeNone(s[1..]);
      assert s == [s[0]] + s[1..];
    }
  }

  lemma NormalizeStep(c: char, s: string)
    requires s != "" && !(c == '\r' && s[0] == '\n')
    ensures Normalize([c] + s) == [c] + Normalize(s)
  {
    assert ([c] + s)[1..] == s;
  }

  /** The first CRLF becomes LF, and so on behind it. */
  lemma {:induction false} NormalizeFirst(front: string, rest: string)
    requires !HasCrLf(front + "\r")
    ensures Normalize(front + "\r\n" + rest) == front + "\n" + Normalize(rest)
  {
    hide Normalize, HasCrLf;
    if front == "" {
      assert "" + "\r\n" + rest == "\r\n" + rest;
      NormalizeCrLf(rest);
    } else {
      var c, t := front[0], front[1..];
      assert front == [c] + t;
      FrontStep(c, t);
      NormalizeFirst(t, rest);
      assert front + "\r\n" + rest == [c] + (t + "\r\n" + rest);
      assert (t + "\r\n" + rest)[0] == (t + "\r")[0];
      NormalizeStep(c, t + "\r\n" + rest);
    }
  }

  lemma NormalizeCrLf(rest: string)
    ensures Normalize("\r\n" + rest) == "\n" + Normalize(rest)
  {
    assert ("\r\n" + rest)[2..] == rest;
  }

  lemma FrontStep(c: char, t: string)
    requires !HasCrLf([c] + t + "\r")
    ensures !HasCrLf(t + "\r") && !(c == '\r' && (t + "\r")[0] == '\n')
  {
    var s, u := [c] + t + "\r", t + "\r";
    assert s == [c] + u;
    forall k | 0 <= k < |u| - 1 ensures !(u[k] == '\r' && u[k + 1] == '\n') {
      assert u[k] == s[k + 1] && u[k + 1] == s[k + 2];
    }
    NoCrLfAt(s, 0);
  }

  lemma NoCrLfAt(s: string, k: nat)
    requires !HasCrLf(s) && k + 1 < |s|
    ensures !(s[k] == '\r' && s[k + 1] == '\n')
  {
  }

  /** White space, perhaps a sign, digits as far as they go, and anything behind them. */
  ghost predicate IsIntText(text: string, space: string, sign: string, digits: string, rest: string) {
    && text == space + sign + digits + rest
    && Blank(space) && sign in {"", "-", "+"} && digits != "" && AllDigits(digits) && (rest != "" ==> !IsDigit(rest[0]))
  }

  lemma {:induction false} TrimStartDrops(s: string)
    ensures Blank(s[..|s| - |TrimStart(s)|])
  {
    if s != "" && IsSpace(s[0]) {
      TrimStartDrops(s[1..]);
      var n := |s| - |TrimStart(s)|;
      assert s[..n] == [s[0]] + s[1..][..n - 1];
    }
  }

  /** `parseInt` gives the number those digits denote, and nothing for any other text. */
  lemma ParseIntReads(text: string, space: string, sign: string, digits: string, rest: string)
    requires IsIntText(text, space, sign, digits, rest)
    ensures ParseInt(text) == Some(if sign == "-" then 0 - DigitsValue(digits) else DigitsValue(digits))
  {
    hide TrimStart, ParseInt, Blank, IsSpace, AllDigits, DigitsValue;
    var t := sign + digits + rest;
    SignFirst(sign, digits, rest);
    Joined(space, sign, digits, rest);
    TrimStartOf(space, t);
    TrimStartVisible(t);
    ParseSigned(text, sign, digits, rest);
  }

  lemma Joined(space: string, sign: string, digits: string, rest: string)
    ensures space + sign + digits + rest == space + (sign + digits + rest)
  {
  }

  lemma ParseSigned(text: string, sign: string, digits: string, rest: string)
    requires TrimStart(text) == sign + digits + rest
    requires sign in {"", "-", "+"} && digits != "" && AllDigits(digits) && (rest != "" ==> !IsDigit(rest[0]))
    ensures ParseInt(text) == Some(if sign == "-" then 0 - DigitsValue(digits) else DigitsValue(digits))
  {
    hide TrimStart, DigitRun, DigitsValue, ParseInt, IsSpace, IsDigit, AllDigits;
    SignFirst(sign, digits, rest);
    DigitRunOf(digits, rest);
    assert (digits + rest)[..|digits|] == digits;
    ParseIntOf(text, sign + digits + rest, digits + rest);
  }

  lemma ParseIntOf(text: string, s: string, t: string)
    requires s == TrimStart(text) && t == if s != "" && (s[0] == '-' || s[0] == '+') then s[1..] else s
    ensures var n := DigitRun(t);
            ParseInt(text) == if n == 0 then None
                              else if s != "" && s[0] == '-' then Some(0 - DigitsValue(t[..n]))
                              else Some(DigitsValue(t[..n]))
  {
    hide TrimStart, DigitRun, DigitsValue;
  }

  lemma SignFirst(sign: string, digits: string, rest: string)
    requires sign in {"", "-", "+"} && digits != "" && AllDigits(digits)
    ensures !IsSpace((sign + digits + rest)[0]) && digits[0] != '-' && digits[0] != '+'
    ensures var t := sign + digits + rest;
            && t[|sign|..] == digits + rest && t[0] == (if sign == "" then digits[0] else sign[0])
            && (sign == "" ==> t == digits + rest) && (sign != "" ==> t[1..] == digits + rest)
  {
    assert digits[0] in digits;
  }

  lemma ParseIntFinds(text: string)
    requires ParseInt(text).Some?
    ensures exists space, sign, digits, rest :: IsIntText(text, space, sign, digits, rest)
  {
    hide TrimStart, DigitRun, DigitsValue, ParseInt, Blank;
    var s := TrimStart(text);
    TrimStartDrops(text);
    var signed := s != "" && (s[0] == '-' || s[0] == '+');
    var t := if signed then s[1..] else s;
    ParseIntOf(text, s, t);
    IntParts(text, s, t, text[..|text| - |s|], if signed then [s[0]] else "");
  }

  lemma IntParts(text: string, s: string, t: string, space: string, sign: string)
    requires text == space + s && s == sign + t && Blank(space) && sign in {"", "-", "+"} && DigitRun(t) > 0
    ensures exists space, sign, digits, rest :: IsIntText(text, space, sign, digits, rest)
  {
    hide DigitRun, Blank;
    var n := DigitRun(t);
    assert t == t[..n] + t[n..];
    assert text == space + sign + t[..n] + t[n..];
    assert IsIntText(text, space, sign, t[..n], t[n..]);
  }

  datatype BlockState = BlockState(seqNo: Option<int>, dataLine: Option<string>)

  const ID_PREFIX := "id: "
  const DATA_PREFIX := "data: "
  const DONE := "[DONE]"

  function TakeBlockLine(st: BlockState, line: string): BlockState {
    if ID_PREFIX <= line then st.(seqNo := ParseInt(line[4..]))
    else if DATA_PREFIX <= line then st.(dataLine := Some(line[6..]))
    else st
  }

  function TakeBlockLines(st: BlockState, lines: seq<string>): BlockState
    decreases |lines|
  {
    if lines == [] then st else TakeBlockLines(TakeBlockLine(st, lines[0]), lines[1..])
  }

  function FinishBlock(st: BlockState): seq<StreamEvent> {
    if st.dataLine.None? then []
    else if st.dataLine.value == DONE then [StreamEvent(st.seqNo, Null, true)]
    else
      match ParseText(st.dataLine.value)
      case None => []
      case Some(v) => [StreamEvent(st.seqNo, v, false)]
  }

  /** The event of a block, or nothing. */
  function BlockEvents(block: string): seq<StreamEvent> {
    FinishBlock(TakeBlockLines(BlockState(Some(0), None), Lines(block)))
  }

  function AllBlockEvents(blocks: seq<string>): seq<StreamEvent> {
    if blocks == [] then [] else BlockEvents(blocks[0]) + AllBlockEvents(blocks[1..])
  }

  lemma {:induction false} AllBlockEventsAppend(a: seq<string>, b: seq<string>)
    ensures AllBlockEvents(a + b) == AllBlockEvents(a) + AllBlockEvents(b)
  {
    if a == [] {
      assert a + b == b;
    } else {
      assert (a + b)[1..] == a[1..] + b;
      AllBlockEventsAppend(a[1..], b);
    }
  }

  /** What stands behind the prefix in the last line that starts with it. */
  ghost predicate LastWith(lines: seq<string>, prefix: string, rest: Option<string>) {
    match rest
    case None => forall i | 0 <= i < |lines| :: !(prefix <= lines[i])
    case Some(text) =>
      exists i :: 0 <= i < |lines| && lines[i] == prefix + text && forall j | i < j < |lines| :: !(prefix <= lines[j])
  }

  lemma LastWithMore(lines: seq<string>, prefix: string, rest: Option<string>, line: string)
    requires LastWith(lines, prefix, rest)
    ensures LastWith(lines + [line], prefix, if prefix <= line then Some(line[|prefix|..]) else rest)
  {
    var more := lines + [line];
    assert forall i :: 0 <= i < |lines| ==> more[i] == lines[i];
    if prefix <= line {
      assert more[|lines|] == prefix + line[|prefix|..];
    } else if rest.Some? {
      var i :| 0 <= i < |lines| && lines[i] == prefix + rest.value && forall j | i < j < |lines| :: !(prefix <= lines[j]);
      assert more[i] == prefix + rest.value;
    }
  }

  lemma {:induction false} TakeBlockLinesMore(st: BlockState, lines: seq<string>, line: string)
    ensures TakeBlockLines(st, lines + [line]) == TakeBlockLine(TakeBlockLines(st, lines), line)
    decreases |lines|
  {
    hide TakeBlockLine;
    if lines == [] {
      assert ([] + [line])[1..] == [];
    } else {
      assert (lines + [line])[1..] == lines[1..] + [line];
      TakeBlockLinesMore(TakeBlockLine(st, lines[0]), lines[1..], line);
    }
  }

  lemma {:induction false} BlockLinesMean(lines: seq<string>) returns (id: Option<string>, data: Option<string>)
    ensures LastWith(lines, "id: ", id) && LastWith(lines, "data: ", data)
    ensures TakeBlockLines(BlockState(Some(0), None), lines) ==
            BlockState(if id.None? then Some(0) else ParseInt(id.value), data)
  {
    hide ParseInt, LastWith;
    if lines == [] {
      id, data := None, None;
      NothingWith();
    } else {
      var n := |lines| - 1;
      id, data := BlockLinesMean(lines[..n]);
      var line := lines[n];
      assert lines == lines[..n] + [line];
      TakeBlockLinesMore(BlockState(Some(0), None), lines[..n], line);
      LastWithMore(lines[..n], "id: ", id, line);
      LastWithMore(lines[..n], "data: ", data, line);
      assert ("id: " <= line ==> line[0] == 'i') && ("data: " <= line ==> line[0] == 'd');
      id := if "id: " <= line then Some(line[4..]) else id;
      data := if "data: " <= line then Some(line[6..]) else data;
    }
  }

  lemma NothingWith()
    ensures LastWith([], "id: ", None) && LastWith([], "data: ", None)
  {
  }

  /** The last id, 0 without one, and what the last data line holds: the end marker, a payload, or nothing of use. */
  ghost predicate BlockMeans(lines: seq<string>, id: Option<string>, data: Option<string>, events: seq<StreamEvent>) {
    && LastWith(lines, "id: ", id) && LastWith(lines, "data: ", data)
    && var seqNo := if id.None? then Some(0) else ParseInt(id.value);
       events ==
         if data.None? then []
         else if data.value == "[DONE]" then [StreamEvent(seqNo, Null, true)]
         else if ParseText(data.value).None? then []
         else [StreamEvent(seqNo, ParseText(data.value).value, false)]
  }

  method ReadBlock(block: string) returns (events: seq<StreamEvent>)
    ensures events == BlockEvents(block)
    ensures exists id, data :: BlockMeans(Lines(block), id, data, events)
  {
    ghost var id, data := BlockLinesMean(Lines(block));
    var st := BlockState(Some(0), None);
    var lines := Lines(block);
    for i := 0 to |lines|
      invariant TakeBlockLines(st, lines[i..]) == TakeBlockLines(BlockState(Some(0), None), lines)
    {
      assert lines[i..][0] == lines[i] && lines[i..][1..] == lines[i + 1..];
      if ID_PREFIX <= lines[i] {
        st := st.(seqNo := ParseInt(lines[i][4..]));
      } else if DATA_PREFIX <= lines[i] {
        st := st.(dataLine := Some(lines[i][6..]));
      }
    }
    events := FinishBlock(st);
    assert BlockMeans(lines, id, data, events);
  }

  method ReadBlocks(blocks: seq<string>) returns (events: seq<StreamEvent>)
    ensures events == AllBlockEvents(blocks)
  {
    events := [];
    for i := 0 to |blocks|
      invariant events == AllBlockEvents(blocks[..i])
    {
      assert blocks[..i + 1] == blocks[..i] + [blocks[i]];
      AllBlockEventsAppend(blocks[..i], [blocks[i]]);
      assert [blocks[i]][1..] == [];
      var more := ReadBlock(blocks[i]);
      events := events + more;
    }
    assert blocks[..|blocks|] == blocks;
  }

  lemma {:induction false} NormalizeAllSnoc(chunks: seq<string>, last: string)
    ensures NormalizeAll(chunks + [last]) == NormalizeAll(chunks) + [Normalize(last)]
  {
    if chunks == [] {
      assert chunks + [last] == [last] && [last][1..] == [];
    } else {
      assert (chunks + [last])[1..] == chunks[1..] + [last];
      NormalizeAllSnoc(chunks[1..], last);
    }
  }

  /** Incremental reading: after each chunk the complete blocks are read and the rest is kept. */
  method ReadRunSseStream(chunks: seq<string>) returns (events: seq<StreamEvent>)
    ensures events == AllBlockEvents(Seen(Concat(NormalizeAll(chunks))))
    ensures forall texts: seq<string> |
              |texts| == |chunks| && (forall i | 0 <= i < |chunks| :: texts[i] == Normalize(chunks[i])) ::
              events == AllBlockEvents(Seen(Concat(texts)))
  {
    var buffer := "";
    events := [];
    for n := 0 to |chunks|
      invariant buffer == Left(Concat(NormalizeAll(chunks[..n])))
      invariant events == AllBlockEvents(Seen(Concat(NormalizeAll(chunks[..n]))))
    {
      ghost var read := NormalizeAll(chunks[..n]);
      var chunk := Normalize(chunks[n]);
      assert chunks[..n + 1] == chunks[..n] + [chunks[n]];
      NormalizeAllSnoc(chunks[..n], chunks[n]);
      ConcatSnoc(read, chunk);
      SeenResumes(Concat(read), chunk);
      var blocks;
      blocks, buffer := DrainBuffer(buffer + chunk);
      AllBlockEventsAppend(Seen(Concat(read)), blocks);
      var more := ReadBlocks(blocks);
      events := events + more;
    }
    assert chunks[..|chunks|] == chunks;
    forall texts: seq<string> | |texts| == |chunks| && forall i | 0 <= i < |chunks| :: texts[i] == Normalize(chunks[i])
      ensures texts == NormalizeAll(chunks)
    {
    }
  }

  // ---------------------------------------------------------------- agreement with the SDK reader

  predicate LfOnly(chunks: seq<string>) {
    forall i :: 0 <= i < |chunks| ==> '\r' !in chunks[i]
  }

  lemma {:induction false} NormalizeLf(s: string)
    requires '\r' !in s
    ensures Normalize(s) == s
  {
    if |s| >= 2 {
      assert s[0] in s;
      NormalizeLf(s[1..]);
    }
  }

  lemma {:induction false} NormalizeAllLf(chunks: seq<string>)
    requires LfOnly(chunks)
    ensures NormalizeAll(chunks) == chunks
  {
    if chunks != [] {
      NormalizeLf(chunks[0]);
      NormalizeAllLf(chunks[1..]);
    }
  }

  lemma ParseIntOfDecimal(n: nat)
    ensures ParseInt(Decimal(n)) == Some(n)
  {
    hide Decimal, DigitRun, DigitsValue;
    var s := Decimal(n);
    assert s[0] in s;
    DigitRunOf(s, "");
    assert s + "" == s && s[..|s|] == s;
    DecimalValue(n);
  }

  /** No value prints as the literal end marker. */
  lemma PrintIsNotDone(v: Value)
    requires Valid(v)
    ensures Print(v) != DONE
  {
    if Print(v) == DONE {
      JsonLaws.RoundTrip(v);
      DoneDoesNotParse();
    }
  }

  lemma DoneDoesNotParse()
    ensures ParseText(DONE) == None
  {
    var s := "DONE]";
    assert DONE[1..] == s;
    assert ParseValue(s) == None;
    assert ParseElement(s) == None;
    assert ParseItems(s) == None;
  }

  lemma TakeBlockId(st: BlockState, e: RunEvent)
    requires e.id > 0
    ensures TakeBlockLine(st, IdLine(e)) == st.(seqNo := Some(e.id))
  {
    assert IdLine(e)[4..] == Decimal(e.id);
    assert IdLine(e)[..4] == ID_PREFIX;
    ParseIntOfDecimal(e.id);
  }

  lemma TakeBlockData(st: BlockState, e: RunEvent)
    ensures TakeBlockLine(st, DataLine(e)) == st.(dataLine := Some(Print(e.data)))
  {
    var line := DataLine(e);
    assert line[6..] == Print(e.data) && line[..6] == DATA_PREFIX;
    assert line[0] == 'd';
  }

  /** The browser reads a server frame as the event the server wrote. */
  lemma BlockOfServerFrame(e: RunEvent)
    requires Deliverable(e)
    ensures BlockEvents(ServerFrame(e)) == [StreamEvent(Some(e.id), e.data, false)]
  {
    hide Print, IdLine, DataLine, TakeBlockLine, TakeBlockLines, Lines, FinishBlock;
    NoNewline(e);
    TwoLines(IdLine(e), DataLine(e));
    var st := BlockState(Some(0), None);
    TakeBlockId(st, e);
    TakeBlockData(st.(seqNo := Some(e.id)), e);
    TakeBlockTwo(st, IdLine(e), DataLine(e));
    FinishServerBlock(e);
  }

  lemma FinishServerBlock(e: RunEvent)
    requires Deliverable(e)
    ensures FinishBlock(BlockState(Some(e.id), Some(Print(e.data)))) == [StreamEvent(Some(e.id), e.data, false)]
  {
    hide Print, ParseText;
    PrintIsNotDone(e.data);
    JsonLaws.RoundTrip(e.data);
  }

  lemma TakeBlockTwo(st: BlockState, a: string, b: string)
    ensures TakeBlockLines(st, [a, b]) == TakeBlockLine(TakeBlockLine(st, a), b)
  {
    hide TakeBlockLine;
    assert [a, b][1..] == [b] && [b][1..] == [];
    assert TakeBlockLines(TakeBlockLine(st, a), [b]) == TakeBlockLine(TakeBlockLine(st, a), b);
  }

  function AsStreamEvents(events: seq<RunEvent>): seq<StreamEvent> {
    seq(|events|, i requires 0 <= i < |events| => StreamEvent(Some(events[i].id), events[i].data, false))
  }

  lemma BlocksMore(e: RunEvent, tail: string)
    requires Deliverable(e)
    ensures AllBlockEvents(Seen(ServerFrame(e) + BREAK + tail)) ==
            [StreamEvent(Some(e.id), e.data, false)] + AllBlockEvents(Seen(tail))
  {
    SseStream.FrameUnbroken(e);
    SeenFrame(ServerFrame(e), tail);
    BlockOfServerFrame(e);
    AllBlocksMore(ServerFrame(e), Seen(tail), StreamEvent(Some(e.id), e.data, false));
  }

  lemma AllBlocksMore(block: string, blocks: seq<string>, e: StreamEvent)
    requires BlockEvents(block) == [e]
    ensures AllBlockEvents([block] + blocks) == [e] + AllBlockEvents(blocks)
  {
    assert ([block] + blocks)[1..] == blocks;
  }

  lemma {:induction false} BlocksOfWire(events: seq<RunEvent>)
    requires AllDeliverable(events)
    ensures AllBlockEvents(Seen(Wire(events))) == AsStreamEvents(events)
  {
    if events == [] {
      SeenNothing();
    } else {
      BlocksMore(events[0], Wire(events[1..]));
      BlocksOfWire(events[1..]);
      AsStreamMore(events);
    }
  }

  lemma SeenNothing()
    ensures Seen("") == []
  {
    NoBreak("");
    assert SplitFrames("") == Split([], "");
  }

  lemma AsStreamMore(events: seq<RunEvent>)
    requires events != []
    ensures AsStreamEvents(events)
         == [StreamEvent(Some(events[0].id), events[0].data, false)] + AsStreamEvents(events[1..])
  {
  }

  /**
   * On a complete body of server frames, however chunked, both readers see exactly the events the
   * server wrote: the browser the same ids and payloads as the SDK.
   */
  lemma ReadersAgree(chunks: seq<string>, events: seq<RunEvent>)
    requires LfOnly(chunks) && AllDeliverable(events) && Concat(chunks) == Wire(events)
    ensures EventsOf(Concat(chunks), true) == events
    ensures AllBlockEvents(Seen(Concat(NormalizeAll(chunks)))) == AsStreamEvents(EventsOf(Concat(chunks), true))
  {
    NormalizeAllLf(chunks);
    WholeBody(events, true);
    BlocksOfWire(events);
  }

  lemma SeenUnbroken(text: string)
    requires SseFrames.Unbroken(text)
    ensures Seen(text) == []
  {
    NoBreak(text);
    assert SplitFrames(text) == Split([], text);
  }

  /** A body cut at any character gives an initial part of the events, whatever the payloads: no event is altered. */
  lemma {:induction false} BlocksOfCutWire(events: seq<RunEvent>, text: string)
    requires AllDeliverable(events) && text <= Wire(events)
    ensures AllBlockEvents(Seen(text)) <= AsStreamEvents(events)
  {
    hide ServerFrame, BlockEvents, Seen;
    if events == [] {
      SeenNothing();
    } else if FirstLength(events) <= |text| {
      var tail := text[FirstLength(events)..];
      CutTail(events, text);
      BlocksMore(events[0], tail);
      BlocksOfCutWire(events[1..], tail);
      AsStreamMore(events);
    } else {
      CutHead(events, text);
      SseStream.FrameUnbroken(events[0]);
      UnbrokenPrefix(ServerFrame(events[0]) + "\n", text);
      SeenUnbroken(text);
    }
  }

  /** The same for the reader, however the cut body is chunked. */
  lemma CutBodyIsPrefix(chunks: seq<string>, events: seq<RunEvent>)
    requires LfOnly(chunks) && AllDeliverable(events) && Concat(chunks) <= Wire(events)
    ensures AllBlockEvents(Seen(Concat(NormalizeAll(chunks)))) <= AsStreamEvents(events)
  {
    NormalizeAllLf(chunks);
    BlocksOfCutWire(events, Concat(chunks));
  }
}
