/** One frame of the event stream: the server's text for it and the reader's parser. */
module SseEvents {
  import opened Text
  import opened Json
  import opened JsonLaws
  import opened Numbers
  import opened SseFrames

  datatype RunEvent = RunEvent(id: int, data: Value)

  // ---------------------------------------------------------------- parsing a frame

  datatype FrameState = FrameState(id: Option<int>, data: seq<string>, rejected: bool)

  const FRESH := FrameState(None, [], false)

  /** What follows the colon, less one leading space. */
  function FieldValue(line: string, colon: nat): string
    requires colon < |line|
  {
    var v := line[colon + 1..];
    if v != "" && v[0] == ' ' then v[1..] else v
  }

  function TakeField(st: FrameState, field: string, value: string): FrameState {
    if field == "id" then
      match PositiveInteger(value)
      case None => st.(rejected := true)
      case Some(n) => st.(id := Some(n))
    else if field == "data" then st.(data := st.data + [value])
    else st
  }

  function TakeLine(st: FrameState, raw: string): FrameState {
    var line := TrimEnd(raw);
    var colon := IndexOf(line, ':');
    if st.rejected || line == "" || colon == 0 || colon == |line| then st
    else TakeField(st, line[..colon], FieldValue(line, colon))
  }

  function TakeLines(st: FrameState, lines: seq<string>): FrameState
    decreases |lines|
  {
    if lines == [] then st else TakeLines(TakeLine(st, lines[0]), lines[1..])
  }

  function Finish(st: FrameState): Option<RunEvent> {
    if st.rejected || st.id.None? || st.data == [] then None
    else
      var data :- ParseText(JoinLines(st.data));
      Some(RunEvent(st.id.value, data))
  }

  function ParseFrame(text: string): Option<RunEvent> {
    Finish(TakeLines(FRESH, Lines(text)))
  }

  lemma {:induction false} RejectedStays(st: FrameState, lines: seq<string>)
    requires st.rejected
    ensures TakeLines(st, lines) == st
  {
    if lines != [] {
      RejectedStays(st, lines[1..]);
    }
  }

  method ParseSseFrame(text: string) returns (r: Option<RunEvent>)
    ensures r == ParseFrame(text)
  {
    var id: Option<int> := None;
    var dataLines: seq<string> := [];
    var lines := Lines(text);
    for i := 0 to |lines|
      invariant TakeLines(FrameState(id, dataLines, false), lines[i..]) == TakeLines(FRESH, lines)
    {
      ghost var st := FrameState(id, dataLines, false);
      assert lines[i..][0] == lines[i] && lines[i..][1..] == lines[i + 1..];
      var line := TrimEnd(lines[i]);
      if line == "" || line[0] == ':' {
        continue;
      }
      var colon := IndexOf(line, ':');
      if colon == |line| {
        continue;
      }
      var field, value := line[..colon], FieldValue(line, colon);
      if field == "id" {
        var n := PositiveInteger(value);
        if n.None? {
          RejectedStays(TakeLine(st, lines[i]), lines[i + 1..]);
          return None;
        }
        id := n;
      } else if field == "data" {
        dataLines := dataLines + [value];
      }
    }
    if id.None? || |dataLines| == 0 {
      return None;
    }
    var data := ParseText(JoinLines(dataLines));
    if data.None? {
      return None;
    }
    return Some(RunEvent(id.value, data.value));
  }

  // ---------------------------------------------------------------- the server's frame, whole and cut

  /** `id: <seq>` newline `data: <json>`, as the events route writes it; a break follows. */
  function ServerFrame(e: RunEvent): string
    requires e.id > 0
  {
    IdLine(e) + "\n" + DataLine(e)
  }

  function IdLine(e: RunEvent): string
    requires e.id > 0
  {
    "id: " + Decimal(e.id)
  }

  function DataLine(e: RunEvent): string {
    "data: " + Print(e.data)
  }

  predicate Deliverable(e: RunEvent) {
    e.id > 0 && Valid(e.data)
  }

  /** A line `name: value` with a value that ends visibly hands that name and value on. */
  lemma TakeNamedLine(st: FrameState, name: string, value: string)
    requires !st.rejected && name != "" && ':' !in name && value != "" && !IsSpace(value[|value| - 1])
    ensures TakeLine(st, name + ": " + value) == TakeField(st, name, value)
  {
    var line := name + ": " + value;
    TrimEndVisible(line);
    IndexOfAt(line, ':', |name|);
    assert line[..|name|] == name && line[|name| + 1..] == " " + value && (" " + value)[1..] == value;
  }

  lemma TakeIdField(st: FrameState, text: string, n: int)
    requires PositiveInteger(text) == Some(n)
    ensures TakeField(st, "id", text) == st.(id := Some(n))
  {
  }

  lemma TakeIdText(st: FrameState, text: string, n: int)
    requires !st.rejected && text != "" && !IsSpace(text[|text| - 1]) && PositiveInteger(text) == Some(n)
    ensures TakeLine(st, "id: " + text) == st.(id := Some(n))
  {
    hide TakeLine, PositiveInteger;
    TakeNamedLine(st, "id", text);
    assert "id" + ": " + text == "id: " + text;
    TakeIdField(st, text, n);
  }

  /** The event id survives the trip through text. */
  lemma TakeIdLine(st: FrameState, e: RunEvent)
    requires e.id > 0 && !st.rejected
    ensures TakeLine(st, IdLine(e)) == st.(id := Some(e.id))
  {
    DecimalEnds(e.id);
    NumberOfDecimal(e.id);
    TakeIdText(st, Decimal(e.id), e.id);
  }

  lemma TakeDataLine(st: FrameState, value: string)
    requires !st.rejected && value != "" && !IsSpace(value[|value| - 1])
    ensures TakeLine(st, "data: " + value) == st.(data := st.data + [value])
  {
    TakeNamedLine(st, "data", value);
    assert "data" + ": " + value == "data: " + value;
  }

  /** Whatever is cut off a data line, what remains contributes nothing or a cut of its value. */
  lemma TakeCutDataLine(st: FrameState, value: string, line: string) returns (cut: Option<string>)
    requires !st.rejected && line <= "data: " + value
    ensures cut.None? ==> TakeLine(st, line) == st
    ensures cut.Some? ==> cut.value <= value && TakeLine(st, line) == st.(data := st.data + [cut.value])
  {
    hide TrimEnd, IndexOf;
    var t := TrimEnd(line);
    assert t <= "data: " + value;
    ColonOfDataLine(value, t);
    cut := if |t| <= 4 then None else if |t| == 5 then Some("") else Some(value[..|t| - 6]);
    if |t| > 4 {
      ValueOfDataLine(value, t);
    }
  }

  lemma ColonOfDataLine(value: string, t: string)
    requires t <= "data: " + value
    ensures IndexOf(t, ':') == if |t| <= 4 then |t| else 4
  {
    hide IndexOf;
    assert "data: " + value == "data" + (": " + value);
    IndexOfAt(t, ':', if |t| <= 4 then |t| else 4);
  }

  lemma ValueOfDataLine(value: string, t: string)
    requires t <= "data: " + value && |t| > 4
    ensures t[..4] == "data" && FieldValue(t, 4) == if |t| == 5 then "" else value[..|t| - 6]
  {
    var whole := "data: " + value;
    assert whole[..4] == "data" && t[..4] == whole[..4];
    if |t| > 5 {
      var q := value[..|t| - 6];
      assert t[5..] == whole[5..|t|] == " " + q;
      assert (" " + q)[1..] == q;
    } else {
      assert t[5..] == "";
    }
  }

  /** Whatever is cut off an id line, no data comes of it. */
  lemma TakeCutIdLine(e: RunEvent, line: string)
    requires e.id > 0 && line <= IdLine(e)
    ensures TakeLine(FRESH, line).data == []
  {
    var t := TrimEnd(line);
    var colon := IndexOf(t, ':');
    if |t| > 2 {
      IndexOfAt(t, ':', 2);
      assert t[..2] == IdLine(e)[..2] == "id";
    } else {
      IndexOfAt(t, ':', |t|);
    }
  }

  lemma NoNewline(e: RunEvent)
    requires Deliverable(e)
    ensures NEWLINE !in IdLine(e) && NEWLINE !in DataLine(e)
  {
    var d := Decimal(e.id);
    assert NEWLINE !in d;
    PrintPrintable(e.data);
  }

  function WithId(e: RunEvent): FrameState {
    FrameState(Some(e.id), [], false)
  }

  function WithData(e: RunEvent, value: string): FrameState {
    FrameState(Some(e.id), [value], false)
  }

  lemma TwoLines(a: string, b: string)
    requires NEWLINE !in a && NEWLINE !in b
    ensures Lines(a + "\n" + b) == [a, b]
  {
    LinesMore(a, b);
    LinesOne(b);
    assert [a] + [b] == [a, b];
  }

  lemma TwoLinesEnded(a: string, b: string)
    requires NEWLINE !in a && NEWLINE !in b
    ensures Lines(a + "\n" + b + "\n") == [a, b, ""]
  {
    hide Lines;
    var rest := b + "\n";
    TwoLines(b, "");
    assert rest + "" == rest;
    LinesMore(a, rest);
    assert a + "\n" + rest == a + "\n" + b + "\n";
    assert [a] + [b, ""] == [a, b, ""];
  }

  lemma TakeMore(st: FrameState, line: string, lines: seq<string>)
    ensures TakeLines(st, [line] + lines) == TakeLines(TakeLine(st, line), lines)
  {
    assert ([line] + lines)[1..] == lines;
  }

  lemma TakeTwo(st: FrameState, a: string, b: string)
    ensures TakeLines(st, [a, b]) == TakeLine(TakeLine(st, a), b)
    ensures TakeLines(st, [a, b, ""]) == TakeLine(TakeLine(st, a), b)
  {
    assert [a] + [b] == [a, b] && [a] + [b, ""] == [a, b, ""] && [b] + [""] == [b, ""];
    assert [b] + [] == [b] && [""] + [] == [""];
    TakeMore(st, a, [b]);
    TakeMore(st, a, [b, ""]);
    TakeMore(TakeLine(st, a), b, []);
    TakeMore(TakeLine(st, a), b, [""]);
    TakeMore(TakeLine(TakeLine(st, a), b), "", []);
    TakeBlank(TakeLine(TakeLine(st, a), b));
  }

  lemma TakeBlank(st: FrameState)
    ensures TakeLine(st, "") == st
  {
  }

  lemma ParseOfLines(text: string, lines: seq<string>, st: FrameState)
    requires Lines(text) == lines && TakeLines(FRESH, lines) == st
    ensures ParseFrame(text) == Finish(st)
  {
  }

  lemma ParseTwoLines(a: string, b: string)
    requires NEWLINE !in a && NEWLINE !in b
    ensures ParseFrame(a + "\n" + b) == Finish(TakeLine(TakeLine(FRESH, a), b))
    ensures ParseFrame(a + "\n" + b + "\n") == Finish(TakeLine(TakeLine(FRESH, a), b))
  {
    var st := TakeLine(TakeLine(FRESH, a), b);
    TwoLines(a, b);
    TwoLinesEnded(a, b);
    TakeTwo(FRESH, a, b);
    ParseOfLines(a + "\n" + b, [a, b], st);
    ParseOfLines(a + "\n" + b + "\n", [a, b, ""], st);
  }

  lemma ParseOneLine(a: string)
    requires NEWLINE !in a
    ensures ParseFrame(a) == Finish(TakeLine(FRESH, a))
  {
    LinesOne(a);
    assert [a][1..] == [];
    assert TakeLines(TakeLine(FRESH, a), []) == TakeLine(FRESH, a);
  }

  /** The reader's parser gives back the event the server wrote. */
  lemma ParseServerFrame(e: RunEvent)
    requires Deliverable(e)
    ensures ParseFrame(ServerFrame(e)) == Some(e)
    ensures ParseFrame(ServerFrame(e) + "\n") == Some(e)
  {
    hide Print, ParseFrame, TakeLine, IdLine, Finish;
    NoNewline(e);
    ParseTwoLines(IdLine(e), DataLine(e));
    TakeIdLine(FRESH, e);
    PrintEnd(e.data);
    TakeDataLine(WithId(e), Print(e.data));
    assert WithId(e).data + [Print(e.data)] == [Print(e.data)];
    FinishWhole(e);
  }

  lemma FinishWhole(e: RunEvent)
    requires Deliverable(e)
    ensures Finish(WithData(e, Print(e.data))) == Some(e)
  {
    hide Print, ParseText;
    RoundTrip(e.data);
    assert JoinLines([Print(e.data)]) == Print(e.data);
  }

  lemma FinishCut(e: RunEvent, value: string)
    requires Deliverable(e) && value <= Print(e.data)
    ensures !Cuttable(e.data) ==> Finish(WithData(e, value)) == None || Finish(WithData(e, value)) == Some(e)
    ensures Finish(WithData(e, value)) == match ParseText(value) case None => None case Some(v) => Some(RunEvent(e.id, v))
  {
    assert JoinLines([value]) == value;
    if !Cuttable(e.data) {
      if value == Print(e.data) {
        RoundTrip(e.data);
      } else {
        CutNeverParses(e.data, value);
      }
    }
  }

  /** A frame cut anywhere parses to nothing or to the whole frame's event. */
  predicate CutSafe(e: RunEvent)
    requires e.id > 0
  {
    forall k :: 0 <= k <= |ServerFrame(e)| ==>
      ParseFrame(ServerFrame(e)[..k]) == None || ParseFrame(ServerFrame(e)[..k]) == Some(e)
  }

  /** A cut frame gives nothing or an event under its own id; the event itself, unless cuttable. */
  lemma CutFrame(e: RunEvent, text: string)
    requires Deliverable(e) && text <= ServerFrame(e)
    ensures ParseFrame(text).Some? ==> ParseFrame(text).value.id == e.id
    ensures !Cuttable(e.data) ==> ParseFrame(text) == None || ParseFrame(text) == Some(e)
  {
    var n := |IdLine(e)|;
    NoNewline(e);
    if |text| <= n {
      assert text == IdLine(e)[..|text|];
      ParseOneLine(text);
      TakeCutIdLine(e, text);
    } else {
      CutInData(e, text, DataLine(e)[..|text| - n - 1]);
    }
  }

  lemma CutInData(e: RunEvent, text: string, line: string)
    requires Deliverable(e) && line <= DataLine(e) && text == IdLine(e) + "\n" + line
    ensures ParseFrame(text).Some? ==> ParseFrame(text).value.id == e.id
    ensures !Cuttable(e.data) ==> ParseFrame(text) == None || ParseFrame(text) == Some(e)
  {
    NoNewline(e);
    ParseTwoLines(IdLine(e), line);
    TakeIdLine(FRESH, e);
    var cut := TakeCutDataLine(WithId(e), Print(e.data), line);
    if cut.Some? {
      FinishCut(e, cut.value);
    }
  }

  /**
   * The flush at the end of a cut connection never invents or alters an event, except for a
   * payload that is a bare number of several digits.
   */
  lemma CutSafeIff(e: RunEvent)
    requires Deliverable(e)
    ensures CutSafe(e) <==> !Cuttable(e.data)
  {
    if Cuttable(e.data) {
      CutNumberFrame(e);
    } else {
      forall k | 0 <= k <= |ServerFrame(e)|
        ensures ParseFrame(ServerFrame(e)[..k]) == None || ParseFrame(ServerFrame(e)[..k]) == Some(e)
      {
        CutFrame(e, ServerFrame(e)[..k]);
      }
    }
  }

  lemma CutNumberFrame(e: RunEvent)
    requires Deliverable(e) && Cuttable(e.data)
    ensures !CutSafe(e)
  {
    CuttableNumber(e.data);
    var p := Print(e.data);
    var n :| 0 < n < |p| && ParseText(p[..n]).Some? && ParseText(p[..n]) != Some(e.data);
    NumberNeverEndsInSpace(p, n);
    CutNumberAt(e, p[..n]);
  }

  lemma NumberNeverEndsInSpace(p: string, n: nat)
    requires IsNumberText(p) && 0 < n <= |p|
    ensures !IsSpace(p[..n][n - 1])
  {
    NumberTextChars(p);
    assert p[n - 1] in p;
  }

  lemma CutNumberAt(e: RunEvent, value: string)
    requires Deliverable(e) && value <= Print(e.data) && value != "" && !IsSpace(value[|value| - 1])
    requires ParseText(value).Some? && ParseText(value) != Some(e.data)
    ensures !CutSafe(e)
  {
    ParseCutFrame(e, value);
    FinishCut(e, value);
    NotCutSafe(e, IdLine(e) + "\n" + ("data: " + value));
  }

  lemma NotCutSafe(e: RunEvent, text: string)
    requires e.id > 0 && text <= ServerFrame(e)
    requires ParseFrame(text) != None && ParseFrame(text) != Some(e)
    ensures !CutSafe(e)
  {
    assert text == ServerFrame(e)[..|text|];
  }

  lemma ParseCutFrame(e: RunEvent, value: string)
    requires Deliverable(e) && value <= Print(e.data) && value != "" && !IsSpace(value[|value| - 1])
    ensures ParseFrame(IdLine(e) + "\n" + ("data: " + value)) == Finish(WithData(e, value))
  {
    NoNewline(e);
    assert "data: " + value <= DataLine(e);
    ParseTwoLines(IdLine(e), "data: " + value);
    TakeIdLine(FRESH, e);
    TakeDataLine(WithId(e), value);
  }
}
