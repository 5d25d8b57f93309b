/** What a frame means on every text: its fields, without going through the parser's loop. */
module SseFields {
  import opened Text
  import opened Json
  import opened Numbers
  import opened SseEvents

  /** Less trailing white space the line is a name, a colon, at most one space and the value. */
  ghost predicate IsField(line: string, name: string, value: string) {
    && name != "" && ':' !in name
    && (|| TrimEnd(line) == name + ": " + value
        || (TrimEnd(line) == name + ":" + value && (value == "" || value[0] != ' ')))
  }

  /** Some field of this name is in the line. */
  ghost predicate HasField(line: string, name: string) {
    exists value :: IsField(line, name, value)
  }

  /** Every `id` is the text of a positive integer. */
  ghost predicate IdsAreNumbers(lines: seq<string>) {
    forall i, value | 0 <= i < |lines| && IsField(lines[i], "id", value) :: PositiveInteger(value).Some?
  }

  /** The last `id` has this value. */
  ghost predicate LastId(lines: seq<string>, id: int) {
    exists i, value | 0 <= i < |lines| && IsField(lines[i], "id", value) ::
      PositiveInteger(value) == Some(id) && forall j | i < j < |lines| :: !HasField(lines[j], "id")
  }

  /** The `data` lines are those at the places `at`, with these values. */
  ghost predicate DataAt(lines: seq<string>, at: seq<nat>, values: seq<string>) {
    && |at| == |values|
    && (forall k | 0 <= k < |at| :: at[k] < |lines| && IsField(lines[at[k]], "data", values[k]))
    && (forall k, l | 0 <= k < l < |at| :: at[k] < at[l])
    && (forall i: nat | i < |lines| && HasField(lines[i], "data") :: i in at)
  }

  /** The event has the last id and what the data lines, joined by newlines, parse to. */
  ghost predicate Means(lines: seq<string>, e: RunEvent) {
    && IdsAreNumbers(lines) && LastId(lines, e.id)
    && exists at, values :: DataAt(lines, at, values) && values != [] && ParseText(JoinLines(values)) == Some(e.data)
  }

  /** A line has at most one name and one value. */
  lemma FieldIsUnique(line: string, name: string, value: string, other: string, u: string)
    requires IsField(line, name, value) && IsField(line, other, u)
    ensures name == other && value == u
  {
    hide IsField;
    FieldAt(line, name, value);
    FieldAt(line, other, u);
  }

  /** Its name ends at the first colon, and its value follows that. */
  lemma FieldAt(line: string, name: string, value: string)
    requires IsField(line, name, value)
    ensures var s := TrimEnd(line); var n := IndexOf(s, ':');
            0 < n == |name| < |s| && s[..n] == name && FieldValue(s, n) == value
  {
    hide TrimEnd, IndexOf;
    var s := TrimEnd(line);
    assert s[|name|] == ':' && s[..|name|] == name;
    IndexOfAt(s, ':', |name|);
    assert s[|name| + 1..] == " " + value || s[|name| + 1..] == value;
    assert (" " + value)[1..] == value;
  }

  /** A field hands its name and value on; a line without one changes nothing. */
  lemma TakeFieldLine(st: FrameState, line: string, name: string, value: string)
    requires !st.rejected && IsField(line, name, value)
    ensures TakeLine(st, line) == TakeField(st, name, value)
  {
    hide IsField, TakeField, FieldValue, IndexOf, TrimEnd;
    FieldAt(line, name, value);
  }

  lemma SplitField(s: string, colon: nat, value: string)
    requires 0 < colon < |s| && s[colon] == ':' && value == FieldValue(s, colon)
    ensures s == s[..colon] + ": " + value || (s == s[..colon] + ":" + value && (value == "" || value[0] != ' '))
  {
    var rest := s[colon + 1..];
    assert s == s[..colon] + ":" + rest;
    if rest != "" && rest[0] == ' ' {
      assert rest == " " + value;
      assert s[..colon] + ":" + (" " + value) == s[..colon] + ": " + value;
    }
  }

  lemma FieldThere(line: string)
    requires 0 < IndexOf(TrimEnd(line), ':') < |TrimEnd(line)|
    ensures exists name, value :: IsField(line, name, value)
  {
    hide FieldValue, TrimEnd;
    var s := TrimEnd(line);
    var colon := IndexOf(s, ':');
    SplitField(s, colon, FieldValue(s, colon));
    assert IsField(line, s[..colon], FieldValue(s, colon));
  }

  lemma TakeOtherLine(st: FrameState, line: string)
    requires forall name, value :: !IsField(line, name, value)
    ensures TakeLine(st, line) == st
  {
    hide TakeField, IsField, TrimEnd;
    if 0 < IndexOf(TrimEnd(line), ':') < |TrimEnd(line)| {
      FieldThere(line);
    }
  }

  // ---------------------------------------------------------------- the parser's state

  /** What the state says of the lines read so far. */
  ghost predicate StateOf(st: FrameState, lines: seq<string>, at: seq<nat>) {
    && (st.rejected <==> !IdsAreNumbers(lines))
    && (!st.rejected ==>
          && DataAt(lines, at, st.data)
          && (st.id.Some? ==> LastId(lines, st.id.value))
          && (st.id.None? ==> NoIds(lines)))
  }

  ghost predicate NoIds(lines: seq<string>) {
    forall i | 0 <= i < |lines| :: !HasField(lines[i], "id")
  }

  lemma {:induction false} TakeLinesMore(st: FrameState, lines: seq<string>, line: string)
    ensures TakeLines(st, lines + [line]) == TakeLine(TakeLines(st, lines), line)
    decreases |lines|
  {
    hide TakeLine;
    if lines == [] {
      assert ([] + [line])[1..] == [];
    } else {
      assert (lines + [line])[1..] == lines[1..] + [line];
      TakeLinesMore(TakeLine(st, lines[0]), lines[1..], line);
    }
  }

  lemma IdsMore(lines: seq<string>, line: string)
    ensures IdsAreNumbers(lines + [line]) <==>
            IdsAreNumbers(lines) && forall value | IsField(line, "id", value) :: PositiveInteger(value).Some?
  {
    hide IsField;
    var more := lines + [line];
    if IdsAreNumbers(more) {
      forall i, value | 0 <= i < |lines| && IsField(lines[i], "id", value) ensures PositiveInteger(value).Some? {
        assert more[i] == lines[i];
      }
      forall value | IsField(line, "id", value) ensures PositiveInteger(value).Some? {
        assert more[|lines|] == line;
      }
    }
  }

  lemma LastIdMore(lines: seq<string>, line: string, id: int)
    ensures LastId(lines, id) && !HasField(line, "id") ==> LastId(lines + [line], id)
    ensures forall value | IsField(line, "id", value) :: PositiveInteger(value) == Some(id) ==> LastId(lines + [line], id)
  {
    hide IsField, PositiveInteger, HasField;
    var more := lines + [line];
    if LastId(lines, id) && !HasField(line, "id") {
      var i, value :| 0 <= i < |lines| && IsField(lines[i], "id", value)
        && PositiveInteger(value) == Some(id) && forall j | i < j < |lines| :: !HasField(lines[j], "id");
      assert more[i] == lines[i];
      forall j | i < j < |more| ensures !HasField(more[j], "id") {
      }
    }
    forall value | IsField(line, "id", value) && PositiveInteger(value) == Some(id) ensures LastId(more, id) {
      assert more[|lines|] == line;
    }
  }

  lemma DataMore(lines: seq<string>, at: seq<nat>, values: seq<string>, line: string)
    requires DataAt(lines, at, values)
    ensures !HasField(line, "data") ==> DataAt(lines + [line], at, values)
    ensures forall value | IsField(line, "data", value) :: DataAt(lines + [line], at + [|lines|], values + [value])
  {
    hide IsField, HasField;
    var more := lines + [line];
    assert forall i :: 0 <= i < |lines| ==> more[i] == lines[i];
    forall value | IsField(line, "data", value) ensures DataAt(more, at + [|lines|], values + [value]) {
      var places := at + [|lines|];
      forall i: nat | i < |more| && HasField(more[i], "data") ensures i in places {
        if i < |lines| {
          assert i in at;
        }
      }
    }
  }

  /** A line without an `id` changes nothing about ids. */
  lemma KeepIds(lines: seq<string>, line: string)
    requires !HasField(line, "id")
    ensures IdsAreNumbers(lines + [line]) <==> IdsAreNumbers(lines)
    ensures forall id :: LastId(lines, id) ==> LastId(lines + [line], id)
    ensures NoIds(lines) ==> NoIds(lines + [line])
  {
    hide IsField, PositiveInteger, LastId, IdsAreNumbers;
    IdsMore(lines, line);
    forall id | LastId(lines, id) ensures LastId(lines + [line], id) {
      LastIdMore(lines, line, id);
    }
  }

  lemma FieldKnown(line: string, name: string, value: string)
    requires IsField(line, name, value)
    ensures forall n, u :: IsField(line, n, u) ==> n == name && u == value
    ensures forall n :: HasField(line, n) <==> n == name
  {
    forall n, u | IsField(line, n, u) ensures n == name && u == value {
      FieldIsUnique(line, n, u, name, value);
    }
  }

  lemma StepId(st: FrameState, lines: seq<string>, at: seq<nat>, line: string, value: string)
    requires !st.rejected && StateOf(st, lines, at) && IsField(line, "id", value)
    ensures StateOf(TakeLine(st, line), lines + [line], at)
  {
    hide IsField, TakeLine, PositiveInteger, DataAt, LastId, IdsAreNumbers, NoIds, HasField;
    TakeFieldLine(st, line, "id", value);
    FieldKnown(line, "id", value);
    IdsMore(lines, line);
    DataMore(lines, at, st.data, line);
    assert !HasField(line, "data");
    if PositiveInteger(value).Some? {
      LastIdMore(lines, line, PositiveInteger(value).value);
    }
  }

  lemma StepData(st: FrameState, lines: seq<string>, at: seq<nat>, line: string, value: string)
    requires !st.rejected && StateOf(st, lines, at) && IsField(line, "data", value)
    ensures StateOf(TakeLine(st, line), lines + [line], at + [|lines|])
  {
    hide IsField, TakeLine, PositiveInteger, DataAt, LastId, IdsAreNumbers, NoIds, HasField;
    TakeFieldLine(st, line, "data", value);
    FieldKnown(line, "data", value);
    assert !HasField(line, "id");
    KeepIds(lines, line);
    DataMore(lines, at, st.data, line);
  }

  lemma StepOther(st: FrameState, lines: seq<string>, at: seq<nat>, line: string)
    requires StateOf(st, lines, at) && TakeLine(st, line) == st && !HasField(line, "id") && !HasField(line, "data")
    ensures StateOf(st, lines + [line], at)
  {
    hide IsField, TakeLine, PositiveInteger, DataAt, LastId, IdsAreNumbers, NoIds, HasField;
    KeepIds(lines, line);
    if !st.rejected {
      DataMore(lines, at, st.data, line);
    }
  }

  lemma StepState(st: FrameState, lines: seq<string>, at: seq<nat>, line: string) returns (more: seq<nat>)
    requires StateOf(st, lines, at)
    ensures StateOf(TakeLine(st, line), lines + [line], more)
  {
    hide IsField, TakeLine, StateOf, PositiveInteger;
    more := at;
    if st.rejected {
      StaysRejected(st, lines, at, line);
    } else if value :| IsField(line, "id", value) {
      StepId(st, lines, at, line, value);
    } else if value :| IsField(line, "data", value) {
      more := at + [|lines|];
      StepData(st, lines, at, line, value);
    } else {
      TakeNeither(st, line);
      StepOther(st, lines, at, line);
    }
  }

  lemma TakeNeither(st: FrameState, line: string)
    requires !st.rejected && !HasField(line, "id") && !HasField(line, "data")
    ensures TakeLine(st, line) == st
  {
    hide IsField, TakeLine, PositiveInteger;
    if name, value :| IsField(line, name, value) {
      TakeFieldLine(st, line, name, value);
      assert HasField(line, name);
    } else {
      TakeOtherLine(st, line);
    }
  }

  lemma StaysRejected(st: FrameState, lines: seq<string>, at: seq<nat>, line: string)
    requires st.rejected && StateOf(st, lines, at)
    ensures StateOf(TakeLine(st, line), lines + [line], at)
  {
    hide IsField, PositiveInteger;
    IdsMore(lines, line);
  }

  lemma {:induction false} StateAfter(lines: seq<string>) returns (at: seq<nat>)
    ensures StateOf(TakeLines(FRESH, lines), lines, at)
  {
    hide IsField, TakeLine, PositiveInteger;
    if lines == [] {
      at := [];
    } else {
      var n := |lines| - 1;
      var before := StateAfter(lines[..n]);
      assert lines == lines[..n] + [lines[n]];
      TakeLinesMore(FRESH, lines[..n], lines[n]);
      at := StepState(TakeLines(FRESH, lines[..n]), lines[..n], before, lines[n]);
    }
  }

  // ---------------------------------------------------------------- what a frame means

  lemma LastIdIsUnique(lines: seq<string>, a: int, b: int)
    requires LastId(lines, a) && LastId(lines, b)
    ensures a == b
  {
    hide IsField, PositiveInteger;
    var i, u :| 0 <= i < |lines| && IsField(lines[i], "id", u)
      && PositiveInteger(u) == Some(a) && forall j | i < j < |lines| :: !HasField(lines[j], "id");
    var k, v :| 0 <= k < |lines| && IsField(lines[k], "id", v)
      && PositiveInteger(v) == Some(b) && forall j | k < j < |lines| :: !HasField(lines[j], "id");
    assert HasField(lines[i], "id") && HasField(lines[k], "id");
    assert i == k;
    FieldIsUnique(lines[i], "id", u, "id", v);
  }

  lemma LastPlace(p: seq<nat>, i: nat)
    requires p != [] && forall k, l | 0 <= k < l < |p| :: p[k] < p[l]
    ensures i in p[..|p| - 1] <==> i in p && i != p[|p| - 1]
  {
    assert p == p[..|p| - 1] + [p[|p| - 1]];
  }

  lemma {:induction false} PlacesAreUnique(p: seq<nat>, q: seq<nat>)
    requires (forall k, l | 0 <= k < l < |p| :: p[k] < p[l]) && (forall k, l | 0 <= k < l < |q| :: q[k] < q[l])
    requires forall i: nat :: i in p <==> i in q
    ensures p == q
  {
    assert q != [] ==> q[0] in q;
    if p != [] {
      var m, n := |p| - 1, |q| - 1;
      assert p[m] in q && q != [] && q[n] in p;
      assert p[m] == q[n];
      forall i: nat ensures i in p[..m] <==> i in q[..n] {
        LastPlace(p, i);
        LastPlace(q, i);
      }
      PlacesAreUnique(p[..m], q[..n]);
      assert p == p[..m] + [p[m]] && q == q[..n] + [q[n]];
    }
  }

  lemma DataIsUnique(lines: seq<string>, at: seq<nat>, values: seq<string>, at': seq<nat>, values': seq<string>)
    requires DataAt(lines, at, values) && DataAt(lines, at', values')
    ensures values == values'
  {
    hide IsField;
    forall i: nat ensures i in at <==> i in at' {
      if i in at {
        var k :| 0 <= k < |at| && at[k] == i;
        assert HasField(lines[i], "data");
      }
      if i in at' {
        var k :| 0 <= k < |at'| && at'[k] == i;
        assert HasField(lines[i], "data");
      }
    }
    PlacesAreUnique(at, at');
    forall k | 0 <= k < |values| ensures values[k] == values'[k] {
      FieldIsUnique(lines[at[k]], "data", values[k], "data", values'[k]);
    }
  }

  /** On every text: the parser gives an event exactly when the fields of the text mean it. */
  lemma ParseFrameIff(text: string, e: RunEvent)
    ensures ParseFrame(text) == Some(e) <==> Means(Lines(text), e)
  {
    hide IsField, TakeLines, PositiveInteger, IdsAreNumbers, LastId, DataAt, Lines, ParseText, JoinLines, HasField;
    var lines := Lines(text);
    var at := StateAfter(lines);
    var st := TakeLines(FRESH, lines);
    if Means(lines, e) {
      var at', values :| DataAt(lines, at', values) && values != [] && ParseText(JoinLines(values)) == Some(e.data);
      DataIsUnique(lines, at, st.data, at', values);
      SomeId(lines, e.id);
      LastIdIsUnique(lines, e.id, st.id.value);
    }
  }

  lemma SomeId(lines: seq<string>, id: int)
    requires LastId(lines, id)
    ensures !NoIds(lines)
  {
    hide IsField, PositiveInteger;
  }
}
