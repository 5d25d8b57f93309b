/** Request and response matching of the MCP client over a child process: JSON-RPC 2.0, one message a line. */
module McpClient {
  import opened Text
  import opened Json
  import opened JsonLaws
  import opened JsonForms
  import opened Numbers

  /** How a request's promise ended. */
  datatype Outcome =
    | Resolved(result: Option<Value>)
    | ServerError(error: Value)
    | TimedOut
    | Exited
    | Disconnected
    | SendFailed

  /** What a caller hands over; some values, such as cyclic ones, have no JSON text and make the printer throw. */
  datatype Params = Unprintable | Printable(value: Value)

  datatype Settlement = Settlement(id: nat, outcome: Outcome)

  /** What a line answers, and how; there is no outcome when putting the error into text throws. */
  datatype Answer = Answer(id: nat, outcome: Option<Outcome>)

  /**
   * `pending` lists the ids of open requests in the order they were made, `timers` the ids whose timer is live,
   * `settled` what promises were settled with so far, `sent` all text written to the child process.
   */
  datatype State = State(
    nextId: nat,
    pending: seq<nat>,
    timers: set<nat>,
    buffer: string,
    running: bool,
    sent: string,
    settled: seq<Settlement>)

  const START := State(1, [], {}, "", false, "", [])

  // ---------------------------------------------------------------- messages

  function Request(id: nat, name: string, params: Value): Value {
    Object([Member("jsonrpc", Str("2.0")), Member("method", Str(name)), Member("params", params),
            Member("id", Number(Decimal(id)))])
  }

  function Notification(name: string, params: Value): Value {
    Object([Member("jsonrpc", Str("2.0")), Member("method", Str(name)), Member("params", params)])
  }

  function Lookup(ms: seq<Member>, key: string): Option<Value> {
    if ms == [] then None else if ms[0].key == key then Some(ms[0].value) else Lookup(ms[1..], key)
  }

  /** What the host language takes for true. */
  predicate Truthy(v: Value) {
    match v
    case Null => false
    case Bool(b) => b
    case Number(literal) => NumberOf(literal) != Some(0.0)
    case Str(t) => t != ""
    case _ => true
  }

  /** A parsed value that throws when it is made a string: its own `toString` is no function, or an element throws. */
  predicate NoText(v: Value) {
    match v
    case Object(ms) => Lookup(ms, "toString").Some?
    case Array(items) => exists i :: 0 <= i < |items| && NoText(items[i])
    case _ => false
  }

  /** The error message is made of these two members. */
  predicate NoMessage(error: Value) {
    && error.Object?
    && var code, text := Lookup(error.members, "code"), Lookup(error.members, "message");
       (code.Some? && NoText(code.value)) || (text.Some? && NoText(text.value))
  }

  function OutcomeOf(ms: seq<Member>): Option<Outcome> {
    var error := Lookup(ms, "error");
    if error.Some? && Truthy(error.value) then
      if NoMessage(error.value) then None else Some(ServerError(error.value))
    else
      Some(Resolved(Lookup(ms, "result")))
  }

  /** The request id, if any, that a line of the child's output answers; requests have positive integer ids. */
  function AnswerOf(line: string): Option<Answer> {
    var v :- ParseText(Trim(line));
    if !v.Object? then None
    else
      var id :- Lookup(v.members, "id");
      if !id.Number? then None
      else
        var n :- PositiveInteger(id.literal);
        Some(Answer(n, OutcomeOf(v.members)))
  }

  // ---------------------------------------------------------------- steps

  function Without(s: seq<nat>, x: nat): seq<nat> {
    if s == [] then [] else if s[0] == x then s[1..] else [s[0]] + Without(s[1..], x)
  }

  function Ids(settled: seq<Settlement>): set<nat> {
    set x | x in settled :: x.id
  }

  /** A promise keeps what it was settled with first. */
  function Record(settled: seq<Settlement>, id: nat, outcome: Outcome): seq<Settlement> {
    if id in Ids(settled) then settled else settled + [Settlement(id, outcome)]
  }

  function RecordAll(settled: seq<Settlement>, ids: seq<nat>, outcome: Outcome): seq<Settlement> {
    if ids == [] then settled
    else Record(RecordAll(settled, ids[..|ids| - 1], outcome), ids[|ids| - 1], outcome)
  }

  function Settle(s: State, id: nat, outcome: Outcome): State {
    s.(pending := Without(s.pending, id), timers := s.timers - {id}, settled := Record(s.settled, id, outcome))
  }

  /** A request is forgotten and its promise left as it is. */
  function Forget(s: State, id: nat): State {
    s.(pending := Without(s.pending, id), timers := s.timers - {id})
  }

  function SettleAll(s: State, outcome: Outcome): State {
    s.(pending := [], timers := s.timers - (set id | id in s.pending), running := false,
       settled := RecordAll(s.settled, s.pending, outcome))
  }

  /** What the lines of the child's output answer, in order. */
  function Answers(lines: seq<string>): seq<Answer> {
    Collect(AnswerOf, lines)
  }

  /** An answer to an id that is not open is dropped; the request is forgotten before its error is put into text. */
  function TakeAnswer(s: State, a: Answer): State {
    if a.id !in s.pending then s
    else if a.outcome.Some? then Settle(s, a.id, a.outcome.value)
    else Forget(s, a.id)
  }

  function TakeAnswers(s: State, answers: seq<Answer>): State
    decreases |answers|
  {
    if answers == [] then s else TakeAnswers(TakeAnswer(s, answers[0]), answers[1..])
  }

  /** The complete lines of `text` and what follows the last newline. */
  function Complete(text: string): seq<string> {
    var lines := Lines(text);
    lines[..|lines| - 1]
  }

  function Unfinished(text: string): string {
    var lines := Lines(text);
    lines[|lines| - 1]
  }

  function TakeData(s: State, chunk: string): State {
    TakeText(AnswerOf, s, s.buffer + chunk)
  }

  function TakeText(read: string -> Option<Answer>, s: State, text: string): State {
    TakeAnswers(s.(buffer := Unfinished(text)), Collect(read, Complete(text)))
  }

  /** The printer runs only when there is a process to write to. */
  predicate Throws(s: State, params: Params) {
    s.running && params.Unprintable?
  }

  /** The request is registered and its timer started before it is printed; a throwing printer rejects its promise. */
  function Issue(s: State, name: string, params: Params): State {
    var id := s.nextId;
    s.(nextId := id + 1, pending := s.pending + [id], timers := s.timers + {id},
       sent := if s.running && params.Printable? then s.sent + Print(Request(id, name, params.value)) + "\n" else s.sent,
       settled := if Throws(s, params) then Record(s.settled, id, SendFailed) else s.settled)
  }

  /** A timer fires only while it is live. */
  function Expire(s: State, id: nat): State {
    if id in s.timers then Settle(s, id, TimedOut) else s
  }

  datatype Op =
    | Spawn
    | Send(name: string, params: Params)
    | Notify(name: string, content: Value)
    | Data(chunk: string)
    | Timeout(id: nat)
    | Exit
    | Disconnect

  function Step(s: State, op: Op): State {
    match op
    case Spawn => s.(running := true)
    case Send(name, params) => Issue(s, name, params)
    case Notify(name, content) =>
      if s.running then s.(sent := s.sent + Print(Notification(name, content)) + "\n") else s
    case Data(chunk) => TakeData(s, chunk)
    case Timeout(id) => Expire(s, id)
    case Exit => SettleAll(s, Exited)
    case Disconnect => SettleAll(s, Disconnected)
  }

  function Run(s: State, ops: seq<Op>): State
    decreases |ops|
  {
    if ops == [] then s else Run(Step(s, ops[0]), ops[1..])
  }

  // ---------------------------------------------------------------- the client

  class StdioMcpClient {
    var nextId: nat
    var pending: seq<nat>
    var timers: set<nat>
    var buffer: string
    var running: bool
    var sent: string
    var settled: seq<Settlement>

    ghost function Abs(): State
      reads this
    {
      State(nextId, pending, timers, buffer, running, sent, settled)
    }

    constructor ()
      ensures Abs() == START
    {
      nextId, pending, timers, buffer, running, sent, settled := 1, [], {}, "", false, "", [];
    }

    /** Starts the process and sends the first request, if there is a command to start. */
    method Connect(hasCommand: bool) returns (initialize: Option<nat>)
      modifies this
      ensures initialize == if hasCommand then Some(old(nextId)) else None
      ensures Abs() ==
        if !hasCommand then old(Abs())
        else
          Step(Step(old(Abs()), Spawn), Send("initialize", Printable(Object([
            Member("protocolVersion", Str("2024-11-05")),
            Member("capabilities", Object([])),
            Member("clientInfo", Object([Member("name", Str("lux-mcp-client")), Member("version", Str("1.0.0"))]))]))))
      ensures hasCommand ==> running && nextId == old(nextId) + 1 && pending == old(pending) + [old(nextId)]
      ensures hasCommand ==> timers == old(timers) + {old(nextId)} && settled == old(settled)
      ensures buffer == old(buffer) && old(sent) <= sent
    {
      if !hasCommand {
        return None;
      }
      running := true;
      var params := Object([
        Member("protocolVersion", Str("2024-11-05")),
        Member("capabilities", Object([])),
        Member("clientInfo", Object([Member("name", Str("lux-mcp-client")), Member("version", Str("1.0.0"))]))]);
      var id, thrown := SendRequest("initialize", Printable(params));
      initialize := Some(id);
    }

    /** Once the first request has its result, the server is told. */
    method Initialized()
      modifies this
      ensures Abs() == Step(old(Abs()), Notify("notifications/initialized", Object([])))
    {
      if running {
        sent := sent + Print(Notification("notifications/initialized", Object([]))) + "\n";
      }
    }

    method SendRequest(name: string, params: Params) returns (id: nat, thrown: bool)
      modifies this
      ensures id == old(nextId) && thrown == Throws(old(Abs()), params)
      ensures Abs() == Step(old(Abs()), Send(name, params))
    {
      id := nextId;
      nextId := nextId + 1;
      timers := timers + {id};
      pending := pending + [id];
      thrown := running && params.Unprintable?;
      if thrown {
        settled := Record(settled, id, SendFailed);
      } else if running {
        sent := sent + Print(Request(id, name, params.value)) + "\n";
      }
    }

    method HandleResponse(response: Answer)
      modifies this
      ensures Abs() == TakeAnswer(old(Abs()), response)
    {
      if response.id !in pending {
        return;
      }
      timers := timers - {response.id};
      pending := Without(pending, response.id);
      if response.outcome.Some? {
        settled := Record(settled, response.id, response.outcome.value);
      }
    }

    method HandleLine(line: string)
      modifies this
      ensures Abs() == TakeAnswers(old(Abs()), Listed(AnswerOf(line)))
    {
      hide AnswerOf, TakeAnswer;
      var answer := AnswerOf(line);
      if answer.Some? {
        HandleResponse(answer.value);
      }
    }

    method HandleData(data: string)
      modifies this
      ensures Abs() == TakeData(old(Abs()), data)
    {
      buffer := buffer + data;
      var lines := Lines(buffer);
      ghost var complete := Complete(buffer);
      buffer := lines[|lines| - 1];
      ghost var goal := TakeAnswers(Abs(), Answers(complete));
      for i := 0 to |lines| - 1
        invariant TakeAnswers(Abs(), Answers(complete[i..])) == goal
      {
        ghost var rest := Answers(complete[i + 1..]);
        AnswersSplit(complete, i);
        AnswersAppend(Abs(), Listed(AnswerOf(lines[i])), rest);
        HandleLine(lines[i]);
        assert TakeAnswers(Abs(), rest) == goal;
      }
    }

    method HandleTimeout(id: nat)
      requires id in timers
      modifies this
      ensures Abs() == Step(old(Abs()), Timeout(id))
    {
      timers := timers - {id};
      pending := Without(pending, id);
      settled := Record(settled, id, TimedOut);
    }

    method RejectAll(outcome: Outcome)
      modifies this
      ensures Abs() == SettleAll(old(Abs()), outcome)
    {
      for i := 0 to |pending|
        invariant pending == old(pending) && nextId == old(nextId) && buffer == old(buffer) && sent == old(sent)
        invariant settled == RecordAll(old(settled), pending[..i], outcome)
        invariant timers == old(timers) - (set id | id in pending[..i])
      {
        timers := timers - {pending[i]};
        settled := Record(settled, pending[i], outcome);
        assert pending[..i + 1] == pending[..i] + [pending[i]];
        assert pending[..i + 1][..i] == pending[..i];
      }
      assert pending[..|pending|] == pending;
      pending := [];
      running := false;
    }

    method HandleExit()
      modifies this
      ensures Abs() == Step(old(Abs()), Exit)
    {
      RejectAll(Exited);
    }

    method Close()
      modifies this
      ensures Abs() == Step(old(Abs()), Disconnect)
    {
      RejectAll(Disconnected);
    }
  }

  lemma AnswersSplit(lines: seq<string>, i: nat)
    requires i < |lines|
    ensures Answers(lines[i..]) == Listed(AnswerOf(lines[i])) + Answers(lines[i + 1..])
  {
    var rest := lines[i..];
    assert rest[0] == lines[i] && rest[1..] == lines[i + 1..];
  }

  lemma {:induction false} AnswersAppend(s: State, a: seq<Answer>, b: seq<Answer>)
    ensures TakeAnswers(s, a + b) == TakeAnswers(TakeAnswers(s, a), b)
    decreases |a|
  {
    if a == [] {
      assert a + b == b;
    } else {
      assert (a + b)[1..] == a[1..] + b;
      AnswersAppend(TakeAnswer(s, a[0]), a[1..], b);
    }
  }

  // ---------------------------------------------------------------- settled exactly once

  /** Ids in the order they were issued, each once. */
  ghost predicate InOrder(s: seq<nat>) {
    forall i, j :: 0 <= i < j < |s| ==> s[i] < s[j]
  }

  ghost predicate SettledOnce(settled: seq<Settlement>) {
    forall i, j :: 0 <= i < j < |settled| ==> settled[i].id != settled[j].id
  }

  /**
   * Only issued ids are open or settled, open ones with a live timer and settled ones once; an id is both only when
   * its send threw.
   */
  ghost predicate Inv(s: State) {
    && s.nextId >= 1
    && InOrder(s.pending)
    && SettledOnce(s.settled)
    && (forall id: nat :: id in s.pending || id in Ids(s.settled) ==> 1 <= id < s.nextId)
    && (forall id: nat :: id in s.pending && id in Ids(s.settled) ==> Settlement(id, SendFailed) in s.settled)
    && (forall id: nat :: id in s.timers <==> id in s.pending)
    && NEWLINE !in s.buffer
  }

  lemma {:induction false} WithoutElements(s: seq<nat>, x: nat)
    requires InOrder(s)
    ensures forall y: nat :: y in Without(s, x) <==> y in s && y != x
    ensures InOrder(Without(s, x))
  {
    if s != [] {
      assert s == [s[0]] + s[1..];
      assert InOrder(s[1..]);
      assert s[0] !in s[1..];
      WithoutElements(s[1..], x);
      var rest := Without(s[1..], x);
      forall i | 0 <= i < |rest| ensures s[0] < rest[i] {
        assert rest[i] in s[1..];
      }
    }
  }

  lemma IdsMore(settled: seq<Settlement>, more: seq<Settlement>)
    ensures Ids(settled + more) == Ids(settled) + Ids(more)
  {
    assert forall x :: x in settled + more <==> x in settled || x in more;
  }

  lemma RecordKeeps(settled: seq<Settlement>, id: nat, outcome: Outcome)
    requires SettledOnce(settled)
    ensures var after := Record(settled, id, outcome);
            && SettledOnce(after) && Ids(after) == Ids(settled) + {id} && settled <= after
            && forall x :: x in after <==> x in settled || (id !in Ids(settled) && x == Settlement(id, outcome))
  {
    IdsMore(settled, [Settlement(id, outcome)]);
    assert Ids([Settlement(id, outcome)]) == {id};
    forall k | 0 <= k < |settled| ensures settled[k].id in Ids(settled) {
      assert settled[k] in settled;
    }
  }

  lemma {:induction false} RecordAllKeeps(settled: seq<Settlement>, ids: seq<nat>, outcome: Outcome)
    requires SettledOnce(settled)
    ensures var after := RecordAll(settled, ids, outcome);
            && SettledOnce(after) && settled <= after
            && (forall id: nat :: id in Ids(after) <==> id in Ids(settled) || id in ids)
            && forall x :: x in after ==> x in settled || x.outcome == outcome
  {
    if ids != [] {
      var n := |ids| - 1;
      RecordAllKeeps(settled, ids[..n], outcome);
      RecordKeeps(RecordAll(settled, ids[..n], outcome), ids[n], outcome);
      assert ids == ids[..n] + [ids[n]];
    }
  }

  lemma SettleKeeps(s: State, id: nat, outcome: Outcome)
    requires Inv(s) && id in s.pending
    ensures Inv(Settle(s, id, outcome))
  {
    hide Without, Record, Ids;
    WithoutElements(s.pending, id);
    RecordKeeps(s.settled, id, outcome);
  }

  lemma ForgetKeeps(s: State, id: nat)
    requires Inv(s) && id in s.pending
    ensures Inv(Forget(s, id))
  {
    hide Without, Ids;
    WithoutElements(s.pending, id);
  }

  lemma TakeAnswerKeeps(s: State, a: Answer)
    requires Inv(s)
    ensures Inv(TakeAnswer(s, a))
  {
    hide Inv, Settle, Forget;
    if a.id in s.pending {
      if a.outcome.Some? {
        SettleKeeps(s, a.id, a.outcome.value);
      } else {
        ForgetKeeps(s, a.id);
      }
    }
  }

  lemma {:induction false} TakeAnswersKeeps(s: State, answers: seq<Answer>)
    requires Inv(s)
    ensures Inv(TakeAnswers(s, answers))
    decreases |answers|
  {
    if answers != [] {
      TakeAnswerKeeps(s, answers[0]);
      TakeAnswersKeeps(TakeAnswer(s, answers[0]), answers[1..]);
    }
  }

  lemma UnfinishedHasNoNewline(text: string)
    ensures NEWLINE !in Unfinished(text)
  {
    LinesJoin(text);
  }

  lemma SettleAllKeeps(s: State, outcome: Outcome)
    requires Inv(s)
    ensures Inv(SettleAll(s, outcome))
  {
    hide RecordAll, Ids;
    RecordAllKeeps(s.settled, s.pending, outcome);
  }

  lemma IssueKeeps(s: State, name: string, params: Params)
    requires Inv(s)
    ensures Inv(Issue(s, name, params))
  {
    hide Record, Ids, Print;
    assert s.nextId !in s.pending && s.nextId !in Ids(s.settled);
    forall i | 0 <= i < |s.pending| ensures s.pending[i] < s.nextId {
      assert s.pending[i] in s.pending;
    }
    RecordKeeps(s.settled, s.nextId, SendFailed);
  }

  lemma StepKeeps(s: State, op: Op)
    requires Inv(s)
    ensures Inv(Step(s, op))
  {
    match op
    case Spawn =>
    case Notify(_, _) =>
    case Send(name, params) =>
      IssueKeeps(s, name, params);
    case Data(chunk) =>
      var text := s.buffer + chunk;
      UnfinishedHasNoNewline(text);
      TakeAnswersKeeps(s.(buffer := Unfinished(text)), Answers(Complete(text)));
    case Timeout(id) =>
      if id in s.timers {
        SettleKeeps(s, id, TimedOut);
      }
    case Exit =>
      SettleAllKeeps(s, Exited);
    case Disconnect =>
      SettleAllKeeps(s, Disconnected);
  }

  /** Over every order of sends, responses, timeouts, exits and disconnects; what is settled stays as it is. */
  lemma {:induction false} EveryRunKeeps(s: State, ops: seq<Op>)
    requires Inv(s)
    ensures Inv(Run(s, ops))
    ensures s.settled <= Run(s, ops).settled
    decreases |ops|
  {
    hide Inv, Step;
    if ops != [] {
      StepKeeps(s, ops[0]);
      StepOnlyAdds(s, ops[0]);
      EveryRunKeeps(Step(s, ops[0]), ops[1..]);
    }
  }

  lemma {:induction false} TakeAnswersOnlyAdds(s: State, answers: seq<Answer>)
    ensures s.settled <= TakeAnswers(s, answers).settled
    decreases |answers|
  {
    hide Without, Ids;
    if answers != [] {
      TakeAnswersOnlyAdds(TakeAnswer(s, answers[0]), answers[1..]);
    }
  }

  lemma {:induction false} RecordAllOnlyAdds(settled: seq<Settlement>, ids: seq<nat>, outcome: Outcome)
    ensures settled <= RecordAll(settled, ids, outcome)
  {
    hide Ids;
    if ids != [] {
      RecordAllOnlyAdds(settled, ids[..|ids| - 1], outcome);
    }
  }

  lemma StepOnlyAdds(s: State, op: Op)
    ensures s.settled <= Step(s, op).settled
  {
    hide AnswerOf, Complete, Unfinished, Collect, TakeAnswers, RecordAll, Ids, Print, Without;
    match op
    case Data(chunk) =>
      var text := s.buffer + chunk;
      TakeAnswersOnlyAdds(s.(buffer := Unfinished(text)), Collect(AnswerOf, Complete(text)));
    case Exit => RecordAllOnlyAdds(s.settled, s.pending, Exited);
    case Disconnect => RecordAllOnlyAdds(s.settled, s.pending, Disconnected);
    case _ =>
  }

  lemma EveryReachableStateKeeps(ops: seq<Op>)
    ensures Inv(Run(START, ops))
  {
    hide Run, Ids;
    assert Ids([]) == {} by { NoIds(); }
    EveryRunKeeps(START, ops);
  }

  lemma NoIds()
    ensures Ids([]) == {}
  {
  }

  // ---------------------------------------------------------------- sends that throw

  /** An unprintable request to a running process is rejected at once and yet stays open with a live timer. */
  lemma ThrowingSendIsOpenAndSettled(s: State, name: string)
    requires Inv(s) && s.running
    ensures var t := Step(s, Send(name, Unprintable));
            s.nextId in t.pending && s.nextId in t.timers && Settlement(s.nextId, SendFailed) in t.settled
  {
    assert s.nextId !in Ids(s.settled);
  }

  /** For instance the first request of a client whose process runs. */
  lemma FirstSendThrows()
    ensures var s := Run(START, [Spawn, Send("tools/call", Unprintable)]);
            1 in s.pending && 1 in s.timers && 1 in Ids(s.settled)
  {
    var send := Send("tools/call", Unprintable);
    var s := Step(START, Spawn);
    assert [Spawn, send][1..] == [send] && [send][1..] == [];
    assert Run(START, [Spawn, send]) == Run(s, [send]) == Run(Step(s, send), []);
    ThrowingSendIsOpenAndSettled(s, "tools/call");
  }

  /** No id is open and settled at once. */
  ghost predicate Exclusive(s: State) {
    forall id: nat :: id in s.pending ==> id !in Ids(s.settled)
  }

  /** Step `i` of the run is a send that throws. */
  predicate ThrewAt(ops: seq<Op>, i: nat)
    requires i < |ops|
  {
    ops[i].Send? && Throws(Run(START, ops[..i]), ops[i].params)
  }

  /** The id step `i` issues if it is a send. */
  function IssuedAt(ops: seq<Op>, i: nat): nat
    requires i < |ops|
  {
    Run(START, ops[..i]).nextId
  }

  lemma {:induction false} RunMore(s: State, ops: seq<Op>, op: Op)
    ensures Run(s, ops + [op]) == Step(Run(s, ops), op)
    decreases |ops|
  {
    hide Step;
    if ops == [] {
      assert ([] + [op])[1..] == [];
    } else {
      assert (ops + [op])[1..] == ops[1..] + [op];
      RunMore(Step(s, ops[0]), ops[1..], op);
    }
  }

  ghost predicate Failed(s: State, id: nat) {
    Settlement(id, SendFailed) in s.settled
  }

  lemma NoAnswerFails(line: string)
    ensures AnswerOf(line).Some? ==> AnswerOf(line).value.outcome != Some(SendFailed)
  {
    hide ParseText, Trim, PositiveInteger, NoMessage;
  }

  lemma {:induction false} CollectNoFailures(read: string -> Option<Answer>, lines: seq<string>)
    requires forall line :: read(line).Some? ==> read(line).value.outcome != Some(SendFailed)
    ensures forall a :: a in Collect(read, lines) ==> a.outcome != Some(SendFailed)
  {
    if lines != [] {
      CollectNoFailures(read, lines[1..]);
    }
  }

  lemma {:induction false} AnswersFailNothing(s: State, answers: seq<Answer>, id: nat)
    requires Inv(s) && forall a :: a in answers ==> a.outcome != Some(SendFailed)
    ensures Failed(TakeAnswers(s, answers), id) <==> Failed(s, id)
    decreases |answers|
  {
    hide Without, Ids, Record;
    if answers != [] {
      var a := answers[0];
      TakeAnswerKeeps(s, a);
      if a.id in s.pending && a.outcome.Some? {
        RecordKeeps(s.settled, a.id, a.outcome.value);
      }
      AnswersFailNothing(TakeAnswer(s, a), answers[1..], id);
    }
  }

  lemma DataFailsNothing(s: State, chunk: string, id: nat)
    requires Inv(s)
    ensures Failed(Step(s, Data(chunk)), id) <==> Failed(s, id)
  {
    hide AnswerOf, Complete, Unfinished, Collect, TakeAnswers, Failed;
    var text := s.buffer + chunk;
    forall line ensures AnswerOf(line).Some? ==> AnswerOf(line).value.outcome != Some(SendFailed) {
      NoAnswerFails(line);
    }
    CollectNoFailures(AnswerOf, Complete(text));
    UnfinishedHasNoNewline(text);
    var t := s.(buffer := Unfinished(text));
    AnswersFailNothing(t, Collect(AnswerOf, Complete(text)), id);
    SameFailed(s, t, id);
  }

  lemma SameFailed(s: State, t: State, id: nat)
    requires s.settled == t.settled
    ensures Failed(s, id) <==> Failed(t, id)
  {
  }

  /** Only a send that throws settles a promise that way. */
  lemma StepFails(s: State, op: Op, id: nat)
    requires Inv(s)
    ensures Failed(Step(s, op), id) <==> Failed(s, id) || (op.Send? && Throws(s, op.params) && id == s.nextId)
  {
    hide TakeData, Ids, Record, RecordAll, Without, Print;
    match op
    case Send(_, _) =>
      assert s.nextId !in Ids(s.settled);
      RecordKeeps(s.settled, s.nextId, SendFailed);
    case Data(chunk) => DataFailsNothing(s, chunk, id);
    case Timeout(t) => RecordKeeps(s.settled, t, TimedOut);
    case Exit => AllFailNothing(s, Exited, id);
    case Disconnect => AllFailNothing(s, Disconnected, id);
    case _ =>
  }

  lemma AllFailNothing(s: State, outcome: Outcome, id: nat)
    requires Inv(s) && !outcome.SendFailed?
    ensures Failed(SettleAll(s, outcome), id) <==> Failed(s, id)
  {
    hide RecordAll, Ids;
    RecordAllKeeps(s.settled, s.pending, outcome);
    assert Failed(s, id) ==> Settlement(id, SendFailed) in RecordAll(s.settled, s.pending, outcome);
  }

  lemma {:induction false} FailedByThrowing(ops: seq<Op>, id: nat)
    ensures Failed(Run(START, ops), id) <==> exists i :: 0 <= i < |ops| && ThrewAt(ops, i) && IssuedAt(ops, i) == id
  {
    hide Step, Run, Inv, Failed, Throws;
    if ops == [] {
      NothingFailed(id);
    } else {
      var n := |ops| - 1;
      var before := ops[..n];
      assert ops == before + [ops[n]];
      EveryReachableStateKeeps(before);
      RunMore(START, before, ops[n]);
      FailedByThrowing(before, id);
      StepFails(Run(START, before), ops[n], id);
      ThrewMore(before, ops, id);
    }
  }

  lemma ThrewMore(before: seq<Op>, ops: seq<Op>, id: nat)
    requires ops != [] && before == ops[..|ops| - 1]
    ensures (exists i :: 0 <= i < |ops| && ThrewAt(ops, i) && IssuedAt(ops, i) == id) <==>
            || (exists i :: 0 <= i < |before| && ThrewAt(before, i) && IssuedAt(before, i) == id)
            || (ops[|ops| - 1].Send? && Throws(Run(START, before), ops[|ops| - 1].params) && id == Run(START, before).nextId)
  {
    hide Run, Throws;
    var n := |ops| - 1;
    assert ThrewAt(ops, n) <==> ops[n].Send? && Throws(Run(START, before), ops[n].params);
    assert IssuedAt(ops, n) == Run(START, before).nextId;
    forall i | 0 <= i < n ensures ThrewAt(before, i) == ThrewAt(ops, i) && IssuedAt(before, i) == IssuedAt(ops, i) {
      assert before[..i] == ops[..i];
    }
  }

  lemma NothingFailed(id: nat)
    ensures !Failed(Run(START, []), id)
  {
  }

  /** No id is open and settled at once if and only if no send that threw is still open. */
  lemma NeverBothIff(ops: seq<Op>)
    ensures Exclusive(Run(START, ops)) <==>
            forall i | 0 <= i < |ops| && ThrewAt(ops, i) :: IssuedAt(ops, i) !in Run(START, ops).pending
  {
    hide Run, ThrewAt, IssuedAt, Ids;
    var s := Run(START, ops);
    EveryReachableStateKeeps(ops);
    forall id: nat ensures Failed(s, id) <==> exists i :: 0 <= i < |ops| && ThrewAt(ops, i) && IssuedAt(ops, i) == id {
      FailedByThrowing(ops, id);
    }
    forall id: nat ensures Failed(s, id) ==> id in Ids(s.settled) {
      FailedIsSettled(s, id);
    }
    if i: nat :| i < |ops| && ThrewAt(ops, i) && IssuedAt(ops, i) in s.pending {
      assert Failed(s, IssuedAt(ops, i));
    }
    if id: nat :| id in s.pending && id in Ids(s.settled) {
      assert Failed(s, id);
    }
  }

  lemma FailedIsSettled(s: State, id: nat)
    ensures Failed(s, id) ==> id in Ids(s.settled)
  {
  }

  // ---------------------------------------------------------------- a response settles its own request

  /** How the first answer to `id` ends it. */
  function FirstFor(answers: seq<Answer>, id: nat): Option<Option<Outcome>> {
    if answers == [] then None
    else if answers[0].id == id then Some(answers[0].outcome)
    else FirstFor(answers[1..], id)
  }

  /**
   * What becomes of `id` between `s` and `t`: nothing when there is no answer, else it is closed and settled by it,
   * unless the answer has no outcome; a promise settled before stays as it is.
   */
  ghost predicate Follows(s: State, t: State, id: nat, answer: Option<Option<Outcome>>) {
    match answer
    case None =>
      && (id in t.pending <==> id in s.pending)
      && forall o :: Settlement(id, o) in t.settled <==> Settlement(id, o) in s.settled
    case Some(None) =>
      && id !in t.pending
      && forall o :: Settlement(id, o) in t.settled <==> Settlement(id, o) in s.settled
    case Some(Some(outcome)) =>
      && id !in t.pending
      && forall o :: Settlement(id, o) in t.settled <==>
           if id in Ids(s.settled) then Settlement(id, o) in s.settled else o == outcome
  }

  function AnswerFor(s: State, answers: seq<Answer>, id: nat): Option<Option<Outcome>> {
    if id in s.pending then FirstFor(answers, id) else None
  }

  lemma {:induction false} AnswersSettleTheirOwn(s: State, answers: seq<Answer>, id: nat)
    requires Inv(s)
    ensures Follows(s, TakeAnswers(s, answers), id, AnswerFor(s, answers, id))
    ensures TakeAnswers(s, answers).nextId == s.nextId
    decreases |answers|
  {
    hide Without, Ids, Record;
    if answers != [] {
      var a := answers[0];
      TakeAnswerKeeps(s, a);
      if a.id in s.pending {
        WithoutElements(s.pending, a.id);
        NotYetSettled(s, a.id);
        if a.outcome.Some? {
          RecordKeeps(s.settled, a.id, a.outcome.value);
        }
      }
      AnswersSettleTheirOwn(TakeAnswer(s, a), answers[1..], id);
    }
  }

  lemma NotYetSettled(s: State, id: nat)
    ensures id in Ids(s.settled) <==> exists o :: Settlement(id, o) in s.settled
  {
    if id in Ids(s.settled) {
      var x :| x in s.settled && x.id == id;
      assert Settlement(id, x.outcome) in s.settled;
    }
  }

  /**
   * After a chunk, an open request is closed exactly when a complete line answers it, and settled as the first
   * such line says, if it says anything that has a text; no other id's record changes.
   */
  lemma DataSettlesTheAnswered(s: State, chunk: string, id: nat)
    requires Inv(s)
    ensures Follows(s, Step(s, Data(chunk)), id, AnswerFor(s, Answers(Complete(s.buffer + chunk)), id))
    ensures Step(s, Data(chunk)).nextId == s.nextId
  {
    hide AnswerOf, Complete, Unfinished, Collect, TakeAnswers, FirstFor, Ids;
    var text := s.buffer + chunk;
    UnfinishedHasNoNewline(text);
    AnswersSettleTheirOwn(s.(buffer := Unfinished(text)), Answers(Complete(text)), id);
  }

  // ---------------------------------------------------------------- requests that end without an answer

  /** A firing timer closes its request and rejects it as timed out, unless it was settled before. */
  lemma TimeoutMeans(s: State, id: nat)
    requires Inv(s)
    ensures var t := Step(s, Timeout(id));
            if id !in s.timers then t == s
            else
              && t == s.(pending := t.pending, timers := s.timers - {id}, settled := t.settled)
              && (forall x: nat :: x in t.pending <==> x in s.pending && x != id)
              && t.settled == s.settled + if exists o :: Settlement(id, o) in s.settled then [] else [Settlement(id, TimedOut)]
  {
    hide Without, Ids;
    WithoutElements(s.pending, id);
    NotYetSettled(s, id);
  }

  lemma {:induction false} RecordAllNew(settled: seq<Settlement>, ids: seq<nat>, outcome: Outcome)
    requires InOrder(ids) && forall id: nat :: id in ids ==> id !in Ids(settled)
    ensures RecordAll(settled, ids, outcome) == settled + AllWith(ids, outcome)
  {
    hide Ids;
    if ids != [] {
      var n := |ids| - 1;
      RecordAllNew(settled, ids[..n], outcome);
      IdsMore(settled, AllWith(ids[..n], outcome));
      NotAmong(AllWith(ids[..n], outcome), ids, n);
      assert ids[n] in ids;
      assert AllWith(ids, outcome) == AllWith(ids[..n], outcome) + [Settlement(ids[n], outcome)];
    }
  }

  function AllWith(ids: seq<nat>, outcome: Outcome): (r: seq<Settlement>)
    ensures |r| == |ids| && forall i :: 0 <= i < |ids| ==> r[i] == Settlement(ids[i], outcome)
  {
    seq(|ids|, i requires 0 <= i < |ids| => Settlement(ids[i], outcome))
  }

  lemma NotAmong(more: seq<Settlement>, ids: seq<nat>, n: nat)
    requires InOrder(ids) && |ids| == n + 1 && |more| == n && forall i :: 0 <= i < n ==> more[i].id == ids[i]
    ensures ids[n] !in Ids(more)
  {
  }

  /** On exit all open requests are rejected in the order they were made; on disconnect likewise. */
  lemma EndMeans(s: State, op: Op)
    requires Inv(s) && Exclusive(s) && (op.Exit? || op.Disconnect?)
    ensures var outcome := if op.Exit? then Exited else Disconnected;
            Step(s, op) == s.(pending := [], timers := {}, running := false,
                              settled := s.settled + AllWith(s.pending, outcome))
  {
    hide RecordAll, Ids;
    RecordAllNew(s.settled, s.pending, if op.Exit? then Exited else Disconnected);
  }

  // ---------------------------------------------------------------- requests that are lost

  /** Issued, but neither open nor settled: its caller waits for ever. */
  ghost predicate Lost(s: State, id: nat) {
    1 <= id < s.nextId && id !in s.pending && id !in Ids(s.settled)
  }

  /** A chunk whose first answer to an open request that is not settled yet is an error without text. */
  ghost predicate Loses(s: State, op: Op, id: nat) {
    && op.Data? && id in s.pending && id !in Ids(s.settled)
    && AnswerFor(s, Answers(Complete(s.buffer + op.chunk)), id) == Some(None)
  }

  lemma FollowsLoses(s: State, t: State, id: nat, answer: Option<Option<Outcome>>)
    requires Follows(s, t, id, answer) && s.nextId == t.nextId && (answer.Some? ==> id in s.pending)
    ensures Lost(t, id) <==> Lost(s, id) || (1 <= id < s.nextId && id !in Ids(s.settled) && answer == Some(None))
  {
    hide Ids;
    NotYetSettled(s, id);
    NotYetSettled(t, id);
    match answer
    case Some(Some(outcome)) =>
      assert Settlement(id, outcome) in t.settled || id in Ids(s.settled);
    case _ =>
  }

  lemma DataLoses(s: State, op: Op, id: nat)
    requires Inv(s) && op.Data?
    ensures Lost(Step(s, op), id) <==> Lost(s, id) || Loses(s, op, id)
  {
    hide Ids, AnswerOf, Complete, Collect, Step, FirstFor, Follows;
    DataSettlesTheAnswered(s, op.chunk, id);
    FollowsLoses(s, Step(s, op), id, AnswerFor(s, Answers(Complete(s.buffer + op.chunk)), id));
  }

  lemma SettleLosesNothing(s: State, t: nat, outcome: Outcome, id: nat)
    requires Inv(s) && t in s.pending
    ensures Lost(Settle(s, t, outcome), id) <==> Lost(s, id)
  {
    hide Ids, Without, Record;
    WithoutElements(s.pending, t);
    RecordKeeps(s.settled, t, outcome);
  }

  lemma AllLosesNothing(s: State, outcome: Outcome, id: nat)
    requires Inv(s)
    ensures Lost(SettleAll(s, outcome), id) <==> Lost(s, id)
  {
    hide Ids, RecordAll;
    RecordAllKeeps(s.settled, s.pending, outcome);
  }

  lemma IssueLosesNothing(s: State, name: string, params: Params, id: nat)
    requires Inv(s)
    ensures Lost(Issue(s, name, params), id) <==> Lost(s, id)
  {
    hide Ids, Record, Print;
    RecordKeeps(s.settled, s.nextId, SendFailed);
  }

  /** Only such a chunk loses a request, and what is lost stays so. */
  lemma StepLoses(s: State, op: Op, id: nat)
    requires Inv(s)
    ensures Lost(Step(s, op), id) <==> Lost(s, id) || Loses(s, op, id)
  {
    hide Ids, Issue, Settle, SettleAll, TakeData, AnswerFor, Print;
    match op
    case Send(name, params) => IssueLosesNothing(s, name, params, id);
    case Data(_) => DataLoses(s, op, id);
    case Timeout(t) =>
      if t in s.timers {
        SettleLosesNothing(s, t, TimedOut, id);
      }
    case Exit => AllLosesNothing(s, Exited, id);
    case Disconnect => AllLosesNothing(s, Disconnected, id);
    case _ =>
  }

  /** No timeout, exit or disconnect ever settles a lost request. */
  lemma {:induction false} LostForEver(s: State, ops: seq<Op>, id: nat)
    requires Inv(s) && Lost(s, id)
    ensures Lost(Run(s, ops), id)
    decreases |ops|
  {
    hide Inv, Lost, Step;
    if ops != [] {
      StepKeeps(s, ops[0]);
      StepLoses(s, ops[0], id);
      LostForEver(Step(s, ops[0]), ops[1..], id);
    }
  }

  /** Step `i` of the run loses `id`. */
  ghost predicate LostAt(ops: seq<Op>, i: nat, id: nat)
    requires i < |ops|
  {
    Loses(Run(START, ops[..i]), ops[i], id)
  }

  lemma {:induction false} LostByAnswer(ops: seq<Op>, id: nat)
    ensures Lost(Run(START, ops), id) <==> exists i :: 0 <= i < |ops| && LostAt(ops, i, id)
  {
    hide Step, Run, Inv, Lost, Loses;
    if ops == [] {
      NothingLost(id);
    } else {
      var n := |ops| - 1;
      var before := ops[..n];
      assert ops == before + [ops[n]];
      EveryReachableStateKeeps(before);
      RunMore(START, before, ops[n]);
      LostByAnswer(before, id);
      StepLoses(Run(START, before), ops[n], id);
      forall i | 0 <= i < n ensures LostAt(before, i, id) == LostAt(ops, i, id) {
        assert before[..i] == ops[..i];
      }
      assert LostAt(ops, n, id) <==> Loses(Run(START, before), ops[n], id);
    }
  }

  lemma NothingLost(id: nat)
    ensures !Lost(Run(START, []), id)
  {
  }

  /** After every run: an issued id is open or settled if and only if no error without text answered it first. */
  lemma OpenOrSettledIff(ops: seq<Op>, id: nat)
    requires 1 <= id < Run(START, ops).nextId
    ensures var s := Run(START, ops);
            id in s.pending || id in Ids(s.settled) <==> forall i | 0 <= i < |ops| :: !LostAt(ops, i, id)
  {
    hide Run, Ids, LostAt;
    LostByAnswer(ops, id);
  }

  /** Open with a live timer or settled, and never both. */
  ghost predicate ExactlyOne(s: State, id: nat) {
    && (id in s.pending <==> id !in Ids(s.settled))
    && (id in s.timers <==> id in s.pending)
  }

  lemma ExactlyOneSplits(s: State)
    requires Inv(s)
    ensures (forall id: nat | 1 <= id < s.nextId :: ExactlyOne(s, id)) <==>
            Exclusive(s) && forall id: nat | 1 <= id < s.nextId :: id in s.pending || id in Ids(s.settled)
  {
    hide Ids;
    if forall id: nat | 1 <= id < s.nextId :: ExactlyOne(s, id) {
      forall id: nat | id in s.pending ensures id !in Ids(s.settled) {
        assert ExactlyOne(s, id);
      }
      forall id: nat | 1 <= id < s.nextId ensures id in s.pending || id in Ids(s.settled) {
        assert ExactlyOne(s, id);
      }
    }
  }

  /**
   * After every run: each issued id is open with a live timer or settled, never both, if and only if no send that
   * threw is still open and no open request was answered first by an error without text.
   */
  lemma ExactlyOneIff(ops: seq<Op>)
    ensures var s := Run(START, ops);
            (forall id: nat | 1 <= id < s.nextId :: ExactlyOne(s, id)) <==>
            && (forall i | 0 <= i < |ops| && ThrewAt(ops, i) :: IssuedAt(ops, i) !in s.pending)
            && (forall i, id: nat | 0 <= i < |ops| && 1 <= id < s.nextId :: !LostAt(ops, i, id))
  {
    hide Run, Ids, Inv, Exclusive, ExactlyOne, LostAt, ThrewAt, IssuedAt;
    var s := Run(START, ops);
    EveryReachableStateKeeps(ops);
    ExactlyOneSplits(s);
    NeverBothIff(ops);
    forall id: nat | 1 <= id < s.nextId
      ensures id in s.pending || id in Ids(s.settled) <==> forall i | 0 <= i < |ops| :: !LostAt(ops, i, id)
    {
      OpenOrSettledIff(ops, id);
    }
    if i: nat, id: nat :| i < |ops| && 1 <= id < s.nextId && LostAt(ops, i, id) {
      assert id !in s.pending && id !in Ids(s.settled);
    }
  }

  /** After exit or disconnect nothing is open and every request is settled but the lost ones. */
  lemma ExitSettlesAll(ops: seq<Op>, last: Op)
    requires last.Exit? || last.Disconnect?
    ensures var s := Step(Run(START, ops), last);
            && s.pending == [] && s.timers == {}
            && forall id: nat | 1 <= id < s.nextId ::
                 id in Ids(s.settled) <==> forall i | 0 <= i < |ops| :: !LostAt(ops, i, id)
  {
    hide Run, Ids, Record, RecordAll, Loses, LostAt;
    var s := Run(START, ops);
    EveryReachableStateKeeps(ops);
    StepKeeps(s, last);
    forall id: nat | 1 <= id < s.nextId
      ensures id in Ids(Step(s, last).settled) <==> forall i | 0 <= i < |ops| :: !LostAt(ops, i, id)
    {
      LostByAnswer(ops, id);
      AllLosesNothing(s, if last.Exit? then Exited else Disconnected, id);
    }
  }

  // ---------------------------------------------------------------- chunk boundaries

  lemma CompleteMore(first: string, rest: string)
    requires NEWLINE !in first
    ensures Complete(first + "\n" + rest) == [first] + Complete(rest)
    ensures Unfinished(first + "\n" + rest) == Unfinished(rest)
  {
    LinesMore(first, rest);
    assert Lines(first + "\n" + rest)[1..] == Lines(rest);
  }

  lemma {:induction false} CompleteResumes(a: string, b: string)
    ensures Complete(a + b) == Complete(a) + Complete(Unfinished(a) + b)
    ensures Unfinished(a + b) == Unfinished(Unfinished(a) + b)
    decreases |a|
  {
    var i := IndexOf(a, NEWLINE);
    if i < |a| {
      CompleteResumes(a[i + 1..], b);
      assert a == a[..i] + "\n" + a[i + 1..];
      ResumesAfter(a[..i], a[i + 1..], b);
    } else {
      LinesOne(a);
    }
  }

  lemma ResumesAfter(first: string, rest: string, b: string)
    requires NEWLINE !in first
    requires Complete(rest + b) == Complete(rest) + Complete(Unfinished(rest) + b)
    requires Unfinished(rest + b) == Unfinished(Unfinished(rest) + b)
    ensures var a := first + "\n" + rest;
            && Complete(a + b) == Complete(a) + Complete(Unfinished(a) + b)
            && Unfinished(a + b) == Unfinished(Unfinished(a) + b)
  {
    assert first + "\n" + rest + b == first + "\n" + (rest + b);
    CompleteMore(first, rest);
    CompleteMore(first, rest + b);
  }

  lemma {:induction false} BufferApart(s: State, answers: seq<Answer>, buffer: string)
    ensures TakeAnswers(s.(buffer := buffer), answers) == TakeAnswers(s, answers).(buffer := buffer)
    ensures TakeAnswers(s, answers).buffer == s.buffer
    decreases |answers|
  {
    if answers != [] {
      BufferApart(TakeAnswer(s, answers[0]), answers[1..], buffer);
    }
  }

  lemma TextResumes(read: string -> Option<Answer>, s: State, a: string, b: string)
    ensures TakeText(read, s, a).buffer == Unfinished(a)
    ensures TakeText(read, TakeText(read, s, a), Unfinished(a) + b) == TakeText(read, s, a + b)
  {
    var first, second := Collect(read, Complete(a)), Collect(read, Complete(Unfinished(a) + b));
    CompleteResumes(a, b);
    CollectAppend(read, Complete(a), Complete(Unfinished(a) + b));
    AnswersAppend(s, first, second);
    BufferApart(s, first + second, Unfinished(a + b));
    BufferApart(s, first, Unfinished(a));
    BufferApart(TakeAnswers(s, first), second, Unfinished(a));
    BufferApart(TakeAnswers(s, first).(buffer := Unfinished(a)), second, Unfinished(a + b));
  }

  /** Two chunks do what one chunk with the same text does. */
  lemma TwoChunks(s: State, a: string, b: string)
    ensures TakeData(TakeData(s, a), b) == TakeData(s, a + b)
  {
    hide AnswerOf, TakeText, Unfinished;
    var text := s.buffer + a;
    assert s.buffer + (a + b) == text + b;
    TextResumes(AnswerOf, s, text, b);
    assert TakeData(s, a).buffer == Unfinished(text);
  }

  function Chunks(chunks: seq<string>): seq<Op> {
    if chunks == [] then [] else [Data(chunks[0])] + Chunks(chunks[1..])
  }

  lemma EmptyChunk(s: State)
    requires NEWLINE !in s.buffer
    ensures TakeData(s, "") == s
  {
    hide AnswerOf;
    assert s.buffer + "" == s.buffer;
    LinesOne(s.buffer);
  }

  /** How the child's output is cut into chunks does not matter. */
  lemma {:induction false} ChunksDoNotMatter(s: State, chunks: seq<string>)
    requires Inv(s)
    ensures Run(s, Chunks(chunks)) == Step(s, Data(Concat(chunks)))
    decreases |chunks|
  {
    hide TakeData, AnswerOf;
    if chunks == [] {
      EmptyChunk(s);
    } else {
      StepKeeps(s, Data(chunks[0]));
      ChunksDoNotMatter(Step(s, Data(chunks[0])), chunks[1..]);
      TwoChunks(s, chunks[0], Concat(chunks[1..]));
      assert Chunks(chunks)[1..] == Chunks(chunks[1..]);
    }
  }

  // ---------------------------------------------------------------- a request and its reply

  function Reply(id: Value, key: string, value: Value): Value {
    Object([Member("jsonrpc", Str("2.0")), Member("id", id), Member(key, value)])
  }

  function ReplyOutcome(key: string, value: Value): Option<Outcome> {
    if key != "error" then Some(Resolved(Some(value)))
    else if NoMessage(value) then None
    else Some(ServerError(value))
  }

  /** One message is one line, and trimming leaves it alone. */
  lemma MessageLine(v: Value)
    requires Valid(v)
    ensures NEWLINE !in Print(v) && ParseText(Trim(Print(v))) == Some(v)
    ensures Complete(Print(v) + "\n") == [Print(v)] && Unfinished(Print(v) + "\n") == ""
  {
    PrintPrintable(v);
    PrintStart(v);
    PrintEnd(v);
    TrimEndVisible(Print(v));
    RoundTrip(v);
    LinesMore(Print(v), "");
    LinesOne("");
    assert Print(v) + "\n" + "" == Print(v) + "\n";
  }

  lemma ReplyAnswers(id: nat, key: string, value: Value)
    requires id > 0 && Valid(value) && (key == "result" || (key == "error" && Truthy(value)))
    ensures Valid(Reply(Number(Decimal(id)), key, value))
    ensures AnswerOf(Print(Reply(Number(Decimal(id)), key, value)))
         == Some(Answer(id, ReplyOutcome(key, value)))
  {
    hide Print, ParseText, Trim, PositiveInteger, Decimal, IsNumberText, NumberOf, Lookup, NoMessage;
    var v := Reply(Number(Decimal(id)), key, value);
    DecimalIsNumber(id);
    MessageLine(v);
    NumberOfDecimal(id);
    LookupReply(Number(Decimal(id)), key, value);
  }

  lemma LookupReply(id: Value, key: string, value: Value)
    requires key == "result" || key == "error"
    ensures var ms := Reply(id, key, value).members;
            Lookup(ms, "id") == Some(id) && Lookup(ms, key) == Some(value)
            && (key == "result" ==> Lookup(ms, "error") == None)
  {
    var ms := Reply(id, key, value).members;
    assert ms[2..] == [Member(key, value)] && ms[1..] == [Member("id", id)] + ms[2..];
    assert Lookup([Member(key, value)], key) == Some(value);
    assert key == "result" ==> Lookup([Member(key, value)], "error") == None by { assert "result" != "error"; }
    LookupFirst(Member("jsonrpc", Str("2.0")), ms[1..], key);
    LookupFirst(Member("jsonrpc", Str("2.0")), ms[1..], "error");
    LookupFirst(Member("id", id), ms[2..], key);
    LookupFirst(Member("id", id), ms[2..], "error");
  }

  lemma LookupFirst(m: Member, ms: seq<Member>, key: string)
    ensures Lookup([m] + ms, key) == if m.key == key then Some(m.value) else Lookup(ms, key)
  {
    assert ([m] + ms)[1..] == ms;
  }

  lemma DecimalIsNumber(n: nat)
    requires n > 0
    ensures IsNumberText(Decimal(n))
  {
    var s := Decimal(n);
    assert s[0] in s;
    DigitRunOf(s, "");
    assert s + "" == s;
  }

  /** The id a request carries on the wire. */
  lemma RequestReadsBack(id: nat, name: string, params: Value)
    requires id > 0 && Valid(params)
    ensures Valid(Request(id, name, params))
    ensures Lookup(Request(id, name, params).members, "id") == Some(Number(Decimal(id)))
  {
    DecimalIsNumber(id);
    var ms := Request(id, name, params).members;
    LookupFirst(ms[0], ms[1..], "id");
    assert ms[1..] == [ms[1]] + ms[2..] && ms[2..] == [ms[2]] + ms[3..];
    LookupFirst(ms[1], ms[2..], "id");
    LookupFirst(ms[2], ms[3..], "id");
  }

  /** A request to a running process is written as one line, from which the request reads back. */
  lemma RequestIsOneLine(s: State, name: string, params: Value)
    requires s.running && s.nextId > 0 && Valid(params)
    ensures s.sent <= Step(s, Send(name, Printable(params))).sent
    ensures var written := Step(s, Send(name, Printable(params))).sent[|s.sent|..];
            Unfinished(written) == "" && |Complete(written)| == 1
            && ParseText(Complete(written)[0]) == Some(Object([
                 Member("jsonrpc", Str("2.0")), Member("method", Str(name)), Member("params", params),
                 Member("id", Number(Decimal(s.nextId)))]))
  {
    RequestReadsBack(s.nextId, name, params);
    OneMessage(s.sent, Request(s.nextId, name, params), Step(s, Send(name, Printable(params))).sent);
  }

  /** A notification is one, too, and carries no id. */
  lemma NotificationIsOneLine(s: State, name: string, content: Value)
    requires s.running && Valid(content)
    ensures s.sent <= Step(s, Notify(name, content)).sent
    ensures var written := Step(s, Notify(name, content)).sent[|s.sent|..];
            Unfinished(written) == "" && |Complete(written)| == 1
            && ParseText(Complete(written)[0]) == Some(Object([
                 Member("jsonrpc", Str("2.0")), Member("method", Str(name)), Member("params", content)]))
  {
    OneMessage(s.sent, Notification(name, content), Step(s, Notify(name, content)).sent);
  }

  /** Sending opens a request with a live timer in any case; without a process nothing is written. */
  lemma SendOpens(s: State, name: string, params: Params)
    ensures var t := Step(s, Send(name, params));
            && t.nextId == s.nextId + 1 && t.pending == s.pending + [s.nextId] && t.timers == s.timers + {s.nextId}
            && t.buffer == s.buffer && t.running == s.running
            && (!s.running ==> t.sent == s.sent && t.settled == s.settled)
            && (params.Printable? ==> t.settled == s.settled) && (params.Unprintable? ==> t.sent == s.sent)
    ensures !s.running ==> forall content :: Step(s, Notify(name, content)) == s
  {
    hide Record, Ids, Print;
  }

  lemma OneMessage(before: string, v: Value, after: string)
    requires Valid(v) && after == before + Print(v) + "\n"
    ensures Complete(after[|before|..]) == [Print(v)] && Unfinished(after[|before|..]) == ""
    ensures ParseText(Print(v)) == Some(v)
  {
    assert after[|before|..] == Print(v) + "\n";
    MessageLine(v);
    RoundTrip(v);
  }

  /**
   * A reply with a request's id closes this request and nothing else; it settles it with the reply's result or error,
   * unless the error has no text.
   */
  lemma ReplySettlesItsRequest(s: State, id: nat, key: string, value: Value)
    requires Inv(s) && s.buffer == "" && id in s.pending && Valid(value)
    requires key == "result" || (key == "error" && Truthy(value))
    ensures Step(s, Data(Print(Reply(Number(Decimal(id)), key, value)) + "\n"))
         == if key == "error" && NoMessage(value) then Forget(s, id)
            else Settle(s, id, if key == "error" then ServerError(value) else Resolved(Some(value)))
  {
    hide NoMessage, Print, AnswerOf;
    ReplyAnswers(id, key, value);
    var reply := Reply(Number(Decimal(id)), key, value);
    MessageLine(reply);
    StepOfLine(s, Print(reply), AnswerOf(Print(reply)));
  }

  /** `code` is an object with a member `toString`, which hides the inherited function. */
  const TEXTLESS := Object([Member("code", Object([Member("toString", Number("1"))]))])

  /** A client's first request, answered by this error, is never settled, whatever comes after. */
  lemma FirstRequestIsLost(name: string, params: Value, more: seq<Op>)
    requires Valid(params)
    ensures var s := Step(Step(START, Spawn), Send(name, Printable(params)));
            Lost(Run(Step(s, Data(Print(Reply(Number("1"), "error", TEXTLESS)) + "\n")), more), 1)
  {
    hide Print, Run, Ids, NoMessage;
    var s := Step(Step(START, Spawn), Send(name, Printable(params)));
    EveryReachableStateKeeps([]);
    NoIds();
    assert Decimal(1) == "1";
    TextlessHasNoMessage();
    StepKeeps(Step(START, Spawn), Send(name, Printable(params)));
    ReplySettlesItsRequest(s, 1, "error", TEXTLESS);
    ForgetKeeps(s, 1);
    LostForEver(Forget(s, 1), more, 1);
  }

  lemma TextlessHasNoMessage()
    ensures Valid(TEXTLESS) && NoMessage(TEXTLESS)
  {
    var shown := [Member("toString", Number("1"))];
    assert Lookup(shown, "toString") == Some(Number("1"));
    assert Lookup(TEXTLESS.members, "code") == Some(Object(shown));
  }

  /** A reply whose id is the request's number written as a string, or null, is dropped. */
  lemma OtherIdTypesAreDropped(s: State, id: Value, value: Value)
    requires s.buffer == "" && Valid(id) && Valid(value) && !id.Number?
    ensures Step(s, Data(Print(Reply(id, "result", value)) + "\n")) == s
  {
    OtherIdAnswersNothing(id, value);
    var reply := Reply(id, "result", value);
    MessageLine(reply);
    StepOfLine(s, Print(reply), None);
  }

  lemma OtherIdAnswersNothing(id: Value, value: Value)
    requires Valid(id) && Valid(value) && !id.Number?
    ensures Valid(Reply(id, "result", value))
    ensures AnswerOf(Print(Reply(id, "result", value))) == None
  {
    hide AnswerOf, Print, Lookup, ParseText, Trim;
    var reply := Reply(id, "result", value);
    MessageLine(reply);
    LookupReply(id, "result", value);
    NoAnswer(Print(reply), reply, id);
  }

  lemma {:induction false} LookupIs(ms: seq<Member>, key: string, v: Value)
    requires DistinctKeys(ms)
    ensures Lookup(ms, key) == Some(v) <==> Member(key, v) in ms
  {
    if ms != [] {
      assert ms == [ms[0]] + ms[1..];
      LookupIs(ms[1..], key, v);
      if ms[0].key == key {
        assert forall m :: m in ms[1..] ==> m.key != key;
      }
    }
  }

  lemma LookupSome(ms: seq<Member>, key: string)
    requires DistinctKeys(ms)
    ensures Lookup(ms, key).Some? ==> Member(key, Lookup(ms, key).value) in ms
    ensures Lookup(ms, key).None? ==> forall v :: Member(key, v) !in ms
  {
    if Lookup(ms, key).Some? {
      LookupIs(ms, key, Lookup(ms, key).value);
    } else {
      forall v ensures Member(key, v) !in ms {
        LookupIs(ms, key, v);
      }
    }
  }

  /** A line answers a request if and only if it is an object whose `id` is a number with a positive integer value. */
  lemma LineAnswersIff(line: string)
    ensures AnswerOf(line).Some? <==>
            && ParseText(Trim(line)).Some? && ParseText(Trim(line)).value.Object?
            && exists l :: Member("id", Number(l)) in ParseText(Trim(line)).value.members && PositiveInteger(l).Some?
    ensures AnswerOf(line).Some? ==>
            var ms, n := ParseText(Trim(line)).value.members, AnswerOf(line).value.id;
            && (exists l :: Member("id", Number(l)) in ms && PositiveInteger(l) == Some(n))
            && AnswerOf(line).value.outcome == OutcomeOf(ms)
  {
    hide ParseText, Trim, PositiveInteger, OutcomeOf, Lookup;
    var v := ParseText(Trim(line));
    ParsedIsValid(Trim(line));
    if v.Some? && v.value.Object? {
      var ms := v.value.members;
      LookupSome(ms, "id");
      forall l | Member("id", Number(l)) in ms ensures Lookup(ms, "id") == Some(Number(l)) {
        LookupIs(ms, "id", Number(l));
      }
    }
  }

  /** An error that is not null, false, zero or empty decides; without one the result does, if there is any. */
  lemma OutcomeMeans(ms: seq<Member>, error: Value)
    requires DistinctKeys(ms)
    ensures var falsy := error in {Null, Bool(false), Str("")} || (error.Number? && NumberOf(error.literal) == Some(0.0));
            Member("error", error) in ms && !falsy ==>
              OutcomeOf(ms) == if NoMessage(error) then None else Some(ServerError(error))
    ensures var falsy := error in {Null, Bool(false), Str("")} || (error.Number? && NumberOf(error.literal) == Some(0.0));
            (Member("error", error) in ms && falsy) || (forall e :: Member("error", e) !in ms) ==>
              && (forall v :: OutcomeOf(ms) == Some(Resolved(Some(v))) <==> Member("result", v) in ms)
              && (OutcomeOf(ms) == Some(Resolved(None)) <==> forall v :: Member("result", v) !in ms)
  {
    hide Lookup, NoMessage, NumberOf;
    LookupSome(ms, "error");
    LookupIs(ms, "error", error);
    LookupSome(ms, "result");
    forall v ensures Lookup(ms, "result") == Some(v) <==> Member("result", v) in ms {
      LookupIs(ms, "result", v);
    }
  }

  /** Making the message throws exactly when one of its two members has no text. */
  lemma NoMessageIff(error: Value)
    requires Valid(error)
    ensures NoMessage(error) <==>
            error.Object? && exists m :: m in error.members && m.key in {"code", "message"} && NoText(m.value)
  {
    hide Lookup, NoText;
    if error.Object? {
      LookupSome(error.members, "code");
      LookupSome(error.members, "message");
      forall m | m in error.members ensures Lookup(error.members, m.key) == Some(m.value) {
        LookupIs(error.members, m.key, m.value);
      }
    }
  }

  /** Objects with their own `toString` have no text, nor have lists of such; everything else has. */
  lemma NoTextIff(v: Value)
    requires Valid(v)
    ensures NoText(v) <==>
            || (v.Object? && exists m :: m in v.members && m.key == "toString")
            || (v.Array? && exists x :: x in v.items && NoText(x))
  {
    hide Lookup;
    if v.Object? {
      LookupSome(v.members, "toString");
      forall m | m in v.members ensures Lookup(v.members, m.key) == Some(m.value) {
        LookupIs(v.members, m.key, m.value);
        assert m == Member(m.key, m.value);
      }
      assert Lookup(v.members, "toString").Some? ==> Member("toString", Lookup(v.members, "toString").value) in v.members;
    } else if v.Array? {
      if i :| 0 <= i < |v.items| && NoText(v.items[i]) {
        assert v.items[i] in v.items;
      }
      if x :| x in v.items && NoText(x) {
        var i :| 0 <= i < |v.items| && v.items[i] == x;
      }
    }
  }

  lemma NoAnswer(line: string, v: Value, id: Value)
    requires ParseText(Trim(line)) == Some(v) && v.Object? && Lookup(v.members, "id") == Some(id) && !id.Number?
    ensures AnswerOf(line) == None
  {
  }

  lemma StepOfLine(s: State, line: string, a: Option<Answer>)
    requires s.buffer == "" && Complete(line + "\n") == [line] && Unfinished(line + "\n") == "" && AnswerOf(line) == a
    ensures Step(s, Data(line + "\n")) == if a.Some? then TakeAnswer(s, a.value) else s
  {
    var chunk := line + "\n";
    assert Step(s, Data(chunk)) == TakeText(AnswerOf, s, chunk) by { EmptyBuffer(s, chunk); }
    OneLine(AnswerOf, s, line, a);
  }

  lemma EmptyBuffer(s: State, chunk: string)
    requires s.buffer == ""
    ensures Step(s, Data(chunk)) == TakeText(AnswerOf, s, chunk)
  {
    hide AnswerOf, TakeText;
    assert s.buffer + chunk == chunk;
  }

  lemma OneLine(read: string -> Option<Answer>, s: State, line: string, a: Option<Answer>)
    requires s.buffer == "" && Complete(line + "\n") == [line] && Unfinished(line + "\n") == "" && read(line) == a
    ensures TakeText(read, s, line + "\n") == if a.Some? then TakeAnswer(s, a.value) else s
  {
    assert s.(buffer := "") == s;
    assert Collect(read, [line]) == Listed(a) by { assert [line][1..] == []; }
    assert a.Some? ==> TakeAnswers(s, [a.value]) == TakeAnswer(s, a.value) by {
      assert a.Some? ==> [a.value][1..] == [];
    }
  }
}
