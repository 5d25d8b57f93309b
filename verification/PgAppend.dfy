/** The database store's insert-or-read append: two statements, no transaction around them. */
module PgAppend {
  import opened Json
  import opened EventLog

  /** Where a call for (run, seq) stands; a call that met a conflict has yet to read the row. */
  datatype Call =
    | Started(key: (string, int), content: Content)
    | Conflicted(key: (string, int), content: Content)
    | Answered(key: (string, int), content: Content, inserted: bool, event: Content)
    | Rejected

  /** A committed row; which call wrote it is recorded for the statements below only. */
  datatype Row = Row(content: Content, writer: int)

  /** Committed rows, and every call made so far. */
  datatype Db = Db(rows: map<(string, int), Row>, calls: map<int, Call>)

  datatype Action =
    | Begin(c: int, runId: string, seqNo: int, content: Content)
    | Insert(c: int)
    | Read(c: int)

  /**
   * One action. The insert does nothing on a conflict; the read then answers with the row found. None of the
   * store's operations removes a row.
   */
  ghost predicate Acts(s: Db, a: Action, t: Db) {
    match a
    case Begin(c, runId, seqNo, content) =>
      && c !in s.calls
      && t == s.(calls := s.calls[c := if seqNo < 0 then Rejected else Started((runId, seqNo), content)])
    case Insert(c) =>
      && c in s.calls && s.calls[c].Started?
      && var x := s.calls[c];
         t == if x.key in s.rows then s.(calls := s.calls[c := Conflicted(x.key, x.content)])
              else Db(s.rows[x.key := Row(x.content, c)], s.calls[c := Answered(x.key, x.content, true, x.content)])
    case Read(c) =>
      && c in s.calls && s.calls[c].Conflicted? && s.calls[c].key in s.rows
      && var x := s.calls[c];
         t == s.(calls := s.calls[c := Answered(x.key, x.content, false, s.rows[x.key].content)])
  }

  /** Only a negative seq is rejected; every other call can go on to insert or, on a conflict, to read. */
  lemma BeginMeans(s: Db, c: int, runId: string, seqNo: int, content: Content, t: Db)
    requires Acts(s, Begin(c, runId, seqNo, content), t)
    ensures t.rows == s.rows && c in t.calls
    ensures t.calls[c] == Rejected <==> seqNo < 0
    ensures seqNo >= 0 ==> exists u :: Acts(t, Insert(c), u)
  {
    if seqNo >= 0 {
      var x := t.calls[c];
      var u := if x.key in t.rows then t.(calls := t.calls[c := Conflicted(x.key, x.content)])
               else Db(t.rows[x.key := Row(x.content, c)], t.calls[c := Answered(x.key, x.content, true, x.content)]);
      assert Acts(t, Insert(c), u);
    }
  }

  /** A call keeps its run, seq and content, and an answer stays. */
  lemma CallsKeep(s: Db, a: Action, t: Db, c: int)
    requires Acts(s, a, t) && c in s.calls
    ensures c in t.calls && (s.calls[c].Answered? || s.calls[c].Rejected? ==> t.calls[c] == s.calls[c])
    ensures s.calls[c].Rejected? <==> t.calls[c].Rejected?
    ensures !s.calls[c].Rejected? ==> t.calls[c].key == s.calls[c].key && t.calls[c].content == s.calls[c].content
    ensures a.c != c ==> t.calls[c] == s.calls[c]
  {
  }

  /** In every run a call stands under the run, seq and content it was begun with. */
  lemma {:induction false} BegunWith(states: seq<Db>, actions: seq<Action>, i: nat, c: int) returns (j: nat)
    requires IsRun(states, actions) && i <= |actions| && c in states[i].calls
    ensures j < i && actions[j].Begin? && actions[j].c == c
    ensures states[i].calls[c].Rejected? <==> actions[j].seqNo < 0
    ensures actions[j].seqNo >= 0 ==>
              && states[i].calls[c].key == (actions[j].runId, actions[j].seqNo)
              && states[i].calls[c].content == actions[j].content
  {
    hide Acts;
    if c in states[i - 1].calls {
      j := BegunWith(states, actions, i - 1, c);
      CallsKeep(states[i - 1], actions[i - 1], states[i], c);
    } else {
      j := i - 1;
      NewCall(states[j], actions[j], states[i], c);
    }
  }

  lemma NewCall(s: Db, a: Action, t: Db, c: int)
    requires Acts(s, a, t) && c !in s.calls && c in t.calls
    ensures a.Begin? && a.c == c && (t.calls[c].Rejected? <==> a.seqNo < 0)
    ensures a.seqNo >= 0 ==> t.calls[c].key == (a.runId, a.seqNo) && t.calls[c].content == a.content
  {
  }

  predicate Inserter(s: Db, c: int) {
    c in s.calls && s.calls[c].Answered? && s.calls[c].inserted
  }

  /** A row's writer was told that it inserted, nobody else was, and everyone answered was told the row's content. */
  ghost predicate Inv(s: Db) {
    && (forall k :: k in s.rows ==> k.1 >= 0 && Inserter(s, s.rows[k].writer) && s.calls[s.rows[k].writer].key == k)
    && (forall c :: c in s.calls ==> CallInv(s, c, s.calls[c]))
  }

  predicate CallInv(s: Db, c: int, x: Call) {
    match x
    case Started(key, _) => key.1 >= 0
    case Conflicted(key, _) => key in s.rows
    case Answered(key, content, inserted, event) =>
      && key in s.rows && event == s.rows[key].content
      && (inserted <==> s.rows[key].writer == c)
      && (inserted ==> event == content)
    case Rejected => true
  }

  lemma ActionKeeps(s: Db, a: Action, t: Db)
    requires Inv(s) && Acts(s, a, t)
    ensures Inv(t)
  {
    match a
    case Begin(_, _, _, _) =>
    case Insert(c) => InsertKeeps(s, c, t);
    case Read(c) =>
  }

  lemma InsertKeeps(s: Db, c: int, t: Db)
    requires Inv(s) && Acts(s, Insert(c), t)
    ensures Inv(t)
  {
  }

  ghost predicate IsRun(states: seq<Db>, actions: seq<Action>) {
    && |states| == |actions| + 1 && states[0] == Db(map[], map[])
    && forall i :: 0 <= i < |actions| ==> Acts(states[i], actions[i], states[i + 1])
  }

  /**
   * However calls interleave, each stored (run, seq) has exactly one call that was told it inserted, the row holds
   * that call's content, and every other call answered for it was told the stored event.
   */
  lemma {:induction false} OneInserterEach(states: seq<Db>, actions: seq<Action>, i: nat)
    requires IsRun(states, actions) && i <= |actions|
    ensures Inv(states[i])
  {
    hide Inv, Acts;
    if i == 0 {
      NothingStored();
    } else {
      OneInserterEach(states, actions, i - 1);
      ActionKeeps(states[i - 1], actions[i - 1], states[i]);
    }
  }

  lemma NothingStored()
    ensures Inv(Db(map[], map[]))
  {
  }

  /** The read after a conflict always finds a row, and rows never change. */
  lemma ConflictFindsRow(s: Db, c: int)
    requires Inv(s) && c in s.calls && s.calls[c].Conflicted?
    ensures exists t :: Acts(s, Read(c), t)
    ensures forall a, t :: Acts(s, a, t) ==> forall k :: k in s.rows ==> k in t.rows && t.rows[k] == s.rows[k]
  {
    var x := s.calls[c];
    assert Acts(s, Read(c), s.(calls := s.calls[c := Answered(x.key, x.content, false, s.rows[x.key].content)]));
  }
}
