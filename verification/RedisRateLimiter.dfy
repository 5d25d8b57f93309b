/** The sliding-window script on a shared sorted set, and that it decides like the in-memory limiter. */
module RedisRateLimiter {
  import opened Text
  import opened RateLimiter

  /** A member `now-random` of the sorted set; the two numbers determine the text. */
  datatype Member = Member(now: int, random: nat)

  /** The sorted set under one key, by score, and when the key expires. */
  datatype KeyState = KeyState(scores: map<Member, int>, expiresAt: Option<int>)

  const EMPTY := KeyState(map[], None)

  /** The server drops a key whose time has come. */
  function Live(k: KeyState, clock: int): KeyState {
    if k.expiresAt.Some? && k.expiresAt.value <= clock then EMPTY else k
  }

  /** ZREMRANGEBYSCORE key 0 clearBefore; a set left empty is no key any more. */
  function Pruned(k: KeyState, clearBefore: int): KeyState {
    var kept := map m | m in k.scores && !(0 <= k.scores[m] <= clearBefore) :: k.scores[m];
    if kept == map[] then EMPTY else k.(scores := kept)
  }

  const EXPIRE_MS := (WINDOW / 1000 + 1) * 1000

  function Ready(k: KeyState, now: int): KeyState {
    Pruned(Live(k, now), now - WINDOW)
  }

  predicate ScriptGrants(k: KeyState, limit: int, now: int) {
    |Ready(k, now).scores| < limit
  }

  function AfterScript(k: KeyState, limit: int, now: int, random: nat): KeyState {
    var ready := Ready(k, now);
    if |ready.scores| < limit
    then KeyState(ready.scores[Member(now, random) := now], Some(now + EXPIRE_MS))
    else ready
  }

  /** The entry is in the set, the key has not expired, and the script does not prune the entry. */
  ghost predicate Counts(k: KeyState, m: Member, now: int) {
    m in k.scores && !(k.expiresAt.Some? && k.expiresAt.value <= now) && !(0 <= k.scores[m] <= now - 60_000)
  }

  ghost function Kept(k: KeyState, now: int): set<Member> {
    set m | m in k.scores && Counts(k, m, now)
  }

  lemma ReadyIsKept(k: KeyState, now: int)
    ensures Ready(k, now).scores.Keys == Kept(k, now) && |Ready(k, now).scores| == |Kept(k, now)|
    ensures forall m :: m in Kept(k, now) ==> m in k.scores && Ready(k, now).scores[m] == k.scores[m]
    ensures Ready(k, now).expiresAt == if Kept(k, now) == {} then None else k.expiresAt
  {
    var ready := Ready(k, now);
    assert forall m :: m in ready.scores <==> m in Kept(k, now);
    assert ready.scores.Keys == Kept(k, now);
    assert |ready.scores| == |ready.scores.Keys|;
  }

  lemma ReadyIs(k: KeyState, now: int, scores: map<Member, int>)
    requires var live := if k.expiresAt.Some? && k.expiresAt.value <= now then map[] else k.scores;
             scores == map m | m in live && !(0 <= live[m] <= now - WINDOW) :: live[m]
    ensures Ready(k, now) == if scores == map[] then EMPTY else KeyState(scores, k.expiresAt)
    ensures scores != map[] ==> !(k.expiresAt.Some? && k.expiresAt.value <= now)
  {
  }

  /** What one evaluation leaves: the entries that count, and one more with a new expiry if they are fewer than the limit. */
  lemma ScriptMeans(k: KeyState, limit: int, now: int, random: nat)
    ensures var t := AfterScript(k, limit, now, random);
            && (ScriptGrants(k, limit, now) <==> |Kept(k, now)| < limit)
            && t.scores.Keys == Kept(k, now) + (if ScriptGrants(k, limit, now) then {Member(now, random)} else {})
            && (forall m | m in t.scores ::
                  if ScriptGrants(k, limit, now) && m == Member(now, random) then t.scores[m] == now
                  else m in k.scores && t.scores[m] == k.scores[m])
            && t.expiresAt == if ScriptGrants(k, limit, now) then Some(now + 61_000)
                              else if t.scores == map[] then None else k.expiresAt
  {
    hide Ready, Kept;
    ReadyIsKept(k, now);
    var t := AfterScript(k, limit, now, random);
    assert t.scores == map[] <==> t.scores.Keys == {};
  }

  class RedisKey {
    var scores: map<Member, int>
    var expiresAt: Option<int>

    function Contents(): KeyState
      reads this
    {
      KeyState(scores, expiresAt)
    }

    constructor ()
      ensures Contents() == EMPTY
    {
      scores, expiresAt := map[], None;
    }

    /** One evaluation of the script; the server's clock and the caller's are the same. */
    method Eval(limit: int, now: int, random: nat) returns (r: int)
      modifies this
      ensures r == if ScriptGrants(old(Contents()), limit, now) then 1 else 0
      ensures Contents() == AfterScript(old(Contents()), limit, now, random)
      ensures r == (if |Kept(old(Contents()), now)| < limit then 1 else 0)
      ensures scores.Keys == Kept(old(Contents()), now) + if r == 1 then {Member(now, random)} else {}
      ensures forall m | m in scores ::
                if r == 1 && m == Member(now, random) then scores[m] == now
                else m in old(scores) && scores[m] == old(scores)[m]
      ensures expiresAt == if r == 1 then Some(now + 61_000) else if scores == map[] then None else old(expiresAt)
    {
      hide Kept, Counts, Ready;
      ghost var k := Contents();
      ScriptMeans(Contents(), limit, now, random);
      if expiresAt.Some? && expiresAt.value <= now {
        scores, expiresAt := map[], None;
      }
      var clearBefore := now - WINDOW;
      scores := map m | m in scores && !(0 <= scores[m] <= clearBefore) :: scores[m];
      ReadyIs(k, now, scores);
      if scores == map[] {
        expiresAt := None;
      }
      var count := |scores|;
      if count < limit {
        scores := scores[Member(now, random) := now];
        expiresAt := Some(now + EXPIRE_MS);
        return 1;
      } else {
        return 0;
      }
    }

    method TryAcquire(limit: int, now: int, random: nat) returns (granted: bool)
      modifies this
      ensures granted == ScriptGrants(old(Contents()), limit, now)
      ensures Contents() == AfterScript(old(Contents()), limit, now, random)
    {
      var r := Eval(limit, now, random);
      granted := r == 1;
    }
  }

  // ---------------------------------------------------------------- the same decisions

  datatype Call = Call(now: int, random: nat)

  function Times(calls: seq<Call>): (ts: seq<int>)
    ensures |ts| == |calls| && forall i :: 0 <= i < |calls| ==> ts[i] == calls[i].now
  {
    seq(|calls|, i requires 0 <= i < |calls| => calls[i].now)
  }

  function After(limit: int, calls: seq<Call>): KeyState {
    if calls == [] then EMPTY
    else
      var c := calls[|calls| - 1];
      AfterScript(After(limit, calls[..|calls| - 1]), limit, c.now, c.random)
  }

  /** Call `i` is granted although the set holds its member already. */
  predicate Repeats(limit: int, calls: seq<Call>, i: nat)
    requires i < |calls|
  {
    var k := After(limit, calls[..i]);
    ScriptGrants(k, limit, calls[i].now) && Member(calls[i].now, calls[i].random) in Ready(k, calls[i].now).scores
  }

  /** The set holds one member per timestamp of the list, listed by `ms`. */
  ghost predicate Lists(k: KeyState, ms: seq<Member>, ts: seq<int>) {
    && |ms| == |ts|
    && (forall i, j :: 0 <= i < j < |ms| ==> ms[i] != ms[j])
    && (forall m :: m in k.scores <==> m in ms)
    && (forall i :: 0 <= i < |ms| ==> ms[i] in k.scores && k.scores[ms[i]] == ts[i])
  }

  /** Scores are times of past grants, and the key outlives every score by 61 seconds. */
  ghost predicate ExpiryRight(k: KeyState) {
    && (forall m :: m in k.scores ==> k.scores[m] >= 0)
    && (forall m :: m in k.scores ==> k.expiresAt.Some? && k.scores[m] + EXPIRE_MS <= k.expiresAt.value)
  }

  /** What expires with the key would be pruned anyway. */
  lemma ExpiryDropsNothing(k: KeyState, now: int)
    requires ExpiryRight(k)
    ensures forall m :: m in k.scores && k.expiresAt.Some? && k.expiresAt.value <= now ==> k.scores[m] <= now - WINDOW
    ensures Ready(k, now).scores == map m | m in k.scores && k.scores[m] > now - WINDOW :: k.scores[m]
    ensures ExpiryRight(Ready(k, now))
  {
  }

  lemma {:induction false} KeptMembers(ms: seq<Member>, scores: map<Member, int>, now: int) returns (kept: seq<Member>)
    requires forall i :: 0 <= i < |ms| ==> ms[i] in scores
    requires forall i, j :: 0 <= i < j < |ms| ==> ms[i] != ms[j]
    ensures forall i, j :: 0 <= i < j < |kept| ==> kept[i] != kept[j]
    ensures forall m :: m in kept <==> m in ms && scores[m] > now - WINDOW
    ensures |kept| == |Active(ScoresOf(ms, scores), now)|
    ensures forall i :: 0 <= i < |kept| ==> kept[i] in scores && scores[kept[i]] == Active(ScoresOf(ms, scores), now)[i]
  {
    hide Active;
    if ms == [] {
      kept := [];
      NothingActive(now);
    } else {
      var n := |ms| - 1;
      kept := KeptMembers(ms[..n], scores, now);
      ActiveLast(ms, scores, now);
      assert ms == ms[..n] + [ms[n]];
      if scores[ms[n]] > now - WINDOW {
        assert ms[n] !in ms[..n];
        kept := kept + [ms[n]];
      }
    }
  }

  lemma NothingActive(now: int)
    ensures Active([], now) == []
  {
  }

  lemma ActiveLast(ms: seq<Member>, scores: map<Member, int>, now: int)
    requires ms != [] && forall i :: 0 <= i < |ms| ==> ms[i] in scores
    ensures var n := |ms| - 1;
            Active(ScoresOf(ms, scores), now)
            == Active(ScoresOf(ms[..n], scores), now) + if scores[ms[n]] > now - WINDOW then [scores[ms[n]]] else []
  {
    assert ScoresOf(ms, scores)[..|ms| - 1] == ScoresOf(ms[..|ms| - 1], scores);
  }

  function ScoresOf(ms: seq<Member>, scores: map<Member, int>): (ts: seq<int>)
    requires forall i :: 0 <= i < |ms| ==> ms[i] in scores
    ensures |ts| == |ms| && forall i :: 0 <= i < |ms| ==> ts[i] == scores[ms[i]]
  {
    seq(|ms|, i requires 0 <= i < |ms| => scores[ms[i]])
  }

  lemma PruneAgrees(k: KeyState, ms: seq<Member>, ts: seq<int>, now: int) returns (kept: seq<Member>)
    requires Lists(k, ms, ts) && ExpiryRight(k)
    ensures Lists(Ready(k, now), kept, Active(ts, now))
  {
    ExpiryDropsNothing(k, now);
    assert ScoresOf(ms, k.scores) == ts;
    kept := KeptMembers(ms, k.scores, now);
  }

  lemma {:induction false} SizeOfSet(s: set<Member>, ms: seq<Member>)
    requires forall i, j :: 0 <= i < j < |ms| ==> ms[i] != ms[j]
    requires forall m :: m in s <==> m in ms
    ensures |s| == |ms|
  {
    if ms == [] {
      assert s == {};
    } else {
      var n := |ms| - 1;
      assert ms == ms[..n] + [ms[n]];
      SizeOfSet(s - {ms[n]}, ms[..n]);
    }
  }

  lemma ListedSize(k: KeyState, ms: seq<Member>, ts: seq<int>)
    requires Lists(k, ms, ts)
    ensures |k.scores| == |ts|
  {
    SizeOfSet(k.scores.Keys, ms);
    assert |k.scores| == |k.scores.Keys|;
  }

  /** One call: same decision, and the set goes on listing the list unless a granted call repeats a member. */
  lemma CallAgrees(k: KeyState, ms: seq<Member>, ts: seq<int>, limit: int, c: Call) returns (after: seq<Member>)
    requires Lists(k, ms, ts) && ExpiryRight(k) && c.now >= 0
    ensures ScriptGrants(k, limit, c.now) <==> Admits(ts, limit, c.now)
    ensures !(ScriptGrants(k, limit, c.now) && Member(c.now, c.random) in Ready(k, c.now).scores) ==>
              Lists(AfterScript(k, limit, c.now, c.random), after, Attempted(ts, limit, c.now))
  {
    var kept := PruneAgrees(k, ms, ts, c.now);
    ListedSize(Ready(k, c.now), kept, Active(ts, c.now));
    after := if ScriptGrants(k, limit, c.now) then kept + [Member(c.now, c.random)] else kept;
  }

  lemma ExpiryStays(k: KeyState, limit: int, now: int, random: nat)
    requires ExpiryRight(k) && now >= 0 && ScoresUpTo(k, now)
    ensures ExpiryRight(AfterScript(k, limit, now, random))
    ensures ScoresUpTo(AfterScript(k, limit, now, random), now)
  {
    ExpiryDropsNothing(k, now);
  }

  /** One clock that starts at or after 0 and never goes back. */
  predicate OneClock(calls: seq<Call>) {
    && (forall i :: 0 <= i < |calls| ==> calls[i].now >= 0)
    && (forall i, j :: 0 <= i < j < |calls| ==> calls[i].now <= calls[j].now)
  }

  /** From call `n` on, no granted call repeats a member that the set holds. */
  ghost predicate FreshFrom(limit: int, calls: seq<Call>, n: nat) {
    OneClock(calls) && forall i | n <= i < |calls| :: !Repeats(limit, calls, i)
  }

  lemma RepeatsInPrefix(limit: int, calls: seq<Call>, all: seq<Call>, i: nat)
    requires i < |calls| && calls <= all
    ensures Repeats(limit, calls, i) <==> Repeats(limit, all, i)
  {
    assert calls[..i] == all[..i];
  }

  lemma FreshBefore(limit: int, calls: seq<Call>, n: nat)
    requires FreshFrom(limit, calls, 0) && n <= |calls|
    ensures FreshFrom(limit, calls[..n], 0)
  {
    forall i | 0 <= i < n ensures !Repeats(limit, calls[..n], i) {
      RepeatsInPrefix(limit, calls[..n], calls, i);
    }
  }

  lemma TimesBefore(limit: int, calls: seq<Call>)
    requires calls != []
    ensures PrunedAfter(limit, Times(calls))
            == Attempted(PrunedAfter(limit, Times(calls[..|calls| - 1])), limit, calls[|calls| - 1].now)
    ensures Granted(limit, Times(calls))
            <==> Admits(PrunedAfter(limit, Times(calls[..|calls| - 1])), limit, calls[|calls| - 1].now)
  {
    assert Times(calls)[..|calls| - 1] == Times(calls[..|calls| - 1]);
  }

  ghost predicate ScoresUpTo(k: KeyState, now: int) {
    forall m :: m in k.scores ==> k.scores[m] <= now
  }

  /**
   * While no granted call repeats a live member the set lists the in-memory limiter's timestamps, and the key's
   * expiry never takes one that still counts.
   */
  lemma {:induction false} HistoryAgrees(limit: int, calls: seq<Call>) returns (ms: seq<Member>)
    requires FreshFrom(limit, calls, 0)
    ensures Lists(After(limit, calls), ms, PrunedAfter(limit, Times(calls)))
    ensures ExpiryRight(After(limit, calls))
    ensures if calls == [] then After(limit, calls) == EMPTY else ScoresUpTo(After(limit, calls), calls[|calls| - 1].now)
  {
    if calls == [] {
      ms := [];
    } else {
      var n := |calls| - 1;
      var before, c := calls[..n], calls[n];
      FreshBefore(limit, calls, n);
      TimesBefore(limit, calls);
      var listed := HistoryAgrees(limit, before);
      assert !Repeats(limit, calls, n);
      ms := CallAgrees(After(limit, before), listed, PrunedAfter(limit, Times(before)), limit, c);
      assert n > 0 ==> before[n - 1].now <= c.now;
      ExpiryStays(After(limit, before), limit, c.now, c.random);
    }
  }

  /** The script and the in-memory limiter make the same decision on the last call. */
  predicate AgreesOnLast(limit: int, calls: seq<Call>)
    requires calls != []
  {
    var n := |calls| - 1;
    ScriptGrants(After(limit, calls[..n]), limit, calls[n].now) <==> Granted(limit, Times(calls))
  }

  ghost predicate Agrees(limit: int, calls: seq<Call>) {
    forall n | 0 < n <= |calls| :: AgreesOnLast(limit, calls[..n])
  }

  /** With no repeat before the last call the two agree on it, whatever its member. */
  lemma LastDecision(limit: int, calls: seq<Call>)
    requires calls != [] && OneClock(calls) && FreshFrom(limit, calls[..|calls| - 1], 0)
    ensures AgreesOnLast(limit, calls)
  {
    var before, c := calls[..|calls| - 1], calls[|calls| - 1];
    TimesBefore(limit, calls);
    var ms := HistoryAgrees(limit, before);
    var after := CallAgrees(After(limit, before), ms, PrunedAfter(limit, Times(before)), limit, c);
  }

  /** Hence both make the same decision on every call of a history in which no granted call repeats a live member. */
  lemma SameDecisions(limit: int, calls: seq<Call>)
    requires FreshFrom(limit, calls, 0)
    ensures Agrees(limit, calls)
  {
    forall n | 0 < n <= |calls| ensures AgreesOnLast(limit, calls[..n]) {
      assert calls[..n][..n - 1] == calls[..n - 1];
      FreshBefore(limit, calls, n - 1);
      LastDecision(limit, calls[..n]);
    }
  }

  // ---------------------------------------------------------------- a repeated member

  /** At `now` all entries of both are live, and the set is one short. */
  ghost predicate OneShort(k: KeyState, ts: seq<int>, limit: int, now: int) {
    && now >= 0 && ExpiryRight(k) && ScoresUpTo(k, now)
    && (forall m :: m in k.scores ==> k.scores[m] > now - WINDOW)
    && (forall i :: 0 <= i < |ts| ==> ts[i] > now - WINDOW)
    && |k.scores| + 1 == |ts| <= limit
  }

  lemma LiveStays(k: KeyState, now: int)
    requires ExpiryRight(k) && forall m :: m in k.scores ==> k.scores[m] > now - WINDOW
    ensures Ready(k, now).scores == k.scores
  {
    ExpiryDropsNothing(k, now);
  }

  /** A granted repeat leaves the set one entry short of the list. */
  lemma RepeatFallsShort(k: KeyState, ms: seq<Member>, ts: seq<int>, limit: int, c: Call)
    requires Lists(k, ms, ts) && ExpiryRight(k) && c.now >= 0 && ScoresUpTo(k, c.now)
    requires ScriptGrants(k, limit, c.now) && Member(c.now, c.random) in Ready(k, c.now).scores
    ensures OneShort(AfterScript(k, limit, c.now, c.random), Attempted(ts, limit, c.now), limit, c.now)
  {
    hide Active, Attempted, ScriptGrants, AfterScript, Ready, Admits, Lists, ExpiryRight;
    var kept := PruneAgrees(k, ms, ts, c.now);
    ListedSize(Ready(k, c.now), kept, Active(ts, c.now));
    RepeatInSet(k, limit, c);
    RepeatInList(ts, limit, c.now, |Ready(k, c.now).scores|);
  }

  lemma RepeatInSet(k: KeyState, limit: int, c: Call)
    requires ExpiryRight(k) && c.now >= 0 && ScoresUpTo(k, c.now)
    requires ScriptGrants(k, limit, c.now) && Member(c.now, c.random) in Ready(k, c.now).scores
    ensures var after := AfterScript(k, limit, c.now, c.random);
            && ExpiryRight(after) && ScoresUpTo(after, c.now)
            && |after.scores| == |Ready(k, c.now).scores| < limit
            && forall m :: m in after.scores ==> after.scores[m] > c.now - WINDOW
  {
    hide Pruned, Live;
    ExpiryDropsNothing(k, c.now);
    ExpiryStays(k, limit, c.now, c.random);
    Overwritten(Ready(k, c.now).scores, Member(c.now, c.random), c.now);
  }

  lemma RepeatInList(ts: seq<int>, limit: int, now: int, n: nat)
    requires n == |Active(ts, now)| < limit
    ensures var after := Attempted(ts, limit, now);
            |after| == n + 1 && forall i :: 0 <= i < |after| ==> after[i] > now - WINDOW
  {
    hide Active;
    var active := Active(ts, now);
    ActiveMembers(ts, now);
    assert forall i :: 0 <= i < |active| ==> active[i] in active;
  }

  lemma Overwritten(scores: map<Member, int>, m: Member, now: int)
    requires m in scores
    ensures |scores[m := now]| == |scores|
  {
    assert scores[m := now].Keys == scores.Keys;
    assert |scores[m := now]| == |scores[m := now].Keys| && |scores| == |scores.Keys|;
  }

  /** A member at this moment that the set does not hold. */
  lemma {:induction false} NewMember(ms: set<Member>) returns (random: nat)
    ensures forall m :: m in ms ==> m.random < random
  {
    if ms == {} {
      random := 0;
    } else {
      var m :| m in ms;
      var rest := NewMember(ms - {m});
      random := if rest > m.random then rest else m.random + 1;
    }
  }

  lemma AfterMore(limit: int, calls: seq<Call>, c: Call)
    ensures After(limit, calls + [c]) == AfterScript(After(limit, calls), limit, c.now, c.random)
    ensures PrunedAfter(limit, Times(calls + [c])) == Attempted(PrunedAfter(limit, Times(calls)), limit, c.now)
    ensures Granted(limit, Times(calls + [c])) <==> Admits(PrunedAfter(limit, Times(calls)), limit, c.now)
  {
    var more := calls + [c];
    assert more[..|more| - 1] == calls;
    TimesBefore(limit, more);
  }

  /** A fresh call on a set that is one short: still one short, or, when the list is full, the decisions differ. */
  lemma FreshCallOnShort(k: KeyState, ts: seq<int>, limit: int, c: Call)
    requires OneShort(k, ts, limit, c.now) && Member(c.now, c.random) !in k.scores
    ensures ScriptGrants(k, limit, c.now) && Member(c.now, c.random) !in Ready(k, c.now).scores
    ensures Admits(ts, limit, c.now) <==> |ts| < limit
    ensures |ts| < limit ==> Attempted(ts, limit, c.now) == ts + [c.now]
    ensures |ts| < limit ==> OneShort(AfterScript(k, limit, c.now, c.random), ts + [c.now], limit, c.now)
  {
    LiveStays(k, c.now);
    AllStillActive(ts, c.now);
    ExpiryStays(k, limit, c.now, c.random);
  }

  lemma {:induction false} AllStillActive(ts: seq<int>, now: int)
    requires forall i :: 0 <= i < |ts| ==> ts[i] > now - WINDOW
    ensures Active(ts, now) == ts
  {
    if ts != [] {
      AllStillActive(ts[..|ts| - 1], now);
      assert ts == ts[..|ts| - 1] + [ts[|ts| - 1]];
    }
  }

  /** From a set one short, fresh calls at the same moment lead to a call on which the decisions differ. */
  lemma {:induction false} ShortDisagrees(limit: int, calls: seq<Call>, n: nat, now: int) returns (all: seq<Call>)
    requires FreshFrom(limit, calls, n) && calls != [] && calls[|calls| - 1].now == now && n <= |calls|
    requires OneShort(After(limit, calls), PrunedAfter(limit, Times(calls)), limit, now)
    ensures calls <= all && FreshFrom(limit, all, n) && !Agrees(limit, all)
    decreases limit - |PrunedAfter(limit, Times(calls))|
  {
    hide After, Granted, PrunedAfter, Times, Attempted, Admits;
    var k, ts := After(limit, calls), PrunedAfter(limit, Times(calls));
    var random := NewMember(k.scores.Keys);
    var c := Call(now, random);
    var more := calls + [c];
    AfterMore(limit, calls, c);
    FreshCallOnShort(k, ts, limit, c);
    assert more[..|calls|] == calls;
    forall i | n <= i < |more| ensures !Repeats(limit, more, i) {
      if i < |calls| {
        RepeatsInPrefix(limit, calls, more, i);
      }
    }
    if |ts| < limit {
      all := ShortDisagrees(limit, more, n, now);
    } else {
      all := more;
      assert more[..|more|] == more;
      assert !AgreesOnLast(limit, more[..|more|]);
    }
  }

  /** The history up to a first repeat has a continuation with fresh calls on which the decisions differ. */
  lemma RepeatDisagrees(limit: int, calls: seq<Call>, i: nat) returns (all: seq<Call>)
    requires OneClock(calls) && i < |calls| && FreshFrom(limit, calls[..i], 0) && Repeats(limit, calls, i)
    ensures calls[..i + 1] <= all && FreshFrom(limit, all, i + 1) && !Agrees(limit, all)
  {
    hide After, Lists, ScriptGrants, Ready, AfterScript, PrunedAfter, Times, Granted, OneShort, Agrees;
    var before, c := calls[..i], calls[i];
    var upTo := calls[..i + 1];
    assert upTo == before + [c];
    var ms := HistoryAgrees(limit, before);
    assert i > 0 ==> before[i - 1].now <= c.now;
    RepeatFallsShort(After(limit, before), ms, PrunedAfter(limit, Times(before)), limit, c);
    AfterMore(limit, before, c);
    all := ShortDisagrees(limit, upTo, i + 1, c.now);
  }

  /**
   * On every history with one clock: no granted call repeats a live member if and only if the script decides as the
   * in-memory limiter on every beginning of the history and on all its continuations with fresh members.
   */
  lemma SameDecisionsIff(limit: int, calls: seq<Call>)
    requires OneClock(calls)
    ensures (forall i | 0 <= i < |calls| :: !Repeats(limit, calls, i)) <==>
            forall n: nat, all: seq<Call> | n <= |calls| && calls[..n] <= all && FreshFrom(limit, all, n) :: Agrees(limit, all)
  {
    if forall i | 0 <= i < |calls| :: !Repeats(limit, calls, i) {
      forall n: nat, all: seq<Call> | n <= |calls| && calls[..n] <= all && FreshFrom(limit, all, n)
        ensures Agrees(limit, all)
      {
        forall i | 0 <= i < |all| ensures !Repeats(limit, all, i) {
          if i < n {
            RepeatsInPrefix(limit, calls[..n], calls, i);
            RepeatsInPrefix(limit, calls[..n], all, i);
          }
        }
        SameDecisions(limit, all);
      }
    } else {
      var i := FirstRepeat(limit, calls);
      var all := RepeatDisagrees(limit, calls, i);
      assert calls[..i + 1] <= all && FreshFrom(limit, all, i + 1);
    }
  }

  lemma {:induction false} FirstRepeat(limit: int, calls: seq<Call>) returns (i: nat)
    requires OneClock(calls) && exists i :: 0 <= i < |calls| && Repeats(limit, calls, i)
    ensures i < |calls| && Repeats(limit, calls, i) && FreshFrom(limit, calls[..i], 0)
  {
    hide Repeats;
    var n := |calls| - 1;
    if j :| 0 <= j < n && Repeats(limit, calls, j) {
      RepeatsInPrefix(limit, calls[..n], calls, j);
      i := FirstRepeat(limit, calls[..n]);
      RepeatsInPrefix(limit, calls[..n], calls, i);
      assert calls[..n][..i] == calls[..i];
    } else {
      i := n;
      forall j | 0 <= j < n ensures !Repeats(limit, calls[..n], j) {
        RepeatsInPrefix(limit, calls[..n], calls, j);
      }
    }
  }

  function Copies(c: Call, n: nat): (calls: seq<Call>)
    ensures |calls| == n
  {
    if n == 0 then [] else Copies(c, n - 1) + [c]
  }

  function Single(c: Call): KeyState {
    KeyState(map[Member(c.now, c.random) := c.now], Some(c.now + EXPIRE_MS))
  }

  lemma ScriptOnSingle(limit: int, c: Call)
    requires c.now >= 0
    ensures Ready(Single(c), c.now) == Single(c) && |Single(c).scores| == 1
    ensures AfterScript(Single(c), limit, c.now, c.random) == Single(c)
  {
    var k := Single(c);
    var kept := map m | m in k.scores && !(0 <= k.scores[m] <= c.now - WINDOW) :: k.scores[m];
    assert Member(c.now, c.random) in kept;
    assert kept == k.scores;
    assert k.scores[Member(c.now, c.random) := c.now] == k.scores;
  }

  lemma ScriptOnEmpty(limit: int, c: Call)
    ensures Ready(EMPTY, c.now) == EMPTY && |EMPTY.scores| == 0
    ensures AfterScript(EMPTY, limit, c.now, c.random) == if limit > 0 then Single(c) else EMPTY
  {
  }

  lemma {:induction false} CopiesInSet(limit: int, c: Call, n: nat)
    requires c.now >= 0
    ensures After(limit, Copies(c, n)) == if limit <= 0 || n == 0 then EMPTY else Single(c)
  {
    hide AfterScript, PrunedAfter, Granted;
    if n > 0 {
      CopiesInSet(limit, c, n - 1);
      AfterMore(limit, Copies(c, n - 1), c);
      ScriptOnEmpty(limit, c);
      ScriptOnSingle(limit, c);
    }
  }

  lemma {:induction false} CopiesInList(limit: int, c: Call, n: nat)
    ensures var ts := PrunedAfter(limit, Times(Copies(c, n)));
            && |ts| == (if limit <= 0 then 0 else if n < limit then n else limit)
            && forall i :: 0 <= i < |ts| ==> ts[i] == c.now
  {
    hide Active, After, AfterScript, Granted;
    if n > 0 {
      CopiesInList(limit, c, n - 1);
      AfterMore(limit, Copies(c, n - 1), c);
      AllStillActive(PrunedAfter(limit, Times(Copies(c, n - 1))), c.now);
    }
  }

  /**
   * The same call again and again: with a limit above 1 the script grants every one of them, without end; the
   * in-memory limiter grants only as many as the limit.
   */
  lemma RepeatsAreGrantedWithoutEnd(limit: int, c: Call, n: nat)
    requires c.now >= 0 && limit > 1
    ensures ScriptGrants(After(limit, Copies(c, n)), limit, c.now)
    ensures Granted(limit, Times(Copies(c, n) + [c])) <==> n < limit
  {
    hide After, AfterScript, Ready, PrunedAfter, Times, Granted, Active;
    CopiesInSet(limit, c, n);
    ScriptOnEmpty(limit, c);
    ScriptOnSingle(limit, c);
    CopiesInList(limit, c, n);
    AfterMore(limit, Copies(c, n), c);
    AllStillActive(PrunedAfter(limit, Times(Copies(c, n))), c.now);
  }
}
