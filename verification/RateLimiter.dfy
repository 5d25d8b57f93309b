/** The sliding-window limiter, in memory and on the shared sorted set. */
module RateLimiter {
  import opened Text

  const WINDOW := 60_000

  /** The timestamps still inside the window at `now`. */
  function Active(ts: seq<int>, now: int): (r: seq<int>)
    ensures |r| <= |ts|
  {
    if ts == [] then []
    else Active(ts[..|ts| - 1], now) + if ts[|ts| - 1] > now - WINDOW then [ts[|ts| - 1]] else []
  }

  lemma {:induction false} ActiveMembers(ts: seq<int>, now: int)
    ensures forall t :: t in Active(ts, now) <==> t in ts && t > now - WINDOW
  {
    if ts != [] {
      var n := |ts| - 1;
      ActiveMembers(ts[..n], now);
      assert ts == ts[..n] + [ts[n]];
    }
  }

  /** Whether an attempt at `now` would be granted. */
  predicate Admits(ts: seq<int>, max: int, now: int) {
    |Active(ts, now)| < max
  }

  /** The list after an attempt: pruned, and longer by one when granted. */
  function Attempted(ts: seq<int>, max: int, now: int): seq<int> {
    if Admits(ts, max, now) then Active(ts, now) + [now] else Active(ts, now)
  }

  class RateLimiter {
    var timestamps: seq<int>
    const maxRequestsPerMinute: int

    constructor (max: int)
      ensures timestamps == [] && maxRequestsPerMinute == max
    {
      timestamps, maxRequestsPerMinute := [], max;
    }

    method TryAcquire(now: int) returns (granted: bool)
      modifies this
      ensures granted == Admits(old(timestamps), maxRequestsPerMinute, now)
      ensures timestamps == Attempted(old(timestamps), maxRequestsPerMinute, now)
    {
      timestamps := Active(timestamps, now);
      if |timestamps| >= maxRequestsPerMinute {
        return false;
      }
      timestamps := timestamps + [now];
      return true;
    }

    method GetRemaining(now: int) returns (n: int)
      ensures n == Remaining(timestamps, maxRequestsPerMinute, now)
    {
      var active := |Active(timestamps, now)|;
      n := if maxRequestsPerMinute - active > 0 then maxRequestsPerMinute - active else 0;
    }

    method GetRetryAfterMs(now: int) returns (wait: int)
      ensures wait == RetryAfter(timestamps, now)
      ensures timestamps == [] ==> wait == 0
      ensures timestamps != [] ==> wait >= 0 && wait >= timestamps[0] + 60_000 - now
      ensures wait > 0 ==> timestamps != [] && wait == timestamps[0] + 60_000 - now
    {
      if |timestamps| == 0 {
        return 0;
      }
      var expiry := timestamps[0] + WINDOW;
      wait := if expiry - now > 0 then expiry - now else 0;
    }
  }

  function Remaining(ts: seq<int>, max: int, now: int): nat {
    if max - |Active(ts, now)| > 0 then max - |Active(ts, now)| else 0
  }

  /** The list after `k` attempts at the same moment. */
  function AttemptedTimes(ts: seq<int>, max: int, now: int, k: nat): seq<int> {
    if k == 0 then ts else Attempted(AttemptedTimes(ts, max, now, k - 1), max, now)
  }

  /** The reported number is how many attempts in a row would be granted now. */
  lemma {:induction false} RemainingIsExact(ts: seq<int>, max: int, now: int, k: nat)
    ensures Admits(AttemptedTimes(ts, max, now, k), max, now) <==> k < Remaining(ts, max, now)
    ensures |Active(AttemptedTimes(ts, max, now, k), now)|
         == |Active(ts, now)| + if k < Remaining(ts, max, now) then k else Remaining(ts, max, now)
  {
    hide Active, Attempted;
    if k > 0 {
      RemainingIsExact(ts, max, now, k - 1);
      AttemptCounts(AttemptedTimes(ts, max, now, k - 1), max, now);
    }
  }

  lemma AttemptCounts(ts: seq<int>, max: int, now: int)
    ensures |Active(Attempted(ts, max, now), now)| == |Active(ts, now)| + if Admits(ts, max, now) then 1 else 0
  {
    hide Active;
    ActiveActive(ts, now, now);
    ActiveMore(Active(ts, now), now, now);
  }

  function RetryAfter(ts: seq<int>, now: int): int {
    if ts == [] then 0 else if ts[0] + WINDOW - now > 0 then ts[0] + WINDOW - now else 0
  }

  // ---------------------------------------------------------------- call histories

  predicate NonDecreasing(times: seq<int>) {
    forall i, j :: 0 <= i < j < |times| ==> times[i] <= times[j]
  }

  lemma NonDecreasingMore(ts: seq<int>, t: int)
    requires NonDecreasing(ts) && forall x :: x in ts ==> x <= t
    ensures NonDecreasing(ts + [t])
  {
    var r := ts + [t];
    forall i, j | 0 <= i < j < |r| ensures r[i] <= r[j] {
      assert ts[i] in ts;
    }
  }

  /** The pruned list after attempts at these times, and which of them were granted. */
  function PrunedAfter(max: int, times: seq<int>): seq<int> {
    if times == [] then [] else Attempted(PrunedAfter(max, times[..|times| - 1]), max, times[|times| - 1])
  }

  predicate Granted(max: int, times: seq<int>)
    requires times != []
  {
    Admits(PrunedAfter(max, times[..|times| - 1]), max, times[|times| - 1])
  }

  /** All granted times so far, nothing pruned: the limiter the code stands for. */
  function Grants(max: int, times: seq<int>): seq<int> {
    if times == [] then []
    else
      var before := Grants(max, times[..|times| - 1]);
      var now := times[|times| - 1];
      if Admits(before, max, now) then before + [now] else before
  }

  lemma ActiveMore(ts: seq<int>, t: int, now: int)
    ensures Active(ts + [t], now) == Active(ts, now) + if t > now - WINDOW then [t] else []
  {
    assert (ts + [t])[..|ts|] == ts;
  }

  /** Pruning at an earlier time loses nothing that counts later. */
  lemma {:induction false} ActiveActive(ts: seq<int>, earlier: int, now: int)
    requires earlier <= now
    ensures Active(Active(ts, earlier), now) == Active(ts, now)
  {
    if ts != [] {
      var n := |ts| - 1;
      var before := Active(ts[..n], earlier);
      ActiveActive(ts[..n], earlier, now);
      ActiveMore(before, ts[n], now);
      assert before + [] == before && Active(ts[..n], now) + [] == Active(ts[..n], now);
    }
  }

  /** The pruned list decides every attempt exactly as the full history of grants would. */
  lemma {:induction false} PrunedDecidesAsHistory(max: int, times: seq<int>, now: int)
    requires NonDecreasing(times) && (times != [] ==> times[|times| - 1] <= now)
    ensures Active(PrunedAfter(max, times), now) == Active(Grants(max, times), now)
    ensures Granted(max, times + [now]) <==> Admits(Grants(max, times), max, now)
  {
    assert (times + [now])[..|times|] == times;
    if times != [] {
      var n := |times| - 1;
      var before, last := times[..n], times[n];
      PrunedDecidesAsHistory(max, before, last);
      var pruned := PrunedAfter(max, before);
      ActiveActive(pruned, last, now);
      ActiveActive(Grants(max, before), last, now);
      ActiveMore(Active(pruned, last), last, now);
      ActiveMore(Grants(max, before), last, now);
    }
  }

  /** Attempt `i` was granted. */
  predicate GrantedAt(max: int, times: seq<int>, i: nat)
    requires i < |times|
  {
    Granted(max, times[..i + 1])
  }

  /** The granted ones of the first `n` attempts that are less than 60 seconds old at `now`. */
  ghost function Recent(max: int, times: seq<int>, n: nat, now: int): set<nat>
    requires n <= |times|
  {
    set j: nat | j < n && GrantedAt(max, times, j) && now - times[j] < 60_000
  }

  lemma {:induction false} RecentIsActive(max: int, times: seq<int>, n: nat, now: int)
    requires n <= |times| && NonDecreasing(times)
    ensures |Recent(max, times, n, now)| == |Active(Grants(max, times[..n]), now)|
  {
    hide Grants, Active, Granted, Recent;
    if n == 0 {
      NothingRecent(max, times, now);
      NoneGranted(max, now);
      assert times[..0] == [];
    } else {
      var t := times[n - 1];
      RecentIsActive(max, times, n - 1, now);
      assert times[..n][..n - 1] == times[..n - 1] && times[..n] == times[..n - 1] + [t];
      PrunedDecidesAsHistory(max, times[..n - 1], t);
      GrantsMore(max, times[..n - 1], t);
      ActiveMore(Grants(max, times[..n - 1]), t, now);
      RecentMore(max, times, n, now);
    }
  }

  lemma RecentMore(max: int, times: seq<int>, n: nat, now: int)
    requires 0 < n <= |times|
    ensures |Recent(max, times, n, now)| == |Recent(max, times, n - 1, now)| +
              if GrantedAt(max, times, n - 1) && now - times[n - 1] < 60_000 then 1 else 0
  {
    hide GrantedAt;
    var before := Recent(max, times, n - 1, now);
    assert n - 1 !in before;
    assert Recent(max, times, n, now)
        == if GrantedAt(max, times, n - 1) && now - times[n - 1] < 60_000 then before + {n - 1} else before;
  }

  lemma NothingRecent(max: int, times: seq<int>, now: int)
    ensures Recent(max, times, 0, now) == {}
  {
  }

  lemma NoneGranted(max: int, now: int)
    ensures Active(Grants(max, []), now) == []
  {
  }

  lemma GrantsMore(max: int, times: seq<int>, t: int)
    ensures Grants(max, times + [t]) ==
            if Admits(Grants(max, times), max, t) then Grants(max, times) + [t] else Grants(max, times)
  {
    assert (times + [t])[..|times|] == times;
  }

  /** An attempt is granted if and only if fewer than `max` of those less than 60 seconds older were. */
  lemma GrantedIff(max: int, times: seq<int>, i: nat)
    requires NonDecreasing(times) && i < |times|
    ensures GrantedAt(max, times, i) <==> |Recent(max, times, i, times[i])| < max
  {
    hide Grants, Active, Granted;
    RecentIsActive(max, times, i, times[i]);
    assert times[..i + 1] == times[..i] + [times[i]];
    PrunedDecidesAsHistory(max, times[..i], times[i]);
  }

  // ---------------------------------------------------------------- the limit

  /** How many of the times lie in the half-open window `(from, from + 60 s]`. */
  function CountIn(ts: seq<int>, from: int): nat {
    if ts == [] then 0
    else CountIn(ts[..|ts| - 1], from) + if from < ts[|ts| - 1] <= from + WINDOW then 1 else 0
  }

  lemma {:induction false} GrantsSorted(max: int, times: seq<int>)
    requires NonDecreasing(times)
    ensures NonDecreasing(Grants(max, times))
    ensures forall g :: g in Grants(max, times) ==> times != [] && g <= times[|times| - 1]
  {
    if times != [] {
      var n := |times| - 1;
      GrantsSorted(max, times[..n]);
      forall g | g in Grants(max, times[..n]) ensures g <= times[n] {
        assert g <= times[n - 1];
      }
      NonDecreasingMore(Grants(max, times[..n]), times[n]);
    }
  }

  lemma {:induction false} CountNoMoreThanActive(ts: seq<int>, from: int, now: int)
    requires from < now <= from + WINDOW && forall t :: t in ts ==> t <= now
    ensures CountIn(ts, from) <= |Active(ts, now)|
  {
    if ts != [] {
      var n := |ts| - 1;
      forall t | t in ts[..n] ensures t <= now { assert t in ts; }
      CountNoMoreThanActive(ts[..n], from, now);
    }
  }

  lemma CountMore(ts: seq<int>, t: int, from: int)
    ensures CountIn(ts + [t], from) == CountIn(ts, from) + if from < t <= from + WINDOW then 1 else 0
  {
    assert (ts + [t])[..|ts|] == ts;
  }

  /** At most `max` grants fall in any window of 60 seconds. */
  lemma {:induction false} WindowLimit(max: int, times: seq<int>, from: int)
    requires NonDecreasing(times)
    ensures CountIn(Grants(max, times), from) <= if max > 0 then max else 0
  {
    if times != [] {
      var n := |times| - 1;
      WindowLimit(max, times[..n], from);
      GrantsSorted(max, times[..n]);
      assert forall g :: g in Grants(max, times[..n]) ==> g <= times[n];
      GrantWithinLimit(Grants(max, times[..n]), max, times[n], from);
    }
  }

  lemma GrantWithinLimit(before: seq<int>, max: int, now: int, from: int)
    requires CountIn(before, from) <= (if max > 0 then max else 0) && forall t :: t in before ==> t <= now
    ensures Admits(before, max, now) ==> CountIn(before + [now], from) <= max
  {
    CountMore(before, now, from);
    if from < now <= from + WINDOW {
      CountNoMoreThanActive(before, from, now);
    }
  }

  function Burst(t: int, n: nat): (r: seq<int>)
    ensures |r| == n && forall i :: 0 <= i < n ==> r[i] == t
  {
    seq(n, i => t)
  }

  lemma {:induction false} AllOut(ts: seq<int>, now: int)
    requires forall i :: 0 <= i < |ts| ==> ts[i] <= now - WINDOW
    ensures Active(ts, now) == []
  {
    if ts != [] {
      AllOut(ts[..|ts| - 1], now);
    }
  }

  lemma OneMoreGranted(max: int, earlier: seq<int>, t: int)
    requires Grants(max, earlier) == earlier && |Active(earlier, t)| < max
    ensures Grants(max, earlier + [t]) == earlier + [t]
    ensures Active(earlier + [t], t) == Active(earlier, t) + [t]
  {
    assert (earlier + [t])[..|earlier|] == earlier;
    ActiveMore(earlier, t, t);
  }

  /** `n` more attempts at `t`, when nothing granted before counts any more, are all granted up to the limit. */
  lemma {:induction false} BurstIsGranted(max: int, before: seq<int>, t: int, n: nat)
    requires n <= max && Grants(max, before) == before && Active(before, t) == []
    ensures Grants(max, before + Burst(t, n)) == before + Burst(t, n)
    ensures Active(before + Burst(t, n), t) == Burst(t, n)
  {
    hide Grants, Active, Burst;
    if n == 0 {
      assert before + Burst(t, 0) == before;
    } else {
      BurstIsGranted(max, before, t, n - 1);
      OneMoreGranted(max, before + Burst(t, n - 1), t);
      assert Burst(t, n) == Burst(t, n - 1) + [t];
      assert before + Burst(t, n) == before + Burst(t, n - 1) + [t];
    }
  }

  /**
   * The window is half-open: with both ends counted it can hold twice the limit, all of it granted 60 seconds after
   * as much was granted before.
   */
  lemma ClosedWindowHoldsTwice(max: nat, t: int)
    ensures Grants(max, Burst(t, max) + Burst(t + 60_000, max)) == Burst(t, max) + Burst(t + 60_000, max)
  {
    assert [] + Burst(t, max) == Burst(t, max);
    BurstIsGranted(max, [], t, max);
    AllOut(Burst(t, max), t + WINDOW);
    BurstIsGranted(max, Burst(t, max), t + WINDOW, max);
  }

  // ---------------------------------------------------------------- the wait after a refusal

  lemma {:induction false} PrunedSorted(max: int, times: seq<int>)
    requires NonDecreasing(times)
    ensures var ts := PrunedAfter(max, times);
            && NonDecreasing(ts) && (times == [] ==> ts == [])
            && (max > 0 ==> |ts| <= max)
            && forall t :: t in ts ==> times != [] && times[|times| - 1] - WINDOW < t <= times[|times| - 1]
  {
    hide Active;
    if times != [] {
      var n := |times| - 1;
      var before, now := PrunedAfter(max, times[..n]), times[n];
      PrunedSorted(max, times[..n]);
      ActiveSorted(before, now);
      ActiveMembers(before, now);
      forall t | t in Active(before, now) ensures t <= now {
        assert t in before && t <= times[n - 1];
      }
      NonDecreasingMore(Active(before, now), now);
    }
  }

  lemma {:induction false} ActiveSorted(ts: seq<int>, now: int)
    requires NonDecreasing(ts)
    ensures NonDecreasing(Active(ts, now))
  {
    if ts != [] {
      var n := |ts| - 1;
      ActiveSorted(ts[..n], now);
      ActiveMembers(ts[..n], now);
      forall t | t in Active(ts[..n], now) ensures t <= ts[n] {
        assert t in ts[..n];
        var i :| 0 <= i < n && ts[i] == t;
      }
      NonDecreasingMore(Active(ts[..n], now), ts[n]);
    }
  }

  lemma {:induction false} AllActive(ts: seq<int>, now: int)
    requires forall t :: t in ts ==> t > now - WINDOW
    ensures Active(ts, now) == ts
  {
    if ts != [] {
      var n := |ts| - 1;
      forall t | t in ts[..n] ensures t > now - WINDOW { assert t in ts; }
      AllActive(ts[..n], now);
      assert ts[n] in ts;
    }
  }

  lemma {:induction false} OldestInactive(ts: seq<int>, now: int)
    requires ts != [] && ts[0] <= now - WINDOW
    ensures |Active(ts, now)| < |ts|
  {
    if |ts| > 1 {
      OldestInactive(ts[..|ts| - 1], now);
    }
  }

  /**
   * After a refusal under a positive limit, with no other call in between, the reported wait is the
   * shortest one: an attempt then is granted and every earlier one is refused.
   */
  lemma RetryAfterIsExact(max: int, times: seq<int>, ts: seq<int>, now: int, delay: nat)
    requires NonDecreasing(times) && times != [] && max > 0 && !Granted(max, times)
    requires ts == PrunedAfter(max, times) && now == times[|times| - 1]
    ensures RetryAfter(ts, now) > 0
    ensures Admits(ts, max, now + delay) <==> delay >= RetryAfter(ts, now)
  {
    RefusedState(max, times);
    WaitIsExact(ts, max, now, delay);
  }

  lemma RefusedState(max: int, times: seq<int>)
    requires NonDecreasing(times) && times != [] && max > 0 && !Granted(max, times)
    ensures var ts := PrunedAfter(max, times);
            NonDecreasing(ts) && ts != [] && |ts| == max && times[|times| - 1] - WINDOW < ts[0]
  {
    var ts := PrunedAfter(max, times);
    PrunedSorted(max, times);
    RefusedIsFull(max, times);
    assert ts[0] in ts;
  }

  lemma WaitIsExact(ts: seq<int>, max: int, now: int, delay: nat)
    requires NonDecreasing(ts) && ts != [] && |ts| == max && now - WINDOW < ts[0]
    ensures RetryAfter(ts, now) > 0
    ensures Admits(ts, max, now + delay) <==> delay >= RetryAfter(ts, now)
  {
    if delay < RetryAfter(ts, now) {
      TooEarly(ts, max, now + delay);
    } else {
      OldestInactive(ts, now + delay);
    }
  }

  lemma RefusedIsFull(max: int, times: seq<int>)
    requires times != [] && !Granted(max, times)
    ensures |PrunedAfter(max, times)| >= max
  {
  }

  lemma TooEarly(ts: seq<int>, max: int, at: int)
    requires NonDecreasing(ts) && ts != [] && |ts| >= max && at < ts[0] + WINDOW
    ensures !Admits(ts, max, at)
  {
    forall t | t in ts ensures t > at - WINDOW {
      var i :| 0 <= i < |ts| && ts[i] == t;
      assert i == 0 || ts[0] <= ts[i];
    }
    AllActive(ts, at);
  }
}
