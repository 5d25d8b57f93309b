/** Cosine similarity and maximal marginal relevance, over the reals. */
module HybridSearch {
  import opened Text
  import opened Sorting

  // ---------------------------------------------------------------- dot products

  function Dot(a: seq<real>, b: seq<real>): real
    requires |a| == |b|
  {
    if a == [] then 0.0 else Dot(a[..|a| - 1], b[..|b| - 1]) + a[|a| - 1] * b[|b| - 1]
  }

  /** Sum of `(s a_i - t b_i)^2`. */
  function SquaredDistance(a: seq<real>, b: seq<real>, s: real, t: real): (d: real)
    requires |a| == |b|
    ensures d >= 0.0
  {
    if a == [] then 0.0
    else
      var x := s * a[|a| - 1] - t * b[|b| - 1];
      SquareNonNegative(x);
      SquaredDistance(a[..|a| - 1], b[..|b| - 1], s, t) + x * x
  }

  lemma SquareNonNegative(x: real)
    ensures x * x >= 0.0
  {
  }

  lemma SquareOfDifference(s: real, x: real, t: real, y: real)
    ensures (s * x - t * y) * (s * x - t * y) == s * s * (x * x) - 2.0 * s * t * (x * y) + t * t * (y * y)
  {
  }

  lemma {:induction false} DistanceExpands(a: seq<real>, b: seq<real>, s: real, t: real)
    requires |a| == |b|
    ensures SquaredDistance(a, b, s, t) == s * s * Dot(a, a) - 2.0 * s * t * Dot(a, b) + t * t * Dot(b, b)
  {
    if a != [] {
      var n := |a| - 1;
      var x, y := a[n], b[n];
      DistanceExpands(a[..n], b[..n], s, t);
      SquareOfDifference(s, x, t, y);
      Distribute(s * s, Dot(a[..n], a[..n]), x * x);
      Distribute(2.0 * s * t, Dot(a[..n], b[..n]), x * y);
      Distribute(t * t, Dot(b[..n], b[..n]), y * y);
    }
  }

  lemma Distribute(c: real, p: real, q: real)
    ensures c * (p + q) == c * p + c * q
  {
  }

  lemma {:induction false} NormNonNegative(a: seq<real>)
    ensures Dot(a, a) >= 0.0
  {
    if a != [] {
      NormNonNegative(a[..|a| - 1]);
      SquareNonNegative(a[|a| - 1]);
    }
  }

  lemma {:induction false} DotWithZero(a: seq<real>, b: seq<real>)
    requires |a| == |b| && Dot(b, b) == 0.0
    ensures Dot(a, b) == 0.0
  {
    if a != [] {
      var n := |a| - 1;
      NormNonNegative(b[..n]);
      ZeroSum(Dot(b[..n], b[..n]), b[n], b[n] * b[n]);
      DotWithZero(a[..n], b[..n]);
      assert a[n] * b[n] == a[n] * 0.0 == 0.0;
    }
  }

  lemma ZeroSum(p: real, x: real, square: real)
    requires square == x * x && p >= 0.0 && p + square == 0.0
    ensures p == 0.0 && x == 0.0
  {
    if x > 0.0 {
      PositiveProduct(x, x, square);
    } else if x < 0.0 {
      PositiveProduct(-x, -x, square);
    }
  }

  lemma PositiveProduct(x: real, y: real, product: real)
    requires x > 0.0 && y > 0.0 && product == x * y
    ensures product > 0.0
  {
  }

  lemma NonNegativeProduct(x: real, y: real)
    requires x >= 0.0 && y >= 0.0
    ensures x * y >= 0.0
  {
  }

  lemma NegatedFactors(x: real, y: real)
    ensures (-x) * (-y) == x * y
    ensures x * (-y) == -(x * y)
  {
  }

  /** The Cauchy-Schwarz inequality. */
  lemma CauchySchwarz(a: seq<real>, b: seq<real>)
    requires |a| == |b|
    ensures Dot(a, b) * Dot(a, b) <= Dot(a, a) * Dot(b, b)
  {
    var p, q, d := Dot(a, a), Dot(b, b), Dot(a, b);
    NormNonNegative(a);
    NormNonNegative(b);
    if q == 0.0 {
      DotWithZero(a, b);
    } else {
      DistanceExpands(a, b, q, d);
      assert q * q * p - 2.0 * q * d * d + d * d * q == q * (q * p - d * d) by {
        Regroup(p, q, d);
      }
      PositiveFactor(q, q * p - d * d);
    }
  }

  lemma Regroup(p: real, q: real, d: real)
    ensures q * q * p - 2.0 * q * d * d + d * d * q == q * (q * p - d * d)
  {
    assert q * (q * p - d * d) == q * (q * p) - q * (d * d);
    assert q * q * p == q * (q * p);
    assert 2.0 * q * d * d == 2.0 * (q * (d * d));
    assert d * d * q == q * (d * d);
  }

  lemma PositiveFactor(q: real, x: real)
    requires q > 0.0
    ensures x < 0.0 ==> q * x < 0.0
  {
    if x < 0.0 {
      PositiveProduct(q, -x, q * -x);
      NegatedFactors(q, x);
    }
  }

  // ---------------------------------------------------------------- cosine similarity

  /** The one thing used of the square root. */
  ghost predicate IsSqrt(sqrt: real -> real) {
    forall x :: x >= 0.0 ==> sqrt(x) >= 0.0 && sqrt(x) * sqrt(x) == x
  }

  function Denominator(sqrt: real -> real, a: seq<real>, b: seq<real>): real {
    sqrt(Dot(a, a)) * sqrt(Dot(b, b))
  }

  function Cosine(sqrt: real -> real, a: seq<real>, b: seq<real>): real {
    if |a| != |b| || a == [] then 0.0
    else if Denominator(sqrt, a, b) == 0.0 then 0.0
    else Dot(a, b) / Denominator(sqrt, a, b)
  }

  lemma DotUpTo(a: seq<real>, b: seq<real>, i: nat)
    requires i < |a| == |b|
    ensures Dot(a[..i + 1], b[..i + 1]) == Dot(a[..i], b[..i]) + a[i] * b[i]
  {
    assert a[..i + 1][..i] == a[..i] && b[..i + 1][..i] == b[..i];
  }

  method CosineSim(sqrt: real -> real, a: seq<real>, b: seq<real>) returns (r: real)
    requires IsSqrt(sqrt)
    ensures r == Cosine(sqrt, a, b)
    ensures -1.0 <= r <= 1.0
    ensures |a| != |b| || a == [] ==> r == 0.0
    ensures |a| == |b| && a != [] ==>
      var norms := sqrt(Dot(a, a)) * sqrt(Dot(b, b)); if norms == 0.0 then r == 0.0 else r * norms == Dot(a, b)
  {
    CosineBounded(sqrt, a, b);
    if |a| != |b| || |a| == 0 {
      return 0.0;
    }
    var dot, normA, normB := 0.0, 0.0, 0.0;
    for i := 0 to |a|
      invariant dot == Dot(a[..i], b[..i]) && normA == Dot(a[..i], a[..i]) && normB == Dot(b[..i], b[..i])
    {
      DotUpTo(a, b, i);
      DotUpTo(a, a, i);
      DotUpTo(b, b, i);
      dot := dot + a[i] * b[i];
      normA := normA + a[i] * a[i];
      normB := normB + b[i] * b[i];
    }
    assert a[..|a|] == a && b[..|b|] == b;
    var denom := sqrt(normA) * sqrt(normB);
    r := if denom == 0.0 then 0.0 else dot / denom;
  }

  lemma SquareOfProduct(x: real, y: real, p: real, q: real)
    requires x * x == p && y * y == q
    ensures (x * y) * (x * y) == p * q
  {
    calc {
      (x * y) * (x * y);
    ==
      (x * x) * (y * y);
    }
  }

  lemma LargerSquare(x: real, m: real)
    requires m >= 0.0
    ensures x > m ==> x * x > m * m
  {
    if x > m {
      PositiveProduct(x - m, x + m, (x - m) * (x + m));
      assert (x - m) * (x + m) == x * x - m * m;
    }
  }

  lemma BoundedBySquares(d: real, m: real)
    requires m >= 0.0 && d * d <= m * m
    ensures -m <= d <= m
  {
    LargerSquare(d, m);
    LargerSquare(-d, m);
    NegatedFactors(d, d);
  }

  lemma QuotientBounded(d: real, m: real)
    requires m > 0.0 && -m <= d <= m
    ensures -1.0 <= d / m <= 1.0
  {
    var q := d / m;
    assert q * m == d;
    PositiveFactor(m, 1.0 - q);
    PositiveFactor(m, 1.0 + q);
    assert m * (1.0 - q) == m - q * m && m * (1.0 + q) == m + q * m;
  }

  /** Similarity lies between -1 and 1. */
  lemma CosineBounded(sqrt: real -> real, a: seq<real>, b: seq<real>)
    requires IsSqrt(sqrt)
    ensures -1.0 <= Cosine(sqrt, a, b) <= 1.0
  {
    if |a| == |b| && a != [] && Denominator(sqrt, a, b) != 0.0 {
      NormNonNegative(a);
      NormNonNegative(b);
      CauchySchwarz(a, b);
      var m := Denominator(sqrt, a, b);
      SquareOfProduct(sqrt(Dot(a, a)), sqrt(Dot(b, b)), Dot(a, a), Dot(b, b));
      assert m >= 0.0;
      BoundedBySquares(Dot(a, b), m);
      QuotientBounded(Dot(a, b), m);
    }
  }

  /** A vector is as similar to itself as can be. */
  lemma CosineOfSelf(sqrt: real -> real, a: seq<real>)
    requires IsSqrt(sqrt) && Dot(a, a) != 0.0
    ensures Cosine(sqrt, a, a) == 1.0
  {
    NormNonNegative(a);
    assert a != [];
    var x := Dot(a, a);
    assert Denominator(sqrt, a, a) == x;
    OverItself(x);
  }

  lemma OverItself(x: real)
    requires x != 0.0
    ensures x / x == 1.0
  {
  }

  // ---------------------------------------------------------------- maximal marginal relevance

  datatype SearchResult = SearchResult(entry: string, score: real)

  datatype Candidate = Candidate(result: SearchResult, embedding: Option<seq<real>>) {
    predicate Embedded() {
      embedding.Some? && embedding.value != []
    }
  }

  function Max(x: real, y: real): real {
    if x < y then y else x
  }

  /** The largest similarity between `c` and the selected candidates, and never below 0. */
  function MaxSim(sqrt: real -> real, c: Candidate, selected: seq<Candidate>): real {
    if selected == [] then 0.0
    else
      var last := selected[|selected| - 1];
      var rest := MaxSim(sqrt, c, selected[..|selected| - 1]);
      if c.Embedded() && last.Embedded() then Max(rest, Cosine(sqrt, c.embedding.value, last.embedding.value))
      else rest
  }

  function Weighted(weight: real, relevance: real, maxSim: real): real {
    weight * relevance - (1.0 - weight) * maxSim
  }

  function Score(sqrt: real -> real, weight: real, c: Candidate, selected: seq<Candidate>): real {
    Weighted(weight, c.result.score, MaxSim(sqrt, c, selected))
  }

  lemma {:induction false} MaxSimBounded(sqrt: real -> real, c: Candidate, selected: seq<Candidate>)
    requires IsSqrt(sqrt)
    ensures 0.0 <= MaxSim(sqrt, c, selected) <= 1.0
  {
    if selected != [] {
      var n := |selected| - 1;
      MaxSimBounded(sqrt, c, selected[..n]);
      if c.Embedded() && selected[n].Embedded() {
        CosineBounded(sqrt, c.embedding.value, selected[n].embedding.value);
      }
    }
  }

  /** Diversity takes at most `1 - weight` off the weighted relevance. */
  lemma ScoreBounded(sqrt: real -> real, weight: real, c: Candidate, selected: seq<Candidate>)
    requires IsSqrt(sqrt) && 0.0 <= weight <= 1.0
    ensures weight * c.result.score - (1.0 - weight) <= Score(sqrt, weight, c, selected) <= weight * c.result.score
  {
    MaxSimBounded(sqrt, c, selected);
    Penalty(weight, c.result.score, MaxSim(sqrt, c, selected));
  }

  lemma Penalty(weight: real, relevance: real, m: real)
    requires 0.0 <= weight <= 1.0 && 0.0 <= m <= 1.0
    ensures weight * relevance - (1.0 - weight) <= Weighted(weight, relevance, m) <= weight * relevance
  {
    NonNegativeProduct(1.0 - weight, m);
    NonNegativeProduct(1.0 - weight, 1.0 - m);
    assert (1.0 - weight) * (1.0 - m) == 1.0 - weight - (1.0 - weight) * m;
  }

  predicate InRange(picks: seq<nat>, n: nat) {
    forall k :: 0 <= k < |picks| ==> picks[k] < n
  }

  function At(candidates: seq<Candidate>, picks: seq<nat>): (r: seq<Candidate>)
    requires InRange(picks, |candidates|)
    ensures |r| == |picks| && forall k :: 0 <= k < |picks| ==> r[k] == candidates[picks[k]]
  {
    seq(|picks|, k requires 0 <= k < |picks| => candidates[picks[k]])
  }

  function ResultsAt(candidates: seq<Candidate>, picks: seq<nat>): (r: seq<SearchResult>)
    requires InRange(picks, |candidates|)
    ensures |r| == |picks| && forall k :: 0 <= k < |picks| ==> r[k] == candidates[picks[k]].result
  {
    seq(|picks|, k requires 0 <= k < |picks| => candidates[picks[k]].result)
  }

  function ScoreAt(sqrt: real -> real, weight: real, candidates: seq<Candidate>, picks: seq<nat>, i: nat): real
    requires InRange(picks, |candidates|) && i < |candidates|
  {
    Score(sqrt, weight, candidates[i], At(candidates, picks))
  }

  /** After `picks`, position `p` is free, no free position scores higher, and no earlier free position ties with it. */
  ghost predicate IsPick(sqrt: real -> real, weight: real, candidates: seq<Candidate>, picks: seq<nat>, p: nat)
    requires InRange(picks, |candidates|)
  {
    && p < |candidates|
    && p !in picks
    && forall j: nat | j < |candidates| && j !in picks ::
         var other, best := ScoreAt(sqrt, weight, candidates, picks, j), ScoreAt(sqrt, weight, candidates, picks, p);
         other <= best && (j < p ==> other < best)
  }

  /** Each position is the right pick after those before it. */
  ghost predicate IsGreedy(sqrt: real -> real, weight: real, candidates: seq<Candidate>, picks: seq<nat>) {
    && InRange(picks, |candidates|)
    && forall k | 0 <= k < |picks| :: IsPick(sqrt, weight, candidates, picks[..k], picks[k])
  }

  /** Both have an embedding that is not empty, and this is their similarity. */
  ghost predicate Similarity(sqrt: real -> real, a: Candidate, b: Candidate, m: real) {
    && a.embedding.Some? && a.embedding.value != [] && b.embedding.Some? && b.embedding.value != []
    && m == Cosine(sqrt, a.embedding.value, b.embedding.value)
  }

  /** The largest of 0 and the similarities to the selected candidates. */
  ghost predicate IsLargest(sqrt: real -> real, c: Candidate, selected: seq<Candidate>, m: real) {
    && m >= 0.0 && (forall k, x | 0 <= k < |selected| && Similarity(sqrt, c, selected[k], x) :: x <= m)
    && (m == 0.0 || exists k :: 0 <= k < |selected| && Similarity(sqrt, c, selected[k], m))
  }

  lemma {:induction false} MaxSimIsLargest(sqrt: real -> real, c: Candidate, selected: seq<Candidate>)
    ensures IsLargest(sqrt, c, selected, MaxSim(sqrt, c, selected))
  {
    hide Cosine;
    if selected != [] {
      var n := |selected| - 1;
      MaxSimIsLargest(sqrt, c, selected[..n]);
      var m := MaxSim(sqrt, c, selected);
      if m != 0.0 {
        if k :| 0 <= k < n && Similarity(sqrt, c, selected[..n][k], m) {
          assert Similarity(sqrt, c, selected[k], m);
        } else {
          assert Similarity(sqrt, c, selected[n], m);
        }
      }
      forall k, x | 0 <= k < |selected| && Similarity(sqrt, c, selected[k], x) ensures x <= m {
        assert k < n ==> Similarity(sqrt, c, selected[..n][k], x);
      }
    }
  }

  method MaxSimilarity(sqrt: real -> real, candidate: Candidate, selected: seq<Candidate>) returns (maxSim: real)
    requires IsSqrt(sqrt)
    ensures maxSim == MaxSim(sqrt, candidate, selected)
    ensures IsLargest(sqrt, candidate, selected, maxSim)
  {
    MaxSimIsLargest(sqrt, candidate, selected);
    maxSim := 0.0;
    for k := 0 to |selected|
      invariant maxSim == MaxSim(sqrt, candidate, selected[..k])
    {
      assert selected[..k + 1][..k] == selected[..k];
      var sel := selected[k];
      if candidate.Embedded() && sel.Embedded() {
        var sim := CosineSim(sqrt, candidate.embedding.value, sel.embedding.value);
        if sim > maxSim {
          maxSim := sim;
        }
      }
    }
    assert selected[..|selected|] == selected;
  }

  lemma LargestIsUnique(sqrt: real -> real, c: Candidate, selected: seq<Candidate>, m: real, n: real)
    requires IsLargest(sqrt, c, selected, m) && IsLargest(sqrt, c, selected, n)
    ensures m == n
  {
    hide Similarity;
  }

  /** The weighted relevance less the rest of the weight times the largest similarity. */
  lemma ScoreIs(sqrt: real -> real, weight: real, c: Candidate, selected: seq<Candidate>, m: real)
    requires IsLargest(sqrt, c, selected, m)
    ensures Score(sqrt, weight, c, selected) == weight * c.result.score - (1.0 - weight) * m
  {
    MaxSimIsLargest(sqrt, c, selected);
    LargestIsUnique(sqrt, c, selected, m, MaxSim(sqrt, c, selected));
  }

  method BestIndex(sqrt: real -> real, weight: real, remaining: seq<Candidate>, selected: seq<Candidate>)
    returns (bestIdx: nat)
    requires IsSqrt(sqrt) && remaining != []
    ensures bestIdx < |remaining|
    ensures forall j | 0 <= j < |remaining| ::
              Score(sqrt, weight, remaining[j], selected) <= Score(sqrt, weight, remaining[bestIdx], selected)
    ensures forall j | 0 <= j < bestIdx ::
              Score(sqrt, weight, remaining[j], selected) < Score(sqrt, weight, remaining[bestIdx], selected)
  {
    hide IsLargest, MaxSim;
    var best := -1;
    var bestMmr := 0.0;
    for i := 0 to |remaining|
      invariant -1 <= best < i && (best < 0 <==> i == 0)
      invariant best >= 0 ==> bestMmr == Score(sqrt, weight, remaining[best], selected)
      invariant forall j | 0 <= j < i :: Score(sqrt, weight, remaining[j], selected) <= bestMmr
      invariant forall j | 0 <= j < best :: Score(sqrt, weight, remaining[j], selected) < bestMmr
    {
      var maxSim := MaxSimilarity(sqrt, remaining[i], selected);
      var mmrScore := weight * remaining[i].result.score - (1.0 - weight) * maxSim;
      assert mmrScore == Score(sqrt, weight, remaining[i], selected);
      if best < 0 || mmrScore > bestMmr {
        best, bestMmr := i, mmrScore;
      }
    }
    bestIdx := best;
  }

  /** `left` lists, in order, the positions below `n` that are not picked. */
  ghost predicate IsLeft(picks: seq<nat>, left: seq<nat>, n: nat) {
    && (forall k :: 0 <= k < |left| ==> left[k] < n && left[k] !in picks)
    && (forall j, k :: 0 <= j < k < |left| ==> left[j] < left[k])
    && (forall i: nat :: i < n && i !in picks ==> i in left)
  }

  /** All results in their order when they fit, else the results of exactly `limit` greedy picks. */
  ghost predicate IsReranking(sqrt: real -> real, weight: real, candidates: seq<Candidate>, limit: int,
                              results: seq<SearchResult>)
  {
    if |candidates| <= limit then results == ResultsAt(candidates, Indices(|candidates|))
    else
      exists picks ::
        && IsGreedy(sqrt, weight, candidates, picks)
        && |picks| == (if limit < 0 then 0 else limit)
        && results == ResultsAt(candidates, picks)
  }

  /** The re-ranked results, first come first on ties. */
  method ApplyMMR(sqrt: real -> real, candidates: seq<Candidate>, limit: int, weight: real)
    returns (results: seq<SearchResult>)
    requires IsSqrt(sqrt)
    ensures IsReranking(sqrt, weight, candidates, limit, results)
  {
    if |candidates| <= limit {
      return seq(|candidates|, i requires 0 <= i < |candidates| => candidates[i].result);
    }
    var selected: seq<Candidate>, remaining := [], candidates;
    ghost var picks: seq<nat>, left := [], Indices(|candidates|);
    EveryIndex(|candidates|);
    while |selected| < limit && |remaining| > 0
      invariant |selected| + |remaining| == |candidates| && (limit < 0 ==> |selected| == 0)
      invariant limit >= 0 ==> |selected| <= limit
      invariant IsGreedy(sqrt, weight, candidates, picks) && selected == At(candidates, picks)
      invariant IsLeft(picks, left, |candidates|) && remaining == At(candidates, left)
      decreases |remaining|
    {
      var bestIdx := BestIndex(sqrt, weight, remaining, selected);
      PickFound(sqrt, weight, candidates, picks, left, remaining, selected, bestIdx);
      TakeOut(candidates, picks, left, bestIdx);
      selected := selected + [remaining[bestIdx]];
      remaining := remaining[..bestIdx] + remaining[bestIdx + 1..];
      picks, left := picks + [left[bestIdx]], left[..bestIdx] + left[bestIdx + 1..];
    }
    results := seq(|selected|, i requires 0 <= i < |selected| => selected[i].result);
    assert IsGreedy(sqrt, weight, candidates, picks) && results == ResultsAt(candidates, picks);
  }

  function Indices(n: nat): (s: seq<nat>)
    ensures |s| == n && forall k :: 0 <= k < n ==> s[k] == k
  {
    seq(n, k => k)
  }

  lemma EveryIndex(n: nat)
    ensures forall i: nat :: i in Indices(n) <==> i < n
  {
    forall i: nat ensures i in Indices(n) <==> i < n {
      assert i < n ==> Indices(n)[i] == i;
    }
  }

  lemma PickFound(sqrt: real -> real, weight: real, candidates: seq<Candidate>, picks: seq<nat>, left: seq<nat>,
                  remaining: seq<Candidate>, selected: seq<Candidate>, best: nat)
    requires IsGreedy(sqrt, weight, candidates, picks) && IsLeft(picks, left, |candidates|)
    requires best < |left| && InRange(left, |candidates|)
    requires remaining == At(candidates, left) && selected == At(candidates, picks)
    requires forall j | 0 <= j < |left| ::
               Score(sqrt, weight, remaining[j], selected) <= Score(sqrt, weight, remaining[best], selected)
    requires forall j | 0 <= j < best ::
               Score(sqrt, weight, remaining[j], selected) < Score(sqrt, weight, remaining[best], selected)
    ensures IsGreedy(sqrt, weight, candidates, picks + [left[best]])
  {
    var p := left[best];
    forall j: nat | j < |candidates| && j !in picks
      ensures ScoreAt(sqrt, weight, candidates, picks, j) <= ScoreAt(sqrt, weight, candidates, picks, p)
      ensures j < p ==> ScoreAt(sqrt, weight, candidates, picks, j) < ScoreAt(sqrt, weight, candidates, picks, p)
    {
      var k :| 0 <= k < |left| && left[k] == j;
      assert remaining[k] == candidates[j];
      assert j < p ==> k < best;
    }
    assert IsPick(sqrt, weight, candidates, picks, p);
    var more := picks + [p];
    forall k | 0 <= k < |more| ensures IsPick(sqrt, weight, candidates, more[..k], more[k]) {
      assert more[..k] == picks[..k];
      assert picks[..|picks|] == picks;
    }
  }

  lemma TakeOut(candidates: seq<Candidate>, picks: seq<nat>, left: seq<nat>, best: nat)
    requires IsLeft(picks, left, |candidates|) && InRange(picks, |candidates|) && best < |left|
    ensures IsLeft(picks + [left[best]], left[..best] + left[best + 1..], |candidates|)
    ensures InRange(picks + [left[best]], |candidates|)
    ensures At(candidates, picks + [left[best]]) == At(candidates, picks) + [At(candidates, left)[best]]
    ensures At(candidates, left[..best] + left[best + 1..])
         == At(candidates, left)[..best] + At(candidates, left)[best + 1..]
  {
    LeftOver(picks, left, |candidates|, best);
  }

  lemma LeftOver(picks: seq<nat>, left: seq<nat>, n: nat, best: nat)
    requires IsLeft(picks, left, n) && best < |left|
    ensures IsLeft(picks + [left[best]], left[..best] + left[best + 1..], n)
  {
    var rest := left[..best] + left[best + 1..];
    forall k | 0 <= k < |rest| ensures rest[k] < n && rest[k] !in picks + [left[best]] {
      assert rest[k] == left[if k < best then k else k + 1];
    }
    forall i: nat | i < n && i !in picks + [left[best]] ensures i in rest {
      var k :| 0 <= k < |left| && left[k] == i;
      assert rest[if k < best then k else k - 1] == i;
    }
  }

  lemma GreedyHasNoRepeats(sqrt: real -> real, weight: real, candidates: seq<Candidate>, picks: seq<nat>)
    requires IsGreedy(sqrt, weight, candidates, picks)
    ensures forall j, k :: 0 <= j < k < |picks| ==> picks[j] != picks[k]
  {
    forall j, k | 0 <= j < k < |picks| ensures picks[j] != picks[k] {
      assert IsPick(sqrt, weight, candidates, picks[..k], picks[k]);
      assert picks[..k][j] == picks[j];
    }
  }

  /** The greedy picks of a given number are determined by the candidates. */
  lemma {:induction false} GreedyIsUnique(sqrt: real -> real, weight: real, candidates: seq<Candidate>,
                                          s: seq<nat>, t: seq<nat>)
    requires IsGreedy(sqrt, weight, candidates, s) && IsGreedy(sqrt, weight, candidates, t) && |s| == |t|
    ensures s == t
  {
    if s != [] {
      var n := |s| - 1;
      GreedyPrefix(sqrt, weight, candidates, s, n);
      GreedyPrefix(sqrt, weight, candidates, t, n);
      GreedyIsUnique(sqrt, weight, candidates, s[..n], t[..n]);
      assert IsPick(sqrt, weight, candidates, s[..n], s[n]) && IsPick(sqrt, weight, candidates, t[..n], t[n]);
      assert s[n] == t[n];
      assert s == s[..n] + [s[n]] && t == t[..n] + [t[n]];
    }
  }

  /** Hence the result is determined by the candidates, the limit and the weight. */
  lemma RerankingIsUnique(sqrt: real -> real, weight: real, candidates: seq<Candidate>, limit: int,
                          r: seq<SearchResult>, s: seq<SearchResult>)
    requires IsReranking(sqrt, weight, candidates, limit, r) && IsReranking(sqrt, weight, candidates, limit, s)
    ensures r == s
  {
    if |candidates| > limit {
      var n := if limit < 0 then 0 else limit;
      var p :| IsGreedy(sqrt, weight, candidates, p) && |p| == n && r == ResultsAt(candidates, p);
      var q :| IsGreedy(sqrt, weight, candidates, q) && |q| == n && s == ResultsAt(candidates, q);
      GreedyIsUnique(sqrt, weight, candidates, p, q);
    }
  }

  lemma GreedyPrefix(sqrt: real -> real, weight: real, candidates: seq<Candidate>, s: seq<nat>, n: nat)
    requires IsGreedy(sqrt, weight, candidates, s) && n <= |s|
    ensures IsGreedy(sqrt, weight, candidates, s[..n])
  {
    forall k | 0 <= k < n ensures IsPick(sqrt, weight, candidates, s[..n][..k], s[..n][k]) {
      assert s[..n][..k] == s[..k];
    }
  }

  // ---------------------------------------------------------------- pure relevance

  function ScoreOf(candidates: seq<Candidate>, i: nat): real {
    if i < |candidates| then candidates[i].result.score else 0.0
  }

  /** Higher scores first, equal scores in their given order. */
  function ByScore(candidates: seq<Candidate>): (nat, nat) -> bool {
    (i: nat, j: nat) =>
      ScoreOf(candidates, i) > ScoreOf(candidates, j) || (ScoreOf(candidates, i) == ScoreOf(candidates, j) && i < j)
  }

  function Ranking(candidates: seq<Candidate>): seq<nat> {
    Sort(Indices(|candidates|), ByScore(candidates))
  }

  lemma RankingIsIncreasing(candidates: seq<Candidate>)
    ensures WeakOrder(ByScore(candidates)) && Increasing(Ranking(candidates), ByScore(candidates))
    ensures |Ranking(candidates)| == |candidates|
    ensures forall i: nat :: i in Ranking(candidates) <==> i < |candidates|
  {
    var all := Indices(|candidates|);
    SortIncreasing(all, ByScore(candidates));
    EveryIndex(|candidates|);
  }

  /** With weight 1 on relevance the picks are the top of the stable descending order. */
  lemma {:induction false} PureRelevanceIsTopOfRanking(sqrt: real -> real, candidates: seq<Candidate>, picks: seq<nat>)
    requires IsGreedy(sqrt, 1.0, candidates, picks)
    ensures |picks| <= |candidates| == |Ranking(candidates)|
    ensures picks == Ranking(candidates)[..|picks|]
  {
    RankingIsIncreasing(candidates);
    var r := Ranking(candidates);
    if picks != [] {
      var n := |picks| - 1;
      GreedyPrefix(sqrt, 1.0, candidates, picks, n);
      PureRelevanceIsTopOfRanking(sqrt, candidates, picks[..n]);
      assert IsPick(sqrt, 1.0, candidates, picks[..n], picks[n]);
      assert n < |r| by { assert r[..|r|] == r; }
      FirstFree(candidates, r, n, picks[n]);
      assert r[n] in r;
      assert ScoreAt(sqrt, 1.0, candidates, picks[..n], r[n]) == ScoreOf(candidates, r[n]);
      assert ScoreAt(sqrt, 1.0, candidates, picks[..n], picks[n]) == ScoreOf(candidates, picks[n]);
      assert picks == picks[..n] + [picks[n]];
    }
  }

  /** The result then is the start of the stable descending order by score. */
  lemma PureRelevanceIsStableSort(sqrt: real -> real, candidates: seq<Candidate>, limit: nat, results: seq<SearchResult>)
    requires limit < |candidates| && IsReranking(sqrt, 1.0, candidates, limit, results)
    ensures |Ranking(candidates)| == |candidates| && InRange(Ranking(candidates), |candidates|)
    ensures results == ResultsAt(candidates, Ranking(candidates))[..limit]
  {
    var picks :| IsGreedy(sqrt, 1.0, candidates, picks) && |picks| == limit && results == ResultsAt(candidates, picks);
    PureRelevanceIsTopOfRanking(sqrt, candidates, picks);
    RankingIsIncreasing(candidates);
    var r := Ranking(candidates);
    assert forall k :: 0 <= k < |r| ==> r[k] in r;
  }

  lemma FirstFree(candidates: seq<Candidate>, r: seq<nat>, n: nat, p: nat)
    requires WeakOrder(ByScore(candidates)) && Increasing(r, ByScore(candidates)) && n < |r| && p in r
    ensures r[n] !in r[..n]
    ensures p !in r[..n] && p != r[n] ==> ByScore(candidates)(r[n], p)
  {
    assert forall k :: 0 <= k < n ==> r[..n][k] == r[k];
    var k :| 0 <= k < |r| && r[k] == p;
    assert k < n ==> p in r[..n];
  }
}
