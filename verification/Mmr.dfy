/** Maximal Marginal Relevance re-ranking (services/coven/mmr.go) over exact reals. */
module Mmr {
  import opened Wrappers
  import opened Cosine
  import opened Sorting

  datatype Candidate = Candidate(fact: int, score: real, emb: Vec)

  datatype ScoredFact = ScoredFact(fact: int, score: real)

  const DEFAULT_LAMBDA := 0.70
  const SCORE_EPSILON := 0.000000001

  /** -math.MaxFloat64, where the search for the best candidate starts. */
  const WORST_MMR := -179769313486231570814527423731704356798070567525844996598917476803157260780028538760589558632766878171540458953514382464234321326889464182768467546703537516986049910576551282076245490090389328944075868508455133942304583236903222948165808559332123348274797826204144723168738177180919299881250404026184124858368.0

  function MaxReal(x: real, y: real): real {
    if x >= y then x else y
  }

  function MinNat(x: int, y: int): int {
    if x <= y then x else y
  }

  // ----- Normalised scores -----

  ghost predicate ScoreBounds(cands: seq<Candidate>, lo: real, hi: real) {
    && (forall i :: 0 <= i < |cands| ==> lo <= cands[i].score <= hi)
    && (exists i :: 0 <= i < |cands| && cands[i].score == lo)
    && (exists i :: 0 <= i < |cands| && cands[i].score == hi)
  }

  function NormScore(score: real, lo: real, hi: real): real {
    if hi - lo > SCORE_EPSILON then (score - lo) / (hi - lo) else 1.0
  }

  method NormalizeCandidateScores(cands: seq<Candidate>) returns (norm: seq<real>, ghost lo: real, ghost hi: real)
    requires cands != []
    ensures ScoreBounds(cands, lo, hi)
    ensures |norm| == |cands| && forall i :: 0 <= i < |cands| ==> norm[i] == NormScore(cands[i].score, lo, hi)
    ensures forall i :: 0 <= i < |norm| ==> 0.0 <= norm[i] <= 1.0
  {
    var minScore, maxScore := cands[0].score, cands[0].score;
    for n := 1 to |cands|
      invariant forall i :: 0 <= i < n ==> minScore <= cands[i].score <= maxScore
      invariant exists i :: 0 <= i < n && cands[i].score == minScore
      invariant exists i :: 0 <= i < n && cands[i].score == maxScore
    {
      if cands[n].score < minScore {
        minScore := cands[n].score;
      }
      if cands[n].score > maxScore {
        maxScore := cands[n].score;
      }
    }
    lo, hi := minScore, maxScore;
    norm := [];
    for n := 0 to |cands|
      invariant |norm| == n && forall i :: 0 <= i < n ==> norm[i] == NormScore(cands[i].score, lo, hi)
      invariant forall i :: 0 <= i < n ==> 0.0 <= norm[i] <= 1.0
    {
      NormIsBounded(cands[n].score, minScore, maxScore);
      norm := norm + [NormScore(cands[n].score, minScore, maxScore)];
    }
  }

  lemma NormIsBounded(score: real, lo: real, hi: real)
    requires lo <= score <= hi
    ensures 0.0 <= NormScore(score, lo, hi) <= 1.0
  {
    if hi - lo > SCORE_EPSILON {
      FractionBound(score - lo, hi - lo);
    }
  }

  lemma FractionBound(x: real, y: real)
    requires 0.0 <= x <= y && 0.0 < y
    ensures 0.0 <= x / y <= 1.0
  {
    var q := x / y;
    assert q * y == x;
  }

  // ----- The objective -----

  function MaxSimilarity(sqrt: real -> real, emb: Vec, selected: seq<Vec>): real {
    if emb == [] || selected == [] then 0.0
    else
      var rest := MaxSimilarity(sqrt, emb, selected[..|selected| - 1]);
      var last := selected[|selected| - 1];
      if last == [] then rest else MaxReal(rest, Similarity(sqrt, emb, last))
  }

  method MaxSimilarityToSelected(sqrt: real -> real, emb: Vec, selected: seq<Vec>) returns (maxSim: real)
    requires IsSqrt(sqrt)
    ensures maxSim == MaxSimilarity(sqrt, emb, selected)
  {
    maxSim := 0.0;
    if |emb| == 0 {
      return;
    }
    for n := 0 to |selected|
      invariant maxSim == MaxSimilarity(sqrt, emb, selected[..n])
    {
      assert selected[..n + 1][..n] == selected[..n];
      if |selected[n]| > 0 {
        var sim := CosineSimilarity(sqrt, emb, selected[n]);
        if sim > maxSim {
          maxSim := sim;
        }
      }
    }
    assert selected[..|selected|] == selected;
  }

  /** The penalty is between 0 and 1: Cauchy-Schwarz bounds every similarity in it. */
  lemma {:induction false} MaxSimilarityIsBounded(sqrt: real -> real, emb: Vec, selected: seq<Vec>)
    requires IsSqrt(sqrt)
    ensures 0.0 <= MaxSimilarity(sqrt, emb, selected) <= 1.0
  {
    if emb != [] && selected != [] {
      MaxSimilarityIsBounded(sqrt, emb, selected[..|selected| - 1]);
      SimilarityIsBounded(sqrt, emb, selected[|selected| - 1]);
    }
  }

  /** The input of one re-ranking: candidates, their normalised scores and the effective lambda. */
  datatype Ranking = Ranking(sqrt: real -> real, cands: seq<Candidate>, norm: seq<real>, balance: real)

  ghost predicate ValidRanking(r: Ranking) {
    && IsSqrt(r.sqrt) && |r.norm| == |r.cands| && 0.0 < r.balance <= 1.0
    && forall i :: 0 <= i < |r.norm| ==> 0.0 <= r.norm[i] <= 1.0
  }

  function Embeddings(cands: seq<Candidate>, picks: seq<int>): seq<Vec>
    requires forall k :: 0 <= k < |picks| ==> 0 <= picks[k] < |cands|
  {
    seq(|picks|, k requires 0 <= k < |picks| => cands[picks[k]].emb)
  }

  predicate Picked(n: nat, picks: seq<int>) {
    forall k :: 0 <= k < |picks| ==> 0 <= picks[k] < n
  }

  function Objective(r: Ranking, picks: seq<int>, i: int): real
    requires |r.norm| == |r.cands| && Picked(|r.cands|, picks) && 0 <= i < |r.cands|
  {
    Weigh(r.balance, r.norm[i], Penalty(r, picks, i))
  }

  function Weigh(balance: real, relevance: real, penalty: real): real {
    balance * relevance - (1.0 - balance) * penalty
  }

  function Penalty(r: Ranking, picks: seq<int>, i: int): real
    requires Picked(|r.cands|, picks) && 0 <= i < |r.cands|
  {
    MaxSimilarity(r.sqrt, r.cands[i].emb, Embeddings(r.cands, picks))
  }

  lemma ObjectiveBeatsWorst(r: Ranking, picks: seq<int>, i: int)
    requires ValidRanking(r) && Picked(|r.cands|, picks) && 0 <= i < |r.cands|
    ensures Objective(r, picks, i) > WORST_MMR
  {
    var penalty := Penalty(r, picks, i);
    assert 0.0 <= penalty <= 1.0 by {
      MaxSimilarityIsBounded(r.sqrt, r.cands[i].emb, Embeddings(r.cands, picks));
    }
    WeightedBound(r.balance, r.norm[i], penalty);
  }

  lemma WeightedBound(balance: real, x: real, y: real)
    requires 0.0 < balance <= 1.0 && 0.0 <= x <= 1.0 && 0.0 <= y <= 1.0
    ensures Weigh(balance, x, y) >= -1.0 > WORST_MMR
  {
    assert balance * x >= 0.0;
    assert (1.0 - balance) * y <= 1.0 - balance;
  }

  /** i is the earliest unpicked candidate with the largest objective. */
  ghost predicate IsBest(r: Ranking, picks: seq<int>, i: int)
    requires |r.norm| == |r.cands| && Picked(|r.cands|, picks)
  {
    && 0 <= i < |r.cands| && i !in picks
    && forall j :: 0 <= j < |r.cands| && j !in picks ==>
         Objective(r, picks, j) <= Objective(r, picks, i) && (j < i ==> Objective(r, picks, j) < Objective(r, picks, i))
  }

  /** Every pick is the best one given the picks before it. */
  ghost predicate Greedy(r: Ranking, picks: seq<int>)
    requires |r.norm| == |r.cands|
  {
    Picked(|r.cands|, picks) && forall k :: 0 <= k < |picks| ==> IsBest(r, picks[..k], picks[k])
  }

  function Chosen(cands: seq<Candidate>, picks: seq<int>): seq<ScoredFact>
    requires Picked(|cands|, picks)
  {
    seq(|picks|, k requires 0 <= k < |picks| => ScoredFact(cands[picks[k]].fact, cands[picks[k]].score))
  }

  // ----- The program -----

  method ScoreOf(r: Ranking, picks: seq<int>, i: int) returns (mmrScore: real)
    requires ValidRanking(r) && Picked(|r.cands|, picks) && 0 <= i < |r.cands|
    ensures mmrScore == Objective(r, picks, i) && mmrScore > WORST_MMR
  {
    var maxSim := MaxSimilarityToSelected(r.sqrt, r.cands[i].emb, Embeddings(r.cands, picks));
    mmrScore := Weigh(r.balance, r.norm[i], maxSim);
    ObjectiveBeatsWorst(r, picks, i);
  }

  ghost function Objectives(r: Ranking, picks: seq<int>): (scores: seq<real>)
    requires |r.norm| == |r.cands| && Picked(|r.cands|, picks)
    ensures |scores| == |r.cands| && forall i :: 0 <= i < |scores| ==> scores[i] == Objective(r, picks, i)
  {
    seq(|r.cands|, i requires 0 <= i < |r.cands| => Objective(r, picks, i))
  }

  /** Best so far among the first n scores, skipping picked positions. */
  ghost predicate BestUpTo(scores: seq<real>, picks: seq<int>, n: nat, best: int)
    requires n <= |scores|
  {
    && 0 <= best < n && best !in picks
    && forall j :: 0 <= j < n && j !in picks ==> scores[j] <= scores[best] && (j < best ==> scores[j] < scores[best])
  }

  /** One round of the search. It finds nobody only when everybody is picked already: every
      objective beats the value the search starts from. */
  method PickBest(r: Ranking, picks: seq<int>, chosen: set<int>) returns (bestIdx: int)
    requires ValidRanking(r) && Picked(|r.cands|, picks)
    requires forall i :: i in chosen <==> i in picks
    ensures bestIdx == -1 <==> forall i :: 0 <= i < |r.cands| ==> i in picks
    ensures bestIdx != -1 ==> IsBest(r, picks, bestIdx)
    ensures bestIdx != -1 ==> BestTradeOff(r.sqrt, r.cands, r.norm, r.balance, picks, bestIdx)
  {
    bestIdx := -1;
    var bestMmr := WORST_MMR;
    ghost var scores := Objectives(r, picks);
    for i := 0 to |r.cands|
      invariant bestIdx == -1 ==> bestMmr == WORST_MMR && forall j :: 0 <= j < i ==> j in picks
      invariant bestIdx != -1 ==> BestUpTo(scores, picks, i, bestIdx) && bestMmr == scores[bestIdx]
    {
      if i in chosen {
        continue;
      }
      var mmrScore := ScoreOf(r, picks, i);
      if mmrScore > bestMmr {
        bestMmr := mmrScore;
        bestIdx := i;
      }
    }
    if bestIdx != -1 {
      BestIsTradeOff(r, picks, bestIdx);
    }
  }

  ghost predicate Normalized(r: Ranking, lo: real, hi: real) {
    && ScoreBounds(r.cands, lo, hi) && |r.norm| == |r.cands|
    && forall i :: 0 <= i < |r.cands| ==> r.norm[i] == NormScore(r.cands[i].score, lo, hi)
  }

  // ----- What a pick trades off -----

  /** pen is the largest of 0 and the similarities of candidate i to the candidates picked before. */
  ghost predicate IsPenalty(sqrt: real -> real, cands: seq<Candidate>, before: seq<int>, i: int, pen: real)
    requires Picked(|cands|, before) && 0 <= i < |cands|
  {
    && pen >= 0.0
    && (forall k :: 0 <= k < |before| ==> Similarity(sqrt, cands[i].emb, cands[before[k]].emb) <= pen)
    && (pen == 0.0 || exists k :: 0 <= k < |before| && Similarity(sqrt, cands[i].emb, cands[before[k]].emb) == pen)
  }

  /** Relevance x with penalty y is worth no more than relevance u with penalty v. */
  ghost predicate WorthAtMost(balance: real, x: real, y: real, u: real, v: real) {
    balance * x - (1.0 - balance) * y <= balance * u - (1.0 - balance) * v
  }

  ghost predicate WorthLess(balance: real, x: real, y: real, u: real, v: real) {
    balance * x - (1.0 - balance) * y < balance * u - (1.0 - balance) * v
  }

  /** No other candidate has more relevance for its penalty than p, and no earlier one as much. */
  ghost predicate BestTradeOff(
    sqrt: real -> real, cands: seq<Candidate>, norm: seq<real>, balance: real, before: seq<int>, p: int)
    requires |norm| == |cands| && Picked(|cands|, before) && 0 <= p < |cands|
  {
    forall j, penJ, penP ::
      (0 <= j < |cands| && j !in before
       && IsPenalty(sqrt, cands, before, j, penJ) && IsPenalty(sqrt, cands, before, p, penP)) ==>
      && WorthAtMost(balance, norm[j], penJ, norm[p], penP)
      && (j < p ==> WorthLess(balance, norm[j], penJ, norm[p], penP))
  }

  lemma {:induction false} MaxSimilarityIsLargest(sqrt: real -> real, emb: Vec, selected: seq<Vec>)
    ensures var pen := MaxSimilarity(sqrt, emb, selected);
      && pen >= 0.0
      && (forall k :: 0 <= k < |selected| ==> Similarity(sqrt, emb, selected[k]) <= pen)
      && (pen == 0.0 || exists k :: 0 <= k < |selected| && Similarity(sqrt, emb, selected[k]) == pen)
  {
    if emb != [] && selected != [] {
      var front := selected[..|selected| - 1];
      MaxSimilarityIsLargest(sqrt, emb, front);
      assert forall k :: 0 <= k < |front| ==> front[k] == selected[k];
      var pen := MaxSimilarity(sqrt, emb, selected);
      if pen == MaxSimilarity(sqrt, emb, front) && pen != 0.0 {
        var k :| 0 <= k < |front| && Similarity(sqrt, emb, front[k]) == pen;
        assert Similarity(sqrt, emb, selected[k]) == pen;
      }
    }
  }

  lemma PenaltyIsLargest(r: Ranking, before: seq<int>, i: int, pen: real)
    requires Picked(|r.cands|, before) && 0 <= i < |r.cands|
    ensures IsPenalty(r.sqrt, r.cands, before, i, pen) <==> pen == Penalty(r, before, i)
  {
    var selected := Embeddings(r.cands, before);
    MaxSimilarityIsLargest(r.sqrt, r.cands[i].emb, selected);
    assert forall k :: 0 <= k < |before| ==> selected[k] == r.cands[before[k]].emb;
    assert IsPenalty(r.sqrt, r.cands, before, i, Penalty(r, before, i));
  }

  lemma WeighCompares(balance: real, x: real, y: real, u: real, v: real)
    ensures Weigh(balance, x, y) <= Weigh(balance, u, v) <==> WorthAtMost(balance, x, y, u, v)
    ensures Weigh(balance, x, y) < Weigh(balance, u, v) <==> WorthLess(balance, x, y, u, v)
  {
  }

  lemma BestIsTradeOff(r: Ranking, before: seq<int>, p: int)
    requires |r.norm| == |r.cands| && Picked(|r.cands|, before) && IsBest(r, before, p)
    ensures BestTradeOff(r.sqrt, r.cands, r.norm, r.balance, before, p)
  {
    forall j, penJ, penP | 0 <= j < |r.cands| && j !in before
      && IsPenalty(r.sqrt, r.cands, before, j, penJ) && IsPenalty(r.sqrt, r.cands, before, p, penP)
      ensures WorthAtMost(r.balance, r.norm[j], penJ, r.norm[p], penP)
      ensures j < p ==> WorthLess(r.balance, r.norm[j], penJ, r.norm[p], penP)
    {
      PenaltyIsLargest(r, before, j, penJ);
      PenaltyIsLargest(r, before, p, penP);
      WeighCompares(r.balance, r.norm[j], penJ, r.norm[p], penP);
      assert Objective(r, before, j) <= Objective(r, before, p);
    }
  }

  /** Every pick is the best trade-off given the picks before it. */
  ghost predicate AllBestTradeOffs(
    sqrt: real -> real, cands: seq<Candidate>, norm: seq<real>, balance: real, picks: seq<int>)
    requires |norm| == |cands| && Picked(|cands|, picks)
  {
    forall k :: 0 <= k < |picks| ==> BestTradeOff(sqrt, cands, norm, balance, picks[..k], picks[k])
  }

  lemma GreedyTradesOff(r: Ranking, picks: seq<int>)
    requires |r.norm| == |r.cands| && Greedy(r, picks)
    ensures AllBestTradeOffs(r.sqrt, r.cands, r.norm, r.balance, picks)
  {
    forall k | 0 <= k < |picks|
      ensures BestTradeOff(r.sqrt, r.cands, r.norm, r.balance, picks[..k], picks[k])
    {
      BestIsTradeOff(r, picks[..k], picks[k]);
    }
  }

  /** Of two equally relevant candidates the one less similar to what was picked goes first. */
  lemma LessSimilarGoesFirst(
    sqrt: real -> real, cands: seq<Candidate>, norm: seq<real>, balance: real, picks: seq<int>,
    k: nat, a: int, b: int, penA: real, penB: real)
    requires |norm| == |cands| && Picked(|cands|, picks) && AllBestTradeOffs(sqrt, cands, norm, balance, picks)
    requires k < |picks| && balance < 1.0 && 0 <= a < |cands| && 0 <= b < |cands| && norm[a] == norm[b]
    requires a !in picks[..k] && IsPenalty(sqrt, cands, picks[..k], a, penA)
    requires IsPenalty(sqrt, cands, picks[..k], b, penB) && penA < penB
    ensures picks[k] != b
  {
    assert BestTradeOff(sqrt, cands, norm, balance, picks[..k], picks[k]);
    SmallerPenaltyIsBetter(balance, norm[a], penA, penB);
  }

  lemma SmallerPenaltyIsBetter(balance: real, x: real, penA: real, penB: real)
    requires balance < 1.0 && penA < penB
    ensures !WorthAtMost(balance, x, penA, x, penB)
  {
    var w := 1.0 - balance;
    ProductGrows(w, penA, penB);
    var a, b, gain := w * penA, w * penB, balance * x;
    assert a == (1.0 - balance) * penA && b == (1.0 - balance) * penB;
    assert WorthAtMost(balance, x, penA, x, penB) <==> gain - a <= gain - b;
  }

  lemma ProductGrows(w: real, a: real, b: real)
    requires w > 0.0 && a < b
    ensures w * a < w * b
  {
    var d := b - a;
    assert w * d > 0.0;
    assert w * (a + d) == w * a + w * d;
  }

  function EffectiveLambda(balance: real): real {
    if balance <= 0.0 || balance > 1.0 then DEFAULT_LAMBDA else balance
  }

  /** Exactly min(limit, n) candidates, each the best at its turn under the normalised scores. */
  ghost predicate IsSelection(
    sqrt: real -> real, cands: seq<Candidate>, balance: real, limit: int, selected: seq<ScoredFact>, picks: seq<int>,
    r: Ranking)
  {
    && r.cands == cands && r.sqrt == sqrt && r.balance == EffectiveLambda(balance) && |r.norm| == |cands|
    && (cands != [] ==> exists lo, hi :: Normalized(r, lo, hi))
    && |picks| == (if limit <= 0 then 0 else MinNat(limit, |cands|))
    && Greedy(r, picks) && selected == Chosen(cands, picks)
  }

  method Select(sqrt: real -> real, cands: seq<Candidate>, balance: real, limit: int)
    returns (selected: seq<ScoredFact>, picks: seq<int>, ghost r: Ranking)
    requires IsSqrt(sqrt)
    ensures |selected| == |picks| == if limit <= 0 then 0 else MinNat(limit, |cands|)
    ensures forall k :: 0 <= k < |picks| ==> 0 <= picks[k] < |cands| && selected[k].fact == cands[picks[k]].fact
    ensures IsSelection(sqrt, cands, balance, limit, selected, picks, r)
    ensures AllBestTradeOffs(sqrt, cands, r.norm, if 0.0 < balance <= 1.0 then balance else 0.70, picks)
  {
    selected, picks := [], [];
    r := Ranking(sqrt, cands, seq(|cands|, i => 1.0), EffectiveLambda(balance));
    if |cands| == 0 {
      return;
    }
    var norm, lo, hi := NormalizeCandidateScores(cands);
    var ranking := Ranking(sqrt, cands, norm, EffectiveLambda(balance));
    r := ranking;
    assert Normalized(r, lo, hi);
    if limit <= 0 {
      return;
    }
    var chosen: set<int> := {};
    var count := MinNat(limit, |cands|);
    while |picks| < count
      invariant |picks| <= count && Greedy(ranking, picks) && selected == Chosen(cands, picks)
      invariant forall i :: i in chosen <==> i in picks
      decreases count - |picks|
    {
      var bestIdx := PickBest(ranking, picks, chosen);
      IndexIsLeft(|cands|, picks);
      GreedyExtends(ranking, picks, bestIdx);
      chosen := chosen + {bestIdx};
      selected := selected + [ScoredFact(cands[bestIdx].fact, cands[bestIdx].score)];
      picks := picks + [bestIdx];
    }
    GreedyTradesOff(ranking, picks);
  }

  lemma GreedyExtends(r: Ranking, picks: seq<int>, i: int)
    requires |r.norm| == |r.cands| && Greedy(r, picks) && IsBest(r, picks, i)
    ensures Greedy(r, picks + [i])
  {
    var longer := picks + [i];
    forall k | 0 <= k < |longer|
      ensures IsBest(r, longer[..k], longer[k])
    {
      assert longer[..k] == picks[..k];
      assert k == |picks| ==> picks[..k] == picks;
    }
  }

  lemma IndexIsLeft(n: nat, picks: seq<int>)
    requires |picks| < n
    ensures exists i :: 0 <= i < n && i !in picks
  {
    var all := seq(n, i => i);
    SomeoneIsLeft(all, picks);
    var i :| i in all && i !in picks;
    assert 0 <= i < n && i !in picks;
  }

  // ----- Consequences -----

  lemma {:induction false} PicksAreDistinct(r: Ranking, picks: seq<int>)
    requires |r.norm| == |r.cands| && Greedy(r, picks)
    ensures forall i, j :: 0 <= i < j < |picks| ==> picks[i] != picks[j]
  {
    forall i, j | 0 <= i < j < |picks|
      ensures picks[i] != picks[j]
    {
      assert IsBest(r, picks[..j], picks[j]);
      assert picks[..j][i] == picks[i];
    }
  }

  lemma BestIsUnique(r: Ranking, picks: seq<int>, i: int, j: int)
    requires |r.norm| == |r.cands| && Picked(|r.cands|, picks) && IsBest(r, picks, i) && IsBest(r, picks, j)
    ensures i == j
  {
  }

  /** Raising the limit only appends: the shorter result is a prefix of the longer one. */
  lemma {:induction false} SmallerLimitIsPrefix(r: Ranking, short: seq<int>, long: seq<int>)
    requires |r.norm| == |r.cands| && Greedy(r, short) && Greedy(r, long) && |short| <= |long|
    ensures short <= long
    decreases |short|
  {
    if short != [] {
      var n := |short| - 1;
      assert forall k :: 0 <= k < n ==> short[..n][..k] == short[..k];
      SmallerLimitIsPrefix(r, short[..n], long);
      assert long[..n] == short[..n];
      BestIsUnique(r, short[..n], short[n], long[n]);
    }
  }

  /** The normalised scores depend on the candidates alone. */
  lemma RankingIsUnique(r: Ranking, s: Ranking, lo: real, hi: real, lo': real, hi': real)
    requires r.cands == s.cands && Normalized(r, lo, hi) && Normalized(s, lo', hi')
    ensures r.norm == s.norm
  {
    assert lo == lo' && hi == hi';
  }

  /** Of two calls that differ in the limit only, the smaller one returns a prefix of the other. */
  lemma SelectionsArePrefixes(
    sqrt: real -> real, cands: seq<Candidate>, balance: real,
    low: int, few: seq<ScoredFact>, short: seq<int>, r: Ranking, high: int, many: seq<ScoredFact>, long: seq<int>,
    s: Ranking)
    requires low <= high
    requires IsSelection(sqrt, cands, balance, low, few, short, r) &&
      IsSelection(sqrt, cands, balance, high, many, long, s)
    ensures short <= long && few <= many
  {
    if cands != [] {
      var lo, hi :| Normalized(r, lo, hi);
      var lo', hi' :| Normalized(s, lo', hi');
      RankingIsUnique(r, s, lo, hi, lo', hi');
      assert r == s;
      SmallerLimitIsPrefix(r, short, long);
    }
    assert forall k :: 0 <= k < |few| ==> few[k] == many[k];
  }

  // ----- Pure relevance -----

  function Indices(n: nat): seq<int> {
    seq(n, i => i)
  }

  lemma IndicesAreAll(n: nat)
    ensures forall i :: i in Indices(n) <==> 0 <= i < n
  {
    forall i | 0 <= i < n
      ensures i in Indices(n)
    {
      assert Indices(n)[i] == i;
    }
  }

  function ScoreAt(cands: seq<Candidate>, i: int): real {
    if 0 <= i < |cands| then cands[i].score else 0.0
  }

  /** Descending by score, for a stable sort of candidate positions. */
  function ByScore(cands: seq<Candidate>): (int, int) -> bool {
    (i, j) => ScoreAt(cands, i) > ScoreAt(cands, j)
  }

  function Self(): int -> int {
    i => i
  }

  lemma FractionIsMonotone(x: real, y: real, d: real)
    requires d > 0.0
    ensures x / d < y / d <==> x < y
  {
    var p, q := x / d, y / d;
    assert p * d == x && q * d == y;
    if p < q {
      assert p * d < q * d;
    } else {
      assert p * d >= q * d;
    }
  }

  /** With lambda 1 and scores apart, the objective orders candidates as their scores do. */
  lemma ObjectiveIsRelevance(r: Ranking, lo: real, hi: real, picks: seq<int>, i: int, j: int)
    requires Normalized(r, lo, hi) && r.balance == 1.0 && hi - lo > SCORE_EPSILON && Picked(|r.cands|, picks)
    requires 0 <= i < |r.cands| && 0 <= j < |r.cands|
    ensures Objective(r, picks, i) < Objective(r, picks, j) <==> r.cands[i].score < r.cands[j].score
  {
    ZeroPenalty(r.norm[i], Penalty(r, picks, i));
    ZeroPenalty(r.norm[j], Penalty(r, picks, j));
    FractionIsMonotone(r.cands[i].score - lo, r.cands[j].score - lo, hi - lo);
  }

  lemma ZeroPenalty(x: real, y: real)
    ensures Weigh(1.0, x, y) == x
  {
  }

  /** With lambda 1 and scores apart, the picks are the head of a stable descending sort by score. */
  lemma {:induction false} LambdaOneIsStableSort(r: Ranking, lo: real, hi: real, picks: seq<int>)
    requires Normalized(r, lo, hi) && r.balance == 1.0 && hi - lo > SCORE_EPSILON && Greedy(r, picks)
    ensures picks <= Sort(Indices(|r.cands|), ByScore(r.cands))
    decreases |picks|
  {
    var all := Indices(|r.cands|);
    var sorted := Sort(all, ByScore(r.cands));
    SortKeepsElements(all, ByScore(r.cands));
    if picks != [] {
      var n := |picks| - 1;
      var before := picks[..n];
      assert forall k :: 0 <= k < n ==> before[..k] == picks[..k];
      LambdaOneIsStableSort(r, lo, hi, before);
      PicksAreDistinct(r, picks);
      assert IsBest(r, before, picks[n]);
      IndicesAreAll(|r.cands|);
      SortIsStable(all, ByScore(r.cands), Self());
      NextInOrder(r, lo, hi, before, sorted, picks[n]);
    }
  }

  /** A position behind another in the stable sort is no better a pick. */
  lemma BehindIsNoBetter(r: Ranking, lo: real, hi: real, before: seq<int>, next: int, j: int)
    requires Normalized(r, lo, hi) && r.balance == 1.0 && hi - lo > SCORE_EPSILON && Picked(|r.cands|, before)
    requires 0 <= next < |r.cands| && 0 <= j < |r.cands|
    requires j == next || Precedes(next, j, ByScore(r.cands), Self())
    ensures Objective(r, before, j) <= Objective(r, before, next)
    ensures j < next ==> Objective(r, before, j) < Objective(r, before, next)
  {
    ObjectiveIsRelevance(r, lo, hi, before, next, j);
    ObjectiveIsRelevance(r, lo, hi, before, j, next);
  }

  /** The next position of the stable sort is the best pick. */
  lemma NextInOrder(r: Ranking, lo: real, hi: real, before: seq<int>, sorted: seq<int>, pick: int)
    requires Normalized(r, lo, hi) && r.balance == 1.0 && hi - lo > SCORE_EPSILON
    requires Picked(|r.cands|, before) && IsBest(r, before, pick)
    requires before <= sorted && StablySorted(sorted, ByScore(r.cands), Self())
    requires forall i :: i in sorted <==> 0 <= i < |r.cands|
    ensures |before| < |sorted| && sorted[|before|] == pick
  {
    var n := |before|;
    assert forall m :: 0 <= m < n ==> sorted[m] == before[m];
    assert pick in sorted;
    var k :| 0 <= k < |sorted| && sorted[k] == pick;
    assert k >= n;
    var next := sorted[n];
    assert next in sorted;
    assert next !in before by {
      assert forall m :: 0 <= m < n ==> Precedes(sorted[m], sorted[n], ByScore(r.cands), Self());
    }
    forall j | 0 <= j < |r.cands| && j !in before
      ensures Objective(r, before, j) <= Objective(r, before, next)
      ensures j < next ==> Objective(r, before, j) < Objective(r, before, next)
    {
      assert j in sorted;
      var m :| 0 <= m < |sorted| && sorted[m] == j;
      assert m >= n;
      assert m > n ==> Precedes(sorted[n], sorted[m], ByScore(r.cands), Self());
      BehindIsNoBetter(r, lo, hi, before, next, j);
    }
    BestIsUnique(r, before, pick, next);
  }
}
