/** Rubric scoring: per-criterion judgements to a weighted total and a verdict. */
module Verdict {
  import opened Seqs

  datatype CriterionScore = CriterionScore(criterionId: string, score: real, maxScore: real)

  datatype Criterion = Criterion(id: string, weight: real)

  datatype Verdict = NotAchieved | PartiallyAchieved | Achieved

  const PARTIAL_ACHIEVEMENT_RATIO := 0.6

  // ----- sums

  function Sum<T>(s: seq<T>, f: T -> real): real {
    if s == [] then 0.0 else Sum(s[..|s| - 1], f) + f(s[|s| - 1])
  }

  lemma SumPush<T>(s: seq<T>, x: T, f: T -> real)
    ensures Sum(s + [x], f) == Sum(s, f) + f(x)
  {
    assert (s + [x])[..|s|] == s;
  }

  lemma {:induction false} SumConcat<T>(s: seq<T>, t: seq<T>, f: T -> real)
    ensures Sum(s + t, f) == Sum(s, f) + Sum(t, f)
  {
    if t == [] {
      assert s + t == s;
    } else {
      var n := |t| - 1;
      SumConcat(s, t[..n], f);
      SumPush(s + t[..n], t[n], f);
      assert s + t == s + t[..n] + [t[n]];
    }
  }

  lemma TakenOut<T>(t: seq<T>, k: nat)
    requires k < |t|
    ensures multiset(t[..k] + t[k + 1..]) == multiset(t) - multiset{t[k]}
  {
    assert t == t[..k] + ([t[k]] + t[k + 1..]);
  }

  lemma SumTakenOut<T>(t: seq<T>, k: nat, f: T -> real)
    requires k < |t|
    ensures Sum(t, f) == Sum(t[..k] + t[k + 1..], f) + f(t[k])
  {
    hide Sum;
    var before, after, x := t[..k], t[k + 1..], t[k];
    assert t == (before + [x]) + after;
    SumConcat(before, after, f);
    SumPush(before, x, f);
    SumConcat(before + [x], after, f);
  }

  lemma {:induction false} SumOfPermutation<T(!new)>(s: seq<T>, t: seq<T>, f: T -> real)
    requires multiset(s) == multiset(t)
    ensures Sum(s, f) == Sum(t, f)
    decreases |s|
  {
    if s == [] {
      assert |multiset(t)| == 0;
    } else {
      var n := |s| - 1;
      var front, x := s[..n], s[n];
      assert s == front + [x];
      assert x in multiset(t);
      var k :| 0 <= k < |t| && t[k] == x;
      TakenOut(t, k);
      SumOfPermutation(front, t[..k] + t[k + 1..], f);
      SumTakenOut(t, k, f);
    }
  }

  lemma {:induction false} SumBetween<T>(s: seq<T>, lo: T -> real, f: T -> real)
    requires forall i :: 0 <= i < |s| ==> lo(s[i]) <= f(s[i])
    ensures Sum(s, lo) <= Sum(s, f)
  {
    if s != [] {
      SumBetween(s[..|s| - 1], lo, f);
    }
  }

  // ----- the score

  function Flat<T>(answers: seq<seq<T>>): seq<T> {
    if answers == [] then [] else answers[0] + Flat(answers[1..])
  }

  predicate Counts(s: CriterionScore, id: string) {
    s.criterionId == id && s.maxScore > 0.0
  }

  function CountsFor(id: string): CriterionScore -> bool {
    (s: CriterionScore) => Counts(s, id)
  }

  function ScoresFor(answers: seq<seq<CriterionScore>>, id: string): seq<CriterionScore> {
    Filter(Flat(answers), CountsFor(id))
  }

  function Ratio(s: CriterionScore): real {
    if s.maxScore == 0.0 then 0.0 else s.score / s.maxScore
  }

  function Average(scores: seq<CriterionScore>): real
    requires scores != []
  {
    Sum(scores, Ratio) / |scores| as real
  }

  /** What one criterion adds; a criterion without counted scores adds nothing. */
  function Share(answers: seq<seq<CriterionScore>>, c: Criterion): real {
    if ScoresFor(answers, c.id) == [] then 0.0 else Average(ScoresFor(answers, c.id)) * c.weight
  }

  function ShareOf(answers: seq<seq<CriterionScore>>): Criterion -> real {
    (c: Criterion) => Share(answers, c)
  }

  function Shares(answers: seq<seq<CriterionScore>>, criteria: seq<Criterion>): real {
    Sum(criteria, ShareOf(answers))
  }

  function Weight(c: Criterion): real {
    c.weight
  }

  /** The sum of all weights, counted or not; a zero sum is read as 1. */
  function TotalWeight(criteria: seq<Criterion>): (w: real)
    ensures w != 0.0
  {
    if Sum(criteria, Weight) == 0.0 then 1.0 else Sum(criteria, Weight)
  }

  /** `Math.round` of ECMA-262 section 21.3.2.28: halves go up. */
  function Round(x: real): int {
    (x + 0.5).Floor
  }

  function Percentage(part: real, whole: real): int
    requires whole != 0.0
  {
    Round(part / whole * 100.0)
  }

  function WeightedScore(answers: seq<seq<CriterionScore>>, criteria: seq<Criterion>): int {
    if criteria == [] then 0 else Percentage(Shares(answers, criteria), TotalWeight(criteria))
  }

  method ComputeWeightedScore(answers: seq<seq<CriterionScore>>, criteria: seq<Criterion>) returns (total: int)
    ensures total == WeightedScore(answers, criteria)
  {
    if criteria == [] {
      return 0;
    }
    var totalWeight := TotalWeight(criteria);
    var weightedSum := 0.0;
    for k := 0 to |criteria|
      invariant weightedSum == Shares(answers, criteria[..k])
    {
      TakeMore(criteria, k);
      SharesPush(answers, criteria[..k], criteria[k]);
      var scoresForCriterion := ScoresFor(answers, criteria[k].id);
      if scoresForCriterion == [] {
        continue;
      }
      weightedSum := weightedSum + Average(scoresForCriterion) * criteria[k].weight;
    }
    assert criteria[..|criteria|] == criteria;
    total := Round(weightedSum / totalWeight * 100.0);
  }

  lemma SharesPush(answers: seq<seq<CriterionScore>>, criteria: seq<Criterion>, c: Criterion)
    ensures Shares(answers, criteria + [c]) == Shares(answers, criteria) + Share(answers, c)
  {
    SumPush(criteria, c, ShareOf(answers));
  }

  function DeriveVerdict(totalScore: int, passThreshold: real): Verdict {
    if totalScore as real >= passThreshold then Achieved
    else if totalScore as real >= passThreshold * PARTIAL_ACHIEVEMENT_RATIO then PartiallyAchieved
    else NotAchieved
  }

  // ----- the score and the verdict, said at once

  ghost function Judgements(answers: seq<seq<CriterionScore>>, id: string): seq<CriterionScore> {
    Filter(Flat(answers), (s: CriterionScore) => s.criterionId == id && s.maxScore > 0.0)
  }

  ghost function MeanShare(scores: seq<CriterionScore>): real {
    if scores == [] then 0.0
    else Sum(scores, (s: CriterionScore) => if s.maxScore > 0.0 then s.score / s.maxScore else 0.0) / |scores| as real
  }

  /** The mean share of each criterion, weighted, over all the weight; a zero weight is read as 1. */
  ghost function ExactShare(answers: seq<seq<CriterionScore>>, criteria: seq<Criterion>): real {
    var weight := Sum(criteria, (c: Criterion) => c.weight);
    Sum(criteria, (c: Criterion) => MeanShare(Judgements(answers, c.id)) * c.weight) / if weight == 0.0 then 1.0 else weight
  }

  lemma {:induction false} SumSame<T>(s: seq<T>, f: T -> real, g: T -> real)
    requires forall x :: x in s ==> f(x) == g(x)
    ensures Sum(s, f) == Sum(s, g)
  {
    if s != [] {
      SumSame(s[..|s| - 1], f, g);
    }
  }

  lemma ShareIs(answers: seq<seq<CriterionScore>>, c: Criterion)
    ensures Share(answers, c) == MeanShare(Judgements(answers, c.id)) * c.weight
  {
    FilterSame(Flat(answers), CountsFor(c.id), (s: CriterionScore) => s.criterionId == c.id && s.maxScore > 0.0);
    FilterMembers(Flat(answers), CountsFor(c.id));
    var scores := ScoresFor(answers, c.id);
    SumSame(scores, Ratio, (s: CriterionScore) => if s.maxScore > 0.0 then s.score / s.maxScore else 0.0);
  }

  /** The total is the exact share in percent, rounded to the nearest whole number, halves up. */
  lemma TotalIs(answers: seq<seq<CriterionScore>>, criteria: seq<Criterion>)
    ensures criteria == [] ==> WeightedScore(answers, criteria) == 0
    ensures criteria != [] ==> var total := WeightedScore(answers, criteria) as real;
      total - 0.5 <= 100.0 * ExactShare(answers, criteria) < total + 0.5
  {
    var f := (c: Criterion) => MeanShare(Judgements(answers, c.id)) * c.weight;
    forall c | c in criteria ensures ShareOf(answers)(c) == f(c) {
      ShareIs(answers, c);
    }
    SumSame(criteria, ShareOf(answers), f);
    SumSame(criteria, Weight, (c: Criterion) => c.weight);
    hide Share, MeanShare, Judgements, Sum;
  }

  /** The answers one after another, whole and in order. */
  lemma {:induction false} FlatPush<T>(answers: seq<seq<T>>, answer: seq<T>)
    ensures Flat(answers + [answer]) == Flat(answers) + answer && Flat<T>([]) == []
  {
    if answers == [] {
      assert [] + [answer] == [answer];
      assert Flat([answer]) == answer + Flat([answer][1..]);
    } else {
      FlatPush(answers[1..], answer);
      assert (answers + [answer])[1..] == answers[1..] + [answer];
    }
  }

  /** Achieved from the threshold on, partially achieved from six tenths of it on. */
  lemma VerdictIs(totalScore: int, passThreshold: real)
    ensures var verdict := DeriveVerdict(totalScore, passThreshold);
      && (verdict == Achieved <==> totalScore as real >= passThreshold)
      && (verdict == NotAchieved <==> totalScore as real < passThreshold && 10.0 * totalScore as real < 6.0 * passThreshold)
  {
  }

  // ----- bounds

  /** A judgement within its scale. */
  predicate InScale(s: CriterionScore) {
    0.0 <= s.score <= s.maxScore
  }

  ghost predicate AllInScale(answers: seq<seq<CriterionScore>>) {
    forall s :: s in Flat(answers) ==> InScale(s)
  }

  ghost predicate Weighed(criteria: seq<Criterion>) {
    forall i :: 0 <= i < |criteria| ==> 0.0 <= criteria[i].weight
  }

  lemma DividedBy(a: real, b: real, d: real)
    requires a <= b && d > 0.0
    ensures a / d <= b / d
  {
  }

  lemma Times(a: real, b: real, w: real)
    requires a <= b && 0.0 <= w
    ensures a * w <= b * w
  {
  }

  lemma {:induction false} ConstantSum<T>(s: seq<T>, r: real, f: T -> real)
    requires forall i :: 0 <= i < |s| ==> f(s[i]) == r
    ensures Sum(s, f) == |s| as real * r
  {
    if s != [] {
      ConstantSum(s[..|s| - 1], r, f);
    }
  }

  lemma MeanBetween(sum: real, n: real, lo: real, hi: real)
    requires n > 0.0 && n * lo <= sum <= n * hi
    ensures lo <= sum / n <= hi
  {
    var mean := sum / n;
    assert mean * n == sum;
    if mean < lo {
      StrictlyTimes(mean, lo, n);
    }
    if hi < mean {
      StrictlyTimes(hi, mean, n);
    }
  }

  lemma StrictlyTimes(a: real, b: real, w: real)
    requires a < b && 0.0 < w
    ensures a * w < b * w
  {
  }

  lemma AverageBetween(scores: seq<CriterionScore>, lo: real, hi: real)
    requires scores != []
    requires forall i :: 0 <= i < |scores| ==> lo <= Ratio(scores[i]) <= hi
    ensures lo <= Average(scores) <= hi
  {
    hide Ratio;
    var low, high := (s: CriterionScore) => lo, (s: CriterionScore) => hi;
    SumBetween(scores, low, Ratio);
    SumBetween(scores, Ratio, high);
    ConstantSum(scores, lo, low);
    ConstantSum(scores, hi, high);
    var n := |scores| as real;
    assert n * lo <= Sum(scores, Ratio) <= n * hi;
    MeanBetween(Sum(scores, Ratio), n, lo, hi);
  }

  lemma RatioInScale(s: CriterionScore)
    requires InScale(s) && s.maxScore > 0.0
    ensures 0.0 <= Ratio(s) <= 1.0
  {
    DividedBy(0.0, s.score, s.maxScore);
    DividedBy(s.score, s.maxScore, s.maxScore);
  }

  lemma ShareBetween(answers: seq<seq<CriterionScore>>, c: Criterion)
    requires AllInScale(answers) && 0.0 <= c.weight
    ensures 0.0 <= Share(answers, c) <= c.weight
  {
    var scores := ScoresFor(answers, c.id);
    FilterMembers(Flat(answers), CountsFor(c.id));
    if scores != [] {
      forall i | 0 <= i < |scores| ensures 0.0 <= Ratio(scores[i]) <= 1.0 {
        assert scores[i] in scores;
        RatioInScale(scores[i]);
      }
      AverageBetween(scores, 0.0, 1.0);
      hide Average;
      Times(0.0, Average(scores), c.weight);
      Times(Average(scores), 1.0, c.weight);
    }
  }

  lemma SharesBetween(answers: seq<seq<CriterionScore>>, criteria: seq<Criterion>)
    requires AllInScale(answers) && Weighed(criteria)
    ensures 0.0 <= Shares(answers, criteria) <= Sum(criteria, Weight)
  {
    forall i | 0 <= i < |criteria| ensures 0.0 <= Share(answers, criteria[i]) <= criteria[i].weight {
      ShareBetween(answers, criteria[i]);
    }
    var f, zero := ShareOf(answers), (c: Criterion) => 0.0;
    SumBetween(criteria, zero, f);
    SumBetween(criteria, f, Weight);
    ConstantSum(criteria, 0.0, zero);
  }

  /** Scores within their scales and weights at least zero give a whole number from 0 to 100. */
  lemma TotalIsPercentage(answers: seq<seq<CriterionScore>>, criteria: seq<Criterion>)
    requires AllInScale(answers) && Weighed(criteria)
    ensures 0 <= WeightedScore(answers, criteria) <= 100
  {
    SharesBetween(answers, criteria);
    PercentageBetween(Shares(answers, criteria), TotalWeight(criteria));
  }

  lemma PercentageBetween(part: real, whole: real)
    requires 0.0 <= part <= whole && whole > 0.0
    ensures 0 <= Percentage(part, whole) <= 100
  {
    DividedBy(0.0, part, whole);
    DividedBy(part, whole, whole);
  }

  // ----- order and grouping do not matter

  lemma SameScoresSameAverage(s: seq<CriterionScore>, t: seq<CriterionScore>)
    requires multiset(s) == multiset(t)
    ensures s == [] <==> t == []
    ensures s != [] ==> Average(s) == Average(t)
  {
    SumOfPermutation(s, t, Ratio);
    assert |s| == |multiset(s)| && |t| == |multiset(t)|;
  }

  lemma SameScoresSameFilter(s: seq<CriterionScore>, t: seq<CriterionScore>, p: CriterionScore -> bool)
    requires multiset(s) == multiset(t)
    ensures multiset(Filter(s, p)) == multiset(Filter(t, p))
  {
    FilterMultiset(s, p);
    FilterMultiset(t, p);
  }

  lemma SameScoresSameShare(a: seq<seq<CriterionScore>>, b: seq<seq<CriterionScore>>, c: Criterion)
    requires multiset(Flat(a)) == multiset(Flat(b))
    ensures Share(a, c) == Share(b, c)
  {
    hide Average, Filter, Flat, CountsFor;
    SameScoresSameFilter(Flat(a), Flat(b), CountsFor(c.id));
    SameScoresSameAverage(ScoresFor(a, c.id), ScoresFor(b, c.id));
  }

  /** However the judgements are ordered and grouped into answers, and in whatever order the criteria are listed. */
  lemma TotalIgnoresOrder(a: seq<seq<CriterionScore>>, b: seq<seq<CriterionScore>>, criteria: seq<Criterion>, listed: seq<Criterion>)
    requires multiset(Flat(a)) == multiset(Flat(b)) && multiset(criteria) == multiset(listed)
    ensures WeightedScore(a, criteria) == WeightedScore(b, listed)
  {
    var f, g := ShareOf(a), ShareOf(b);
    forall i | 0 <= i < |criteria| ensures f(criteria[i]) == g(criteria[i]) {
      SameScoresSameShare(a, b, criteria[i]);
    }
    SumBetween(criteria, f, g);
    SumBetween(criteria, g, f);
    SumOfPermutation(criteria, listed, g);
    SumOfPermutation(criteria, listed, Weight);
    assert |criteria| == |multiset(criteria)| && |listed| == |multiset(listed)|;
  }

  // ----- raising scores

  /** The same judgement with the same or a higher score. */
  predicate RaisedTo(s: CriterionScore, t: CriterionScore) {
    s.criterionId == t.criterionId && s.maxScore == t.maxScore && s.score <= t.score
  }

  ghost predicate AllRaisedTo(s: seq<CriterionScore>, t: seq<CriterionScore>) {
    |s| == |t| && forall i :: 0 <= i < |s| ==> RaisedTo(s[i], t[i])
  }

  lemma {:induction false} FlatRaised(a: seq<seq<CriterionScore>>, b: seq<seq<CriterionScore>>)
    requires |a| == |b| && forall i :: 0 <= i < |a| ==> AllRaisedTo(a[i], b[i])
    ensures AllRaisedTo(Flat(a), Flat(b))
  {
    if a != [] {
      FlatRaised(a[1..], b[1..]);
    }
  }

  lemma {:induction false} FilterRaised(s: seq<CriterionScore>, t: seq<CriterionScore>, id: string, p: CriterionScore -> bool)
    requires AllRaisedTo(s, t) && forall x: CriterionScore :: p(x) == Counts(x, id)
    ensures AllRaisedTo(Filter(s, p), Filter(t, p))
  {
    if s != [] {
      assert RaisedTo(s[0], t[0]);
      FilterRaised(s[1..], t[1..], id, p);
    }
  }

  lemma {:induction false} RatioSumRaised(s: seq<CriterionScore>, t: seq<CriterionScore>)
    requires AllRaisedTo(s, t) && forall i :: 0 <= i < |s| ==> s[i].maxScore > 0.0
    ensures Sum(s, Ratio) <= Sum(t, Ratio)
  {
    if s != [] {
      var n := |s| - 1;
      RatioSumRaised(s[..n], t[..n]);
      assert RaisedTo(s[n], t[n]);
      DividedBy(s[n].score, t[n].score, s[n].maxScore);
    }
  }

  lemma AverageRaised(s: seq<CriterionScore>, t: seq<CriterionScore>)
    requires s != [] && AllRaisedTo(s, t) && forall i :: 0 <= i < |s| ==> s[i].maxScore > 0.0
    ensures Average(s) <= Average(t)
  {
    RatioSumRaised(s, t);
    DividedBy(Sum(s, Ratio), Sum(t, Ratio), |s| as real);
  }

  lemma ScoresForRaised(a: seq<seq<CriterionScore>>, b: seq<seq<CriterionScore>>, id: string)
    requires AllRaisedTo(Flat(a), Flat(b))
    ensures AllRaisedTo(ScoresFor(a, id), ScoresFor(b, id))
    ensures forall i :: 0 <= i < |ScoresFor(a, id)| ==> ScoresFor(a, id)[i].maxScore > 0.0
  {
    var inA := ScoresFor(a, id);
    FilterRaised(Flat(a), Flat(b), id, CountsFor(id));
    FilterMembers(Flat(a), CountsFor(id));
    forall i | 0 <= i < |inA| ensures inA[i].maxScore > 0.0 {
      assert inA[i] in inA;
    }
  }

  lemma ShareRaised(a: seq<seq<CriterionScore>>, b: seq<seq<CriterionScore>>, c: Criterion)
    requires AllRaisedTo(Flat(a), Flat(b)) && 0.0 <= c.weight
    ensures Share(a, c) <= Share(b, c)
  {
    hide Average, ScoresFor, Flat;
    var inA, inB := ScoresFor(a, c.id), ScoresFor(b, c.id);
    ScoresForRaised(a, b, c.id);
    if inA != [] {
      AverageRaised(inA, inB);
      Times(Average(inA), Average(inB), c.weight);
    }
  }

  /** Raising any scores lowers neither the total nor the verdict. */
  lemma RaisingNeverLowers(a: seq<seq<CriterionScore>>, b: seq<seq<CriterionScore>>, criteria: seq<Criterion>, passThreshold: real)
    requires |a| == |b| && forall i :: 0 <= i < |a| ==> AllRaisedTo(a[i], b[i])
    requires Weighed(criteria)
    ensures WeightedScore(a, criteria) <= WeightedScore(b, criteria)
    ensures var low, high := DeriveVerdict(WeightedScore(a, criteria), passThreshold), DeriveVerdict(WeightedScore(b, criteria), passThreshold);
      (low == Achieved ==> high == Achieved) && (high == NotAchieved ==> low == NotAchieved)
  {
    FlatRaised(a, b);
    var f, g := ShareOf(a), ShareOf(b);
    forall i | 0 <= i < |criteria| ensures f(criteria[i]) <= g(criteria[i]) {
      ShareRaised(a, b, criteria[i]);
    }
    SumBetween(criteria, f, g);
    WeightsAreNonNegative(criteria);
    DividedBy(Shares(a, criteria), Shares(b, criteria), TotalWeight(criteria));
  }

  lemma WeightsAreNonNegative(criteria: seq<Criterion>)
    requires Weighed(criteria)
    ensures 0.0 <= Sum(criteria, Weight)
  {
    var zero := (c: Criterion) => 0.0;
    SumBetween(criteria, zero, Weight);
    ConstantSum(criteria, 0.0, zero);
  }

  // ----- what the total measures

  function JudgedWeight(answers: seq<seq<CriterionScore>>, c: Criterion): real {
    if ScoresFor(answers, c.id) == [] then 0.0 else c.weight
  }

  lemma EvenShare(answers: seq<seq<CriterionScore>>, c: Criterion, r: real)
    requires EvenlyScored(answers, r)
    ensures Share(answers, c) == r * JudgedWeight(answers, c)
  {
    var scores := ScoresFor(answers, c.id);
    FilterMembers(Flat(answers), CountsFor(c.id));
    if scores != [] {
      forall i | 0 <= i < |scores| ensures r <= Ratio(scores[i]) <= r {
        assert scores[i] in scores;
      }
      AverageBetween(scores, r, r);
    }
  }

  lemma {:induction false} SumTimes<T>(s: seq<T>, r: real, f: T -> real, g: T -> real)
    requires forall i :: 0 <= i < |s| ==> f(s[i]) == r * g(s[i])
    ensures Sum(s, f) == r * Sum(s, g)
  {
    if s != [] {
      SumTimes(s[..|s| - 1], r, f, g);
    }
  }

  /** Every countable score is the same share of its maximum. */
  ghost predicate EvenlyScored(answers: seq<seq<CriterionScore>>, r: real) {
    forall s :: s in Flat(answers) && s.maxScore > 0.0 ==> Ratio(s) == r
  }

  function JudgedPart(answers: seq<seq<CriterionScore>>): Criterion -> real {
    (c: Criterion) => JudgedWeight(answers, c)
  }

  /** When every counted score is the same share `r` of its maximum, the total is `r` times the judged part of the weight. */
  lemma EvenScoresTotal(answers: seq<seq<CriterionScore>>, criteria: seq<Criterion>, r: real)
    requires criteria != [] && EvenlyScored(answers, r)
    ensures WeightedScore(answers, criteria) == Percentage(r * Sum(criteria, JudgedPart(answers)), TotalWeight(criteria))
  {
    hide Percentage, Share, JudgedWeight, EvenlyScored, Sum;
    forall i | 0 <= i < |criteria| ensures ShareOf(answers)(criteria[i]) == r * JudgedPart(answers)(criteria[i]) {
      EvenShare(answers, criteria[i], r);
    }
    SumTimes(criteria, r, ShareOf(answers), JudgedPart(answers));
    assert Shares(answers, criteria) == r * Sum(criteria, JudgedPart(answers));
  }
}
