/** The six scoring signals and the fixed table of weights that combines them. */
module Signals {
  import opened Wrappers
  import opened Seqs
  import opened Ordering

  datatype Effectiveness = Effectiveness(contentItemId: string, outcomeId: string, timesDelivered: int, effectivenessScore: real)

  datatype SignalContext = SignalContext(
    contentItem: ContentItem,
    outcomeId: string,
    outcomeSkillId: string,
    outcomePriority: int,
    isCarriedOver: bool,
    weakOutcomeIds: set<string>,
    effectiveness: Option<Effectiveness>,
    semanticDistance: Option<real>)

  datatype SignalName = OutcomeRelevance | OutcomePriority | DifficultyFit | GapMatch | EffectivenessSeen | SemanticSimilarity

  /** In the order of `SIGNAL_FNS`. */
  const SIGNALS: seq<SignalName> := [OutcomeRelevance, OutcomePriority, DifficultyFit, GapMatch, EffectivenessSeen, SemanticSimilarity]

  function Clamp01(x: real): (r: real)
    ensures 0.0 <= r <= 1.0
  {
    if x < 0.0 then 0.0 else if x > 1.0 then 1.0 else x
  }

  /** Content never delivered is unknown rather than bad. */
  function EffectivenessOf(row: Option<Effectiveness>): (r: real)
    ensures 0.0 <= r <= 1.0
  {
    if row.None? || row.value.timesDelivered == 0 then 0.5 else Clamp01(row.value.effectivenessScore)
  }

  /** Cosine distance runs from 0 to 2; an unknown one is neutral. */
  function SimilarityOf(distance: Option<real>): (r: real)
    ensures 0.0 <= r <= 1.0
  {
    if distance.None? then 0.5 else Clamp01(1.0 - distance.value / 2.0)
  }

  function Signal(name: SignalName, context: SignalContext): (r: real)
    ensures 0.0 <= r <= 1.0
  {
    match name
    case OutcomeRelevance => if context.contentItem.skillId == context.outcomeSkillId then 1.0 else 0.0
    case OutcomePriority => if context.isCarriedOver then 1.0 else Clamp01(1.0 - context.outcomePriority as real / 10.0)
    case DifficultyFit => 0.5
    case GapMatch => if context.outcomeId in context.weakOutcomeIds then 1.0 else 0.0
    case EffectivenessSeen => EffectivenessOf(context.effectiveness)
    case SemanticSimilarity => SimilarityOf(context.semanticDistance)
  }

  function Weight(name: SignalName): real {
    match name
    case OutcomeRelevance => 0.3
    case OutcomePriority => 0.2
    case DifficultyFit => 0.15
    case GapMatch => 0.15
    case EffectivenessSeen => 0.1
    case SemanticSimilarity => 0.1
  }

  /** The first `k` signals, weighted and added up. */
  function WeightedUpTo(context: SignalContext, k: nat): real
    requires k <= |SIGNALS|
  {
    if k == 0 then 0.0 else WeightedUpTo(context, k - 1) + Signal(SIGNALS[k - 1], context) * Weight(SIGNALS[k - 1])
  }

  function Weighted(context: SignalContext): real {
    WeightedUpTo(context, |SIGNALS|)
  }

  method ScoreOne(context: SignalContext) returns (item: ScoredItem, signalBreakdown: map<SignalName, real>)
    ensures item == ScoredItem(context.contentItem, context.outcomeId, Weighted(context))
    ensures signalBreakdown == map name: SignalName | name in SIGNALS :: Signal(name, context)
  {
    signalBreakdown := map[];
    var score := 0.0;
    for k := 0 to |SIGNALS|
      invariant score == WeightedUpTo(context, k)
      invariant signalBreakdown == map name: SignalName | name in SIGNALS[..k] :: Signal(name, context)
    {
      var name := SIGNALS[k];
      TakeMore(SIGNALS, k);
      var value := Signal(name, context);
      signalBreakdown := signalBreakdown[name := value];
      score := score + value * Weight(name);
    }
    assert SIGNALS[..|SIGNALS|] == SIGNALS;
    item := ScoredItem(context.contentItem, context.outcomeId, score);
  }

  /** The score written out. */
  lemma WeightedSum(context: SignalContext)
    ensures Weighted(context) ==
      (if context.contentItem.skillId == context.outcomeSkillId then 0.3 else 0.0)
      + (if context.isCarriedOver then 0.2 else 0.2 * Clamp01(1.0 - context.outcomePriority as real / 10.0))
      + 0.075 + (if context.outcomeId in context.weakOutcomeIds then 0.15 else 0.0)
      + 0.1 * EffectivenessOf(context.effectiveness) + 0.1 * SimilarityOf(context.semanticDistance)
  {
    assert WeightedUpTo(context, 1) == 0.3 * Signal(OutcomeRelevance, context);
    assert WeightedUpTo(context, 2) == WeightedUpTo(context, 1) + 0.2 * Signal(OutcomePriority, context);
    assert WeightedUpTo(context, 3) == WeightedUpTo(context, 2) + 0.075;
    assert WeightedUpTo(context, 4) == WeightedUpTo(context, 3) + 0.15 * Signal(GapMatch, context);
    assert WeightedUpTo(context, 5) == WeightedUpTo(context, 4) + 0.1 * EffectivenessOf(context.effectiveness);
    assert WeightedUpTo(context, 6) == WeightedUpTo(context, 5) + 0.1 * SimilarityOf(context.semanticDistance);
  }

  /** What tells two contents of one skill apart when both are scored for the same outcome. */
  function Evidence(context: SignalContext): real {
    EffectivenessOf(context.effectiveness) + SimilarityOf(context.semanticDistance)
  }

  /** For one outcome, priority, gap, skill and difficulty cancel out: only effectiveness and similarity differ. */
  lemma SameOutcomeDiffersByEvidence(a: SignalContext, b: SignalContext)
    requires a == b.(contentItem := a.contentItem, effectiveness := a.effectiveness, semanticDistance := a.semanticDistance)
    requires a.contentItem.skillId == b.contentItem.skillId
    ensures Weighted(a) - Weighted(b) == 0.1 * (Evidence(a) - Evidence(b))
  {
    WeightedSum(a);
    WeightedSum(b);
    hide Weighted, EffectivenessOf, SimilarityOf, Clamp01;
  }

  /** Content of the outcome's own skill scores between 0.375 and 0.925. */
  lemma ScoreRange(context: SignalContext)
    requires context.contentItem.skillId == context.outcomeSkillId
    ensures 0.375 <= Weighted(context) <= 0.925
  {
    WeightedSum(context);
  }
}
