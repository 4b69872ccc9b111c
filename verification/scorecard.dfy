/**
  The verdict rule of the Life Decision Scorecard: four life pillars are each
  scored from -2 to +2, and the scores, the stated cost of inaction and the
  fragility choice decide between three verdicts. A score of -2 on any
  pillar is a veto that no other input can out-vote.
 */
module Scorecard {
  import Text

  /** The pillars the form asks about, in the order it asks. */
  const Pillars: seq<string> := [
    "Family (wife & son)",
    "Business (stability & growth)",
    "Physical health",
    "Mental health / peace"
  ]

  /** The values each pillar's slider offers. */
  const Scores: seq<int> := [-2, -1, 0, 1, 2]

  /** The score that vetoes a decision. */
  const Veto: int := -2

  /** The fragility choice that favours acting, and the other two choices. */
  const ReducesFragility: string := "Reduces fragility (more buffer)"
  const FragilityChoices: seq<string> := [ReducesFragility, "Neutral", "Increases fragility"]

  /** How long the stripped inaction-cost text must be to count as a high
      cost of inaction. */
  const HighInactionLength: nat := 20

  /** One entry of the scores dictionary: a pillar name and its score. */
  datatype PillarScore = PillarScore(pillar: string, score: int)

  /** The scores dictionary, in insertion order (Python dictionaries keep
      it). Its keys are distinct; the verdict rule does not rely on that. */
  type ScoreCard = seq<PillarScore>

  /** The three verdicts the rule can reach. */
  datatype Verdict = No | Yes | RedesignWait

  /** The label shown and saved for each verdict. */
  function Label(v: Verdict): string {
    match v
    case No => "NO (or redesign)"
    case Yes => "YES"
    case RedesignWait => "REDESIGN / WAIT"
  }

  /** The scores of a card, in the card's order: `scores_dict.values()`. */
  function Values(card: ScoreCard): (vs: seq<int>)
    ensures |vs| == |card|
    ensures forall i :: 0 <= i < |card| ==> vs[i] == card[i].score
  {
    if card == [] then [] else [card[0].score] + Values(card[1..])
  }

  /** Python's `sum` over a list of integers; for integers the order in
      which the additions are done makes no difference to the result. */
  function Sum(xs: seq<int>): int {
    if xs == [] then 0 else xs[0] + Sum(xs[1..])
  }

  /** Some pillar of the card carries the veto score. */
  predicate HasVeto(card: ScoreCard) {
    exists p :: p in card && p.score == Veto
  }

  /** A card as the form produces it: every pillar once, in the form's
      order, each scored with one of the slider's values. */
  predicate IsFormCard(card: ScoreCard) {
    && |card| == |Pillars|
    && forall i :: 0 <= i < |card| ==> card[i].pillar == Pillars[i] && card[i].score in Scores
  }

  /** `compute_verdict`: the verdict and the total score of a card, given the
      free-text cost of inaction and the fragility choice. The total is the
      sum of all scores, whatever the verdict. A veto always gives No; without
      one, the verdict is Yes exactly when the total is positive, or the
      fragility choice reduces fragility, or the total is zero and the
      stripped cost of inaction is long enough; otherwise it is
      RedesignWait. */
  function ComputeVerdict(card: ScoreCard, inactionCost: string, fragility: string): (r: (Verdict, int))
    ensures r.1 == Sum(Values(card))
    ensures r.0 == No <==> HasVeto(card)
    ensures r.0 == Yes <==>
      && !HasVeto(card)
      && (|| r.1 > 0
          || fragility == ReducesFragility
          || (r.1 == 0 && |Text.Strip(inactionCost)| >= HighInactionLength))
    ensures r.0 == RedesignWait <==>
      && !HasVeto(card)
      && fragility != ReducesFragility
      && (r.1 < 0 || (r.1 == 0 && |Text.Strip(inactionCost)| < HighInactionLength))
  {
    var anyVeto := Veto in Values(card);
    var total := Sum(Values(card));
    var highInaction := |Text.Strip(inactionCost)| >= HighInactionLength;
    var reducesFragility := fragility == ReducesFragility;
    VetoInValues(card);
    if anyVeto then (No, total)
    else if total > 0 then (Yes, total)
    else if total == 0 && (highInaction || reducesFragility) then (Yes, total)
    else if reducesFragility then (Yes, total)
    else (RedesignWait, total)
  }

  /** Every score lies in [lo, hi], so the sum lies in [n * lo, n * hi]. */
  lemma {:induction false} SumBounds(xs: seq<int>, lo: int, hi: int)
    requires forall i :: 0 <= i < |xs| ==> lo <= xs[i] <= hi
    ensures |xs| * lo <= Sum(xs) <= |xs| * hi
  {
    if xs != [] {
      SumBounds(xs[1..], lo, hi);
      assert |xs| * lo == lo + (|xs| - 1) * lo;
      assert |xs| * hi == hi + (|xs| - 1) * hi;
    }
  }

  /** On a card the form produces, the total lies in [-8, 8], and in [-4, 8]
      when no pillar is vetoed. */
  lemma FormTotalRange(card: ScoreCard)
    requires IsFormCard(card)
    ensures -8 <= Sum(Values(card)) <= 8
    ensures !HasVeto(card) ==> -4 <= Sum(Values(card)) <= 8
  {
    var vs := Values(card);
    SumBounds(vs, -2, 2);
    if !HasVeto(card) {
      forall i | 0 <= i < |vs| ensures -1 <= vs[i] <= 2 {
        assert card[i] in card;
      }
      SumBounds(vs, -1, 2);
    }
  }

  /** Removing the element at index j from a sum. */
  lemma {:induction false} SumRemove(xs: seq<int>, j: nat)
    requires j < |xs|
    ensures Sum(xs) == xs[j] + Sum(xs[..j] + xs[j + 1..])
  {
    if j > 0 {
      SumRemove(xs[1..], j - 1);
      assert xs[..j] + xs[j + 1..] == [xs[0]] + (xs[1..][..j - 1] + xs[1..][j..]);
    } else {
      assert xs[..j] + xs[j + 1..] == xs[1..];
    }
  }

  /** The sum depends only on the multiset of the numbers summed. */
  lemma {:induction false} SumPermutation(xs: seq<int>, ys: seq<int>)
    requires multiset(xs) == multiset(ys)
    ensures Sum(xs) == Sum(ys)
    decreases |xs|
  {
    if xs == [] {
      assert |ys| == |multiset(ys)| == 0;
    } else {
      assert xs[0] in multiset(ys);
      var j :| 0 <= j < |ys| && ys[j] == xs[0];
      var rest := ys[..j] + ys[j + 1..];
      assert ys == ys[..j] + [ys[j]] + ys[j + 1..];
      assert multiset(ys) == multiset(rest) + multiset{xs[0]};
      assert xs == [xs[0]] + xs[1..];
      assert multiset(xs) == multiset(xs[1..]) + multiset{xs[0]};
      assert multiset(xs[1..]) == multiset(xs) - multiset{xs[0]};
      assert multiset(rest) == multiset(ys) - multiset{xs[0]};
      SumPermutation(xs[1..], rest);
      SumRemove(ys, j);
    }
  }

  /** The verdict and total depend on the scores only as a multiset: neither
      the order of the pillars nor which pillar carries which score matters. */
  lemma VerdictIgnoresPillarOrder(card1: ScoreCard, card2: ScoreCard, inactionCost: string, fragility: string)
    requires multiset(Values(card1)) == multiset(Values(card2))
    ensures ComputeVerdict(card1, inactionCost, fragility) == ComputeVerdict(card2, inactionCost, fragility)
  {
    SumPermutation(Values(card1), Values(card2));
    assert HasVeto(card1) <==> Veto in multiset(Values(card1)) by { VetoInValues(card1); }
    assert HasVeto(card2) <==> Veto in multiset(Values(card2)) by { VetoInValues(card2); }
  }

  /** `any(s == -2 for s in scores_dict.values())` holds exactly when some
      pillar of the card carries the veto. */
  lemma VetoInValues(card: ScoreCard)
    ensures HasVeto(card) <==> Veto in Values(card)
  {
    if Veto in Values(card) {
      var i :| 0 <= i < |card| && Values(card)[i] == Veto;
      assert card[i] in card;
    }
  }

  /** Of the form's three fragility choices, only the one that reduces
      fragility rescues a negative total from RedesignWait. */
  lemma OnlyReducingChoiceRescues(card: ScoreCard, inactionCost: string, i: nat)
    requires i < |FragilityChoices|
    requires !HasVeto(card) && Sum(Values(card)) < 0
    ensures i == 0 ==> ComputeVerdict(card, inactionCost, FragilityChoices[i]).0 == Yes
    ensures i != 0 ==> ComputeVerdict(card, inactionCost, FragilityChoices[i]).0 == RedesignWait
  {
    assert FragilityChoices[1] != ReducesFragility;
    assert FragilityChoices[2] != ReducesFragility;
  }

  /** Whitespace around the cost of inaction never changes the verdict. */
  lemma VerdictIgnoresInactionPadding(card: ScoreCard, p: string, inactionCost: string, q: string, fragility: string)
    requires Text.AllIn(p, Text.Whitespace) && Text.AllIn(q, Text.Whitespace)
    ensures ComputeVerdict(card, p + inactionCost + q, fragility) == ComputeVerdict(card, inactionCost, fragility)
  {
    Text.StripIgnoresPadding(p, inactionCost, q);
  }
}
