/** The result calculation: raw trait scores become rounded percentages of a
    fixed maximum, the chosen modality adds a capped bonus to two traits, and
    the top trait is picked by a left fold over the traits in their fixed
    order. */
module Scoring {
  import opened Quiz

  /** The fixed maximum a trait's raw score is measured against. */
  function MaxScore(t: Trait): (m: int)
    ensures m > 0
    ensures m == 40 || m == 45
  {
    if t == Extraversion then 40 else 45
  }

  /** `100 * s / max` rounded to the nearest integer, halves rounded up (the
      rounding of `Math.round`), computed exactly on integers. */
  function Percent(s: int, max: int): (p: int)
    requires max > 0
    ensures 2 * max * p - max <= 200 * s < 2 * max * p + max
  {
    (200 * s + max) / (2 * max)
  }

  /** The rounding interval has exactly one integer in it: any `p` with
      `p - 1/2 <= 100 * s / max < p + 1/2` is the value of `Percent`. */
  lemma PercentUnique(s: int, max: int, p: int)
    requires max > 0
    requires 2 * max * p - max <= 200 * s < 2 * max * p + max
    ensures p == Percent(s, max)
  {
    var q := Percent(s, max);
    if p < q {
      MulMonotone(2 * max, p + 1, q);
    } else if q < p {
      MulMonotone(2 * max, q + 1, p);
    }
  }

  /** A higher raw score never gives a lower percentage. */
  lemma PercentMonotone(s1: int, s2: int, max: int)
    requires max > 0
    requires s1 <= s2
    ensures Percent(s1, max) <= Percent(s2, max)
  {
    var p1, p2 := Percent(s1, max), Percent(s2, max);
    if p2 < p1 {
      MulMonotone(2 * max, p2 + 1, p1);
    }
  }

  /** Multiplying by a positive factor keeps the order of integers. */
  lemma MulMonotone(k: int, a: int, b: int)
    requires k > 0 && a <= b
    ensures k * a <= k * b
  {
    var d := b - a;
    assert k * b == k * a + k * d;
  }

  /** A raw score from 0 up to its maximum gives a percentage from 0 to 100,
      the maximum itself exactly 100. */
  lemma PercentRange(s: int, max: int)
    requires max > 0
    requires 0 <= s <= max
    ensures 0 <= Percent(s, max) <= 100
    ensures s == max ==> Percent(s, max) == 100
    ensures s == 0 ==> Percent(s, max) == 0
  {
    PercentMonotone(0, s, max);
    PercentMonotone(s, max, max);
    PercentUnique(0, max, 0);
    PercentUnique(max, max, 100);
  }

  /** Every trait's raw score as a percentage of its maximum. */
  function Normalize(v: ScoreVector): ScoreVector
  {
    ScoreVector(Percent(v.extraversion, MaxScore(Extraversion)),
                Percent(v.agreeableness, MaxScore(Agreeableness)),
                Percent(v.conscientiousness, MaxScore(Conscientiousness)),
                Percent(v.neuroticism, MaxScore(Neuroticism)),
                Percent(v.openness, MaxScore(Openness)))
  }

  /** Each normalised entry depends only on its own raw score and grows with it. */
  lemma NormalizeMonotone(v: ScoreVector, w: ScoreVector, t: Trait)
    requires v.Get(t) <= w.Get(t)
    ensures Normalize(v).Get(t) == Percent(v.Get(t), MaxScore(t))
    ensures Normalize(v).Get(t) <= Normalize(w).Get(t)
  {
    PercentMonotone(v.Get(t), w.Get(t), MaxScore(t));
  }

  /** The modality bonus on one percentage: five points more, but not above 100. */
  function Boost(x: int): (r: int)
    ensures r <= 100
    ensures x < 95 ==> r == x + 5
    ensures x >= 95 ==> r == 100
  {
    if 100 < x + 5 then 100 else x + 5
  }

  /** Whether modality `m` gives trait `t` the bonus. */
  predicate Boosted(m: string, t: Trait)
  {
    (m == "hero" && (t == Extraversion || t == Conscientiousness)) ||
    (m == "team" && (t == Agreeableness || t == Conscientiousness))
  }

  /** The modality bonus on a score object, entry by entry as the source writes it. */
  function ApplyBonus(v: ScoreVector, m: string): (r: ScoreVector)
    ensures forall t :: r.Get(t) == if Boosted(m, t) then Boost(v.Get(t)) else v.Get(t)
  {
    if m == "hero" then
      v.(extraversion := Boost(v.extraversion), conscientiousness := Boost(v.conscientiousness))
    else if m == "team" then
      v.(agreeableness := Boost(v.agreeableness), conscientiousness := Boost(v.conscientiousness))
    else
      v
  }

  /** A boosted trait ends at most 100, and at exactly 100 when it started at
      95 or more (so 100 stays 100); every other trait is left as it was. */
  lemma BonusCapped(v: ScoreVector, m: string, t: Trait)
    ensures Boosted(m, t) ==> ApplyBonus(v, m).Get(t) <= 100
    ensures Boosted(m, t) && v.Get(t) >= 95 ==> ApplyBonus(v, m).Get(t) == 100
    ensures !Boosted(m, t) ==> ApplyBonus(v, m).Get(t) == v.Get(t)
    ensures m != "hero" && m != "team" ==> ApplyBonus(v, m) == v
  {
  }

  /** Index into `ts` of the result of the source's `reduce` over `ts`: folding
      from the left, the running candidate stays only when its value is
      strictly greater than the next trait's. So the result is a maximum, and
      the last one when several traits share the top value. */
  function LastArgMax(v: ScoreVector, ts: seq<Trait>): (i: nat)
    requires |ts| > 0
    ensures i < |ts|
    ensures forall j :: 0 <= j < |ts| ==> v.Get(ts[j]) <= v.Get(ts[i])
    ensures forall j :: i < j < |ts| ==> v.Get(ts[j]) < v.Get(ts[i])
  {
    if |ts| == 1 then 0
    else
      var i := LastArgMax(v, ts[..|ts| - 1]);
      if v.Get(ts[i]) > v.Get(ts[|ts| - 1]) then i else |ts| - 1
  }

  /** The top trait: the last trait in `Traits` order that holds the largest value. */
  function TopTrait(v: ScoreVector): (t: Trait)
    ensures forall u :: v.Get(u) <= v.Get(t)
    ensures forall u :: Rank(t) < Rank(u) ==> v.Get(u) < v.Get(t)
  {
    var i := LastArgMax(v, Traits);
    assert forall u :: v.Get(u) <= v.Get(Traits[i]) by {
      forall u ensures v.Get(u) <= v.Get(Traits[i]) {
        assert Traits[Rank(u)] == u;
      }
    }
    Traits[i]
  }

  /** Being a maximum that no later trait ties determines the top trait. */
  lemma TopTraitUnique(v: ScoreVector, t: Trait)
    requires forall u :: v.Get(u) <= v.Get(t)
    requires forall u :: Rank(t) < Rank(u) ==> v.Get(u) < v.Get(t)
    ensures TopTrait(v) == t
  {
    var top := TopTrait(v);
    assert Rank(t) == Rank(top);
    assert Traits[Rank(t)] == t;
  }

  /** What the results screen shows. */
  datatype Results = Results(normalized: ScoreVector, top: Trait, modality: string)

  /** The results for raw scores `scores` and modality `m`. */
  function ResultsOf(scores: ScoreVector, m: string): (r: Results)
    ensures r.modality == m
    ensures forall t :: r.normalized.Get(t) <= r.normalized.Get(r.top)
    ensures forall t :: Rank(r.top) < Rank(t) ==> r.normalized.Get(t) < r.normalized.Get(r.top)
  {
    var normalized := ApplyBonus(Normalize(scores), m);
    Results(normalized, TopTrait(normalized), m)
  }

  /** Computes the results as the source does: percentages filled trait by trait
      in `Traits` order, then the bonus written over the boosted entries, then
      the top trait. */
  method ComputeResults(scores: ScoreVector, modality: string) returns (res: Results)
    ensures res == ResultsOf(scores, modality)
    ensures forall t :: res.normalized.Get(t) <= res.normalized.Get(res.top)
    ensures forall t :: !Boosted(modality, t) ==>
              res.normalized.Get(t) == Percent(scores.Get(t), MaxScore(t))
  {
    var normalized := Zero();
    for i := 0 to |Traits|
      invariant forall j :: 0 <= j < i ==>
                  normalized.Get(Traits[j]) == Percent(scores.Get(Traits[j]), MaxScore(Traits[j]))
    {
      var t := Traits[i];
      normalized := normalized.With(t, Percent(scores.Get(t), MaxScore(t)));
    }
    forall t ensures normalized.Get(t) == Normalize(scores).Get(t) {
      assert Traits[Rank(t)] == t;
      NormalizeMonotone(scores, scores, t);
    }
    SameEntries(normalized, Normalize(scores));
    if modality == "hero" {
      normalized := normalized.(extraversion := Boost(normalized.extraversion));
      normalized := normalized.(conscientiousness := Boost(normalized.conscientiousness));
    } else if modality == "team" {
      normalized := normalized.(agreeableness := Boost(normalized.agreeableness));
      normalized := normalized.(conscientiousness := Boost(normalized.conscientiousness));
    }
    var top := TopTrait(normalized);
    res := Results(normalized, top, modality);
  }

  /** Without any answer every percentage is 0. */
  lemma NormalizeZero()
    ensures Normalize(Zero()) == Zero()
  {
    forall t ensures Normalize(Zero()).Get(t) == 0 {
      NormalizeMonotone(Zero(), Zero(), t);
      PercentRange(0, MaxScore(t));
    }
    SameEntries(Normalize(Zero()), Zero());
  }

  /** Raw scores of 40 extraversion and nothing else, with the hero modality:
      extraversion reaches 100 and stays there under the bonus,
      conscientiousness gets 5 from the bonus alone, and extraversion is the
      top trait. */
  lemma FullExtraversionHeroResults(raw: ScoreVector)
    requires raw == ScoreVector(40, 0, 0, 0, 0)
    ensures ResultsOf(raw, "hero").normalized == ScoreVector(100, 0, 5, 0, 0)
    ensures ResultsOf(raw, "hero").top == Extraversion
  {
    forall t ensures Normalize(raw).Get(t) == if t == Extraversion then 100 else 0 {
      NormalizeMonotone(raw, raw, t);
      PercentRange(raw.Get(t), MaxScore(t));
    }
    SameEntries(Normalize(raw), ScoreVector(100, 0, 0, 0, 0));
    SameEntries(ApplyBonus(ScoreVector(100, 0, 0, 0, 0), "hero"), ScoreVector(100, 0, 5, 0, 0));
    TopTraitUnique(ScoreVector(100, 0, 5, 0, 0), Extraversion);
  }

  /** With no answers and the team modality, agreeableness and
      conscientiousness both reach 5 and every other trait stays at 0. */
  lemma EmptyTeamPercentages()
    ensures ResultsOf(Zero(), "team").normalized == ScoreVector(0, 5, 5, 0, 0)
  {
    assert ApplyBonus(Zero(), "team") == ScoreVector(0, 5, 5, 0, 0) by {
      SameEntries(ApplyBonus(Zero(), "team"), ScoreVector(0, 5, 5, 0, 0));
    }
    NormalizeZero();
  }

  /** Of the two traits tied at 5 with no answers and the team modality, the
      later one, conscientiousness, is the top trait. */
  lemma EmptyTeamTop()
    ensures ResultsOf(Zero(), "team").top == Conscientiousness
  {
    EmptyTeamPercentages();
    TopTraitUnique(ScoreVector(0, 5, 5, 0, 0), Conscientiousness);
  }
}
