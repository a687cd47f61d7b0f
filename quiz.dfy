/** The quiz's data: the five personality traits, the score vector kept per
    trait, and the questions with their weighted choices. */
module Quiz {

  /** The closed set of traits the quiz scores. */
  datatype Trait = Extraversion | Agreeableness | Conscientiousness | Neuroticism | Openness

  /** The order in which the score objects list their traits; every
      iteration over the traits (filling the percentages, picking the top
      trait) follows it. */
  const Traits: seq<Trait> := [Extraversion, Agreeableness, Conscientiousness, Neuroticism, Openness]

  /** Position of a trait in `Traits`. */
  function Rank(t: Trait): (i: nat)
    ensures i < |Traits| && Traits[i] == t
  {
    match t
    case Extraversion => 0
    case Agreeableness => 1
    case Conscientiousness => 2
    case Neuroticism => 3
    case Openness => 4
  }

  /** A score object: one integer for every trait. */
  datatype ScoreVector = ScoreVector(extraversion: int, agreeableness: int, conscientiousness: int,
                                     neuroticism: int, openness: int)
  {
    /** The entry kept for trait `t`. */
    function Get(t: Trait): int
    {
      match t
      case Extraversion => extraversion
      case Agreeableness => agreeableness
      case Conscientiousness => conscientiousness
      case Neuroticism => neuroticism
      case Openness => openness
    }

    /** The same object with the entry for `t` overwritten by `x`. */
    function With(t: Trait, x: int): (v: ScoreVector)
      ensures v.Get(t) == x
      ensures forall u :: u != t ==> v.Get(u) == Get(u)
    {
      match t
      case Extraversion => this.(extraversion := x)
      case Agreeableness => this.(agreeableness := x)
      case Conscientiousness => this.(conscientiousness := x)
      case Neuroticism => this.(neuroticism := x)
      case Openness => this.(openness := x)
    }
  }

  /** Two score objects that agree on every trait are the same object. */
  lemma SameEntries(v: ScoreVector, w: ScoreVector)
    requires forall t :: v.Get(t) == w.Get(t)
    ensures v == w
  {
    assert v.Get(Extraversion) == w.Get(Extraversion) && v.Get(Agreeableness) == w.Get(Agreeableness);
    assert v.Get(Conscientiousness) == w.Get(Conscientiousness) && v.Get(Neuroticism) == w.Get(Neuroticism);
    assert v.Get(Openness) == w.Get(Openness);
  }

  /** The score object a session starts from. */
  function Zero(): (v: ScoreVector)
    ensures forall t :: v.Get(t) == 0
  {
    ScoreVector(0, 0, 0, 0, 0)
  }

  /** An answer on offer: its text and the weights it adds, some traits possibly
      left without a weight. Weights are integers. */
  datatype Choice = Choice(text: string, weights: map<Trait, int>)

  /** A question: its text and its choices, in display order. */
  datatype Question = Question(text: string, choices: seq<Choice>)

  /** The weight a choice adds to a trait; a missing weight counts as 0. */
  function Weight(c: Choice, t: Trait): int
  {
    if t in c.weights then c.weights[t] else 0
  }

  /** The sum of the weights the choices in `cs` give to trait `t`. */
  function Total(cs: seq<Choice>, t: Trait): int
  {
    if cs == [] then 0 else Total(cs[..|cs| - 1], t) + Weight(cs[|cs| - 1], t)
  }

  /** Totals over two runs of answers add up: what a trait collects from `a`
      followed by `b` is what it collects from each. */
  lemma {:induction false} TotalAppend(a: seq<Choice>, b: seq<Choice>, t: Trait)
    ensures Total(a + b, t) == Total(a, t) + Total(b, t)
  {
    if b == [] {
      assert a + b == a;
    } else {
      var last := |b| - 1;
      assert (a + b)[..|a + b| - 1] == a + b[..last];
      assert (a + b)[|a + b| - 1] == b[last];
      TotalAppend(a, b[..last], t);
    }
  }

  /** Answering the same choice twice counts its weight twice. */
  lemma TotalRepeated(cs: seq<Choice>, c: Choice, t: Trait)
    ensures Total(cs + [c, c], t) == Total(cs, t) + 2 * Weight(c, t)
  {
    TotalAppend(cs, [c, c], t);
    assert [c, c][..1] == [c];
    assert Total([c], t) == Weight(c, t) by { assert [c][..0] == []; }
  }
}
