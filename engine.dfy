/** The quiz engine: the session state the page keeps (the loaded questions,
    the current question's index, the chosen modality and the running raw
    scores), the three transitions the buttons trigger, and the choice between
    showing a question and showing the results. */
module Engine {
  import opened Quiz
  import opened Scoring

  /** Why an answer could not be taken: there is no current question (the
      index is past the last question), or the choice index names no choice. */
  datatype AnswerError = NoCurrentQuestion | ChoiceOutOfRange

  datatype Outcome = Pass | Fail(error: AnswerError)

  /** What the page shows: question `number` of `total` with a Back button
      when `showBack`, or the results. */
  datatype Screen =
    | QuestionScreen(number: nat, total: nat, question: Question, showBack: bool)
    | ResultsScreen(results: Results)

  class Session {
    /** The questions, loaded once before the session begins. */
    const quiz: seq<Question>
    /** The index of the question on show; `|quiz|` once all are answered. */
    var index: int
    /** The modality chosen on the welcome screen ("" before the first start). */
    var modality: string
    /** The raw score of every trait. */
    var scores: ScoreVector

    /** Every choice whose weights have been added since the last start, in
        order, including answers given again after stepping back. */
    ghost var chosen: seq<Choice>
    /** How many times the index was stepped back since the last start. */
    ghost var backSteps: nat

    /** The index stays within the quiz; each answer moved it one forward and
        each back step one backward; the scores are the sums of the weights of
        every answer given; and while no step back was taken, the i-th answer
        is a choice of the i-th question. */
    ghost predicate Valid()
      reads this
    {
      0 <= index <= |quiz| &&
      index + backSteps == |chosen| &&
      (forall t :: scores.Get(t) == Total(chosen, t)) &&
      (backSteps == 0 ==> forall i :: 0 <= i < |chosen| ==> chosen[i] in quiz[i].choices)
    }

    /** Whether the results are due: no question is left at the current index. */
    predicate IsComplete()
      reads this
    {
      index >= |quiz|
    }

    /** Without a step back since the start, the results are due exactly when
        every question has been answered once: the i-th answer is a choice of
        question i, and each score is the sum of those answers' weights. */
    lemma ForwardRun()
      requires Valid() && backSteps == 0
      ensures IsComplete() <==> |chosen| == |quiz|
      ensures index == |chosen|
      ensures forall i :: 0 <= i < |chosen| ==> chosen[i] in quiz[i].choices
      ensures forall t :: scores.Get(t) == Total(chosen, t)
    {
    }

    /** The state once the questions are loaded: first question, no modality,
        all scores zero. */
    constructor (questions: seq<Question>)
      ensures Valid()
      ensures quiz == questions && index == 0 && modality == "" && scores == Zero()
      ensures chosen == [] && backSteps == 0
    {
      quiz := questions;
      index := 0;
      modality := "";
      scores := Zero();
      chosen := [];
      backSteps := 0;
    }

    /** Starts (or restarts) the quiz with modality `m`. */
    method Start(m: string)
      modifies this
      ensures Valid()
      ensures index == 0 && modality == m && scores == Zero()
      ensures chosen == [] && backSteps == 0
    {
      modality := m;
      index := 0;
      scores := Zero();
      chosen := [];
      backSteps := 0;
    }

    /** Takes choice `choiceIndex` of the current question: adds each of its
        weights to its trait's score and moves to the next question. Without
        a current question or with a choice index out of range nothing is
        written. */
    method Answer(choiceIndex: int) returns (outcome: Outcome)
      requires Valid()
      modifies this
      ensures Valid()
      ensures outcome.Fail? <==>
                old(index) >= |quiz| || !(0 <= choiceIndex < |quiz[old(index)].choices|)
      ensures outcome.Fail? ==>
                outcome.error == (if old(index) >= |quiz| then NoCurrentQuestion else ChoiceOutOfRange) &&
                unchanged(this)
      ensures outcome.Pass? ==>
                var choice := quiz[old(index)].choices[choiceIndex];
                index == old(index) + 1 && modality == old(modality) &&
                (forall t :: scores.Get(t) == old(scores).Get(t) + Weight(choice, t)) &&
                chosen == old(chosen) + [choice] && backSteps == old(backSteps)
    {
      if index >= |quiz| {
        return Fail(NoCurrentQuestion);
      }
      var question := quiz[index];
      if !(0 <= choiceIndex < |question.choices|) {
        return Fail(ChoiceOutOfRange);
      }
      var choice := question.choices[choiceIndex];
      scores := scores.(extraversion := scores.extraversion + Weight(choice, Extraversion));
      scores := scores.(agreeableness := scores.agreeableness + Weight(choice, Agreeableness));
      scores := scores.(conscientiousness := scores.conscientiousness + Weight(choice, Conscientiousness));
      scores := scores.(neuroticism := scores.neuroticism + Weight(choice, Neuroticism));
      scores := scores.(openness := scores.openness + Weight(choice, Openness));
      index := index + 1;
      chosen := chosen + [choice];
      assert chosen[..|chosen| - 1] == old(chosen);
      outcome := Pass;
    }

    /** Steps back to the previous question, if there is one. The weights the
        question's answer added stay in the scores. */
    method GoBack()
      requires Valid()
      modifies this
      ensures Valid()
      ensures old(index) > 0 ==> index == old(index) - 1 && backSteps == old(backSteps) + 1
      ensures old(index) == 0 ==> index == 0 && backSteps == old(backSteps)
      ensures scores == old(scores) && modality == old(modality) && chosen == old(chosen)
    {
      if index > 0 {
        index := index - 1;
        backSteps := backSteps + 1;
      }
    }

    /** What the page shows for the current state: the current question while
        one is left, the results otherwise. */
    method Display() returns (screen: Screen)
      requires Valid()
      ensures screen.ResultsScreen? <==> IsComplete()
      ensures screen.QuestionScreen? ==>
                screen.question == quiz[index] && screen.number == index + 1 &&
                screen.total == |quiz| && (screen.showBack <==> index > 0)
      ensures screen.ResultsScreen? ==> screen.results == ResultsOf(scores, modality)
    {
      if index < |quiz| {
        screen := QuestionScreen(index + 1, |quiz|, quiz[index], index > 0);
      } else {
        var results := ComputeResults(scores, modality);
        screen := ResultsScreen(results);
      }
    }
  }

  /** One question whose one choice gives 40 extraversion, answered by a hero:
      the results follow at once, computed from raw scores of 40 extraversion
      and nothing else (`FullExtraversionHeroResults` gives their values). */
  method OneQuestionHeroRun() returns (screen: Screen, raw: ScoreVector)
    ensures raw == ScoreVector(40, 0, 0, 0, 0)
    ensures screen == ResultsScreen(ResultsOf(raw, "hero"))
  {
    var choice := Choice("A", map[Extraversion := 40]);
    var session := new Session([Question("Q", [choice])]);
    session.Start("hero");
    assert |session.quiz| == 1 && |session.quiz[0].choices| == 1;
    var outcome := session.Answer(0);
    assert outcome == Pass;
    WeightsOfA(choice);
    raw := session.scores;
    SameEntries(raw, ScoreVector(40, 0, 0, 0, 0));
    screen := session.Display();
  }

  /** An empty quiz started in the team modality goes straight to the results:
      agreeableness and conscientiousness at 5 each, and of the two the later,
      conscientiousness, is the top trait. */
  method EmptyQuizTeamRun() returns (screen: Screen)
    ensures screen.ResultsScreen?
    ensures screen.results.normalized == ScoreVector(0, 5, 5, 0, 0)
    ensures screen.results.top == Conscientiousness
  {
    var session := new Session([]);
    session.Start("team");
    screen := session.Display();
    EmptyTeamPercentages();
    EmptyTeamTop();
  }

  /** Answering, stepping back and answering the same choice again adds its
      weight twice: a 40-point extraversion choice leaves 80 behind. */
  method ReanswerAfterBackRun() returns (raw: ScoreVector)
    ensures raw == ScoreVector(80, 0, 0, 0, 0)
  {
    var choice := Choice("A", map[Extraversion := 40]);
    var session := new Session([Question("Q", [choice])]);
    session.Start("hero");
    assert |session.quiz| == 1 && |session.quiz[0].choices| == 1;
    WeightsOfA(choice);
    var first := session.Answer(0);
    assert first == Pass && session.index == 1;
    SameEntries(session.scores, ScoreVector(40, 0, 0, 0, 0));
    session.GoBack();
    assert session.index == 0 && session.scores == ScoreVector(40, 0, 0, 0, 0);
    var second := session.Answer(0);
    assert second == Pass;
    raw := session.scores;
    SameEntries(raw, ScoreVector(80, 0, 0, 0, 0));
  }

  /** The weights of the one choice the runs above use. */
  lemma WeightsOfA(choice: Choice)
    requires choice == Choice("A", map[Extraversion := 40])
    ensures forall t :: Weight(choice, t) == if t == Extraversion then 40 else 0
  {
  }
}
