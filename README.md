# Commander's Compass quiz: a Dafny model

The page runs a personality quiz. The user picks a modality (`hero` or
`team`) and answers the loaded questions one at a time. Every choice carries
integer weights for up to five traits: extraversion, agreeableness,
conscientiousness, neuroticism and openness. The page adds these weights to a
running score per trait. Once no question is left it shows the results:

- each raw score is turned into a rounded percentage of a fixed maximum;
- the modality adds a bonus of 5 points, capped at 100, to two traits;
- the top trait is picked.

This project models that logic in three modules:

- `Quiz` (`quiz.dfy`) holds the data. It defines the five traits in their
  fixed order, the score object (`ScoreVector`), choices with their optional
  weights, questions, and `Total`, the sum of a run of answers' weights for
  one trait.
- `Scoring` (`scoring.dfy`) models the result calculation of `showResults`.
  It has the rounding `Percent`, the `Normalize` table, the capped `Boost`,
  the bonus `ApplyBonus`, and the arg-max `TopTrait` with the `reduce`
  tie-break. The method `ComputeResults` fills the percentages in a loop and
  writes the bonus over them, as the source does. It is proved equal to the
  specification function `ResultsOf`.
- `Engine` (`engine.dfy`) models the page's global state as the class
  `Session`: `quiz`, `index`, `modality` and `scores`. It has the transitions
  `Start`, `Answer` and `GoBack`, and `Display`, which chooses between the
  question on show and the results.
  - The class invariant `Valid()` uses two ghost fields: `chosen`, every
    choice whose weights were added since the last start, and `backSteps`.
    It keeps `0 <= index <= |quiz|` and `index + backSteps == |chosen|`.
    Every score equals the `Total` of `chosen`.
  - `Answer` reports the source's failing cases as an `Outcome`. It fails
    when there is no current question or the choice index is out of range,
    and in both cases it leaves the state untouched.
  - Three client methods replay concrete runs: one question answered by a
    hero, an empty quiz in the team modality, and an answer given again after
    stepping back.

Behaviour worth noting:

- Tie-break of the top trait. `reduce((a, b) => s[a] > s[b] ? a : b)` keeps
  the running candidate only when it is strictly greater. So among traits
  with equal top value, the LAST in the order extraversion, agreeableness,
  conscientiousness, neuroticism, openness wins. With an empty quiz and
  `team`, agreeableness and conscientiousness tie at 5 and the top trait is
  conscientiousness (`EmptyTeamTop`, `EmptyQuizTeamRun`).
- Modality. The code stores any string. Only `'hero'` and `'team'` give a
  bonus; any other value, including the initial `''`, gives none. The model
  keeps the modality as a string.
- Range of the percentages. They are not clamped. A negative raw score gives
  a negative percentage. A raw score above the maximum gives more than 100,
  unless the trait is boosted, in which case `Math.min` lowers it to 100.
  `PercentRange` states the 0..100 range only for raw scores between 0 and
  the maximum.

Assumptions: weights are integers. `Math.round((s / max) * 100)` is modelled
on the exact rational `100 * s / max`, rounded half up, as
`(200 * s + max) / (2 * max)`. Dafny's division is Euclidean, and with a
positive divisor that is the floor, which is what `Math.round` computes.

## Model

| member | source | states |
|---|---|---|
| `Quiz.Rank` | quiz.js:5-11 | every trait has a position in the fixed key order of the score object, and that position holds the trait |
| `Quiz.ScoreVector.With` | quiz.js:121 | writing one trait's score sets that trait to the new value and leaves the other four unchanged |
| `Quiz.Zero` | quiz.js:49-55 | the score object of a new session holds 0 for every trait |
| `Quiz.Weight` | quiz.js:88-92 | the weight a choice adds to a trait, 0 when the choice gives that trait none (the `|| 0` default); `Engine.Session.Answer` states the per-trait addition with it |
| `Quiz.Total` | quiz.js:88-92 | the sum of the weights a run of answers adds to one trait; `TotalAppend` and `TotalRepeated` state how it adds up, and `Engine.Session.Valid` ties the scores to it |
| `Quiz.TotalAppend` | quiz.js:88-92 | the weights collected by two runs of answers, one after the other, add up trait by trait |
| `Quiz.TotalRepeated` | quiz.js:101-102 | answering the same choice twice counts its weight twice |
| `Scoring.MaxScore` | quiz.js:110-116 | every trait's maximum is positive (40 or 45), so the division is defined |
| `Scoring.Percent` | quiz.js:121 | the percentage p is `100*s/max` rounded half up: `p - 1/2 <= 100*s/max < p + 1/2` |
| `Scoring.PercentUnique` | quiz.js:121 | exactly one integer meets that rounding condition, and it is the value of `Percent` |
| `Scoring.PercentMonotone` | quiz.js:121 | a higher raw score never gives a lower percentage |
| `Scoring.PercentRange` | quiz.js:118-122 | a raw score from 0 up to the maximum gives a percentage from 0 to 100; 0 gives 0 and the maximum gives 100 |
| `Scoring.Normalize` | quiz.js:118-122 | every trait's raw score as the rounded percentage of its own maximum; `NormalizeMonotone`, `PercentRange` and `NormalizeZero` state its properties |
| `Scoring.NormalizeMonotone` | quiz.js:119-122 | each trait's normalised value is the rounded percentage of its own raw score against its own maximum, and it grows with that raw score |
| `Scoring.Boost` | quiz.js:126-130 | the bonus result is at most 100; below 95 it adds exactly 5; from 95 up, 100 included, it gives exactly 100 |
| `Scoring.Boosted` | quiz.js:124-131 | `hero` gives the bonus to extraversion and conscientiousness, `team` to agreeableness and conscientiousness, any other modality to no trait; `ApplyBonus` and `BonusCapped` state what it selects |
| `Scoring.ApplyBonus` | quiz.js:124-131 | `hero` boosts extraversion and conscientiousness, `team` boosts agreeableness and conscientiousness; no other trait and no other modality is changed |
| `Scoring.BonusCapped` | quiz.js:125-131 | a boosted trait ends at most 100, and at exactly 100 from 95 or more; every other trait is unchanged; any other modality leaves the scores unchanged |
| `Scoring.LastArgMax` | quiz.js:134 | folding the `reduce` step (keep the candidate only when strictly greater) over the traits gives a maximum, and no later trait equals it |
| `Scoring.TopTrait` | quiz.js:133-134 | the top trait's value is at least every trait's value, and every trait after it in key order is strictly lower |
| `Scoring.TopTraitUnique` | quiz.js:134 | a trait that is a maximum and is not tied by any later trait is the top trait; together with `TopTrait` this is an if-and-only-if |
| `Scoring.ResultsOf` | quiz.js:110-134 | the results of `showResults`: the bonus over the normalised scores, the modality, and a top trait whose value is the largest and is strictly above every later trait's |
| `Scoring.ComputeResults` | quiz.js:109-134 | the loop fills the percentages and the bonus is written over them, and the result equals `ResultsOf`; the top trait's value is the largest; every trait without a bonus shows its exact rounded percentage |
| `Scoring.FullExtraversionHeroResults` | quiz.js:110-134 | raw scores of 40 extraversion and nothing else, with `hero`, give extraversion 100, conscientiousness 5, the others 0, and extraversion on top |
| `Scoring.NormalizeZero` | quiz.js:119-122 | raw scores that are all 0 give percentages that are all 0 |
| `Scoring.EmptyTeamPercentages` | quiz.js:110-131 | all-zero raw scores with `team` give agreeableness 5, conscientiousness 5 and the others 0 |
| `Scoring.EmptyTeamTop` | quiz.js:133-134 | of the two traits tied at 5 for all-zero raw scores with `team`, the later one, conscientiousness, is on top |
| `Engine.Session.constructor` | quiz.js:2-11 | once the questions are loaded, the session is at the first question with no modality and all scores zero, and the invariant holds |
| `Engine.Session.Valid` | quiz.js:2-11 | the invariant over the globals: the index lies within the questions, each answer moved it forward and each back step backward, every score is the `Total` of the answers given since the start, and without a back step the i-th answer is a choice of question i |
| `Engine.Session.IsComplete` | quiz.js:61 | the results are due when the index is not below the number of questions; `Display` and `ForwardRun` state what it means |
| `Engine.Session.ForwardRun` | quiz.js:83-96 | with no step back since the start, the results are due exactly when every question has an answer; the i-th answer is a choice of question i; each score is the sum of those answers' weights |
| `Engine.Session.Start` | quiz.js:46-57 | the modality is recorded, the index goes to 0 and every score goes to 0; the invariant holds |
| `Engine.Session.Answer` | quiz.js:83-96 | the answer fails, changing nothing, exactly when there is no current question or the choice index is out of range; otherwise each trait's score grows by the chosen choice's weight (missing weights count 0), the index grows by one, and the modality stays; the invariant holds |
| `Engine.Session.GoBack` | quiz.js:99-106 | the index drops by one only when it is above 0; the scores and the modality never change; the invariant holds |
| `Engine.Session.Display` | quiz.js:60-80 | the results are shown exactly when the index is at or past the number of questions, and they are `ResultsOf` the scores and the modality; otherwise question `index + 1` of `|quiz|` is shown, with a Back button exactly when the index is above 0 |
| `Engine.OneQuestionHeroRun` | quiz.js:46-96 | one question whose one choice weighs 40 extraversion, started as `hero` and answered: the raw scores are 40 extraversion and 0 elsewhere, and the results screen follows at once with the results of those scores and `hero` |
| `Engine.EmptyQuizTeamRun` | quiz.js:46-80 | an empty quiz started as `team` goes straight to the results: agreeableness 5, conscientiousness 5, conscientiousness on top |
| `Engine.ReanswerAfterBackRun` | quiz.js:83-106 | answer, step back and give the same answer again: a 40-point extraversion weight leaves 80 in the raw score |

## Left out

- Loading the questions (`loadQuiz`, `fetch`, JSON parsing, the error message when the load fails, the `DOMContentLoaded` hook; quiz.js:19-28, 159). This is asynchronous I/O. The constructor takes the loaded questions as a parameter.
- All markup built into `innerHTML` (quiz.js:31-43, 63-76, 137-155). `Display` keeps only what the question screen depends on: the question, its number, the total, and whether Back is shown. The results screen is reduced to the `Results` value. The capitalisation of the top trait's name for display (quiz.js:142, 152) is presentation and is not modelled.
- Double-precision arithmetic in `Math.round((s / max) * 100)`. Results that differ from exact rounding near a .5 boundary are not modelled.
- Non-numeric weights are not modelled; weights are integers. In the code a string weight such as `"5"` turns the running sum into a string by concatenation (`0 + "5"` is `"05"`), other values can give `NaN`, and falsy values fall back to 0 through `|| 0` (quiz.js:88-92). The running sums there are doubles, exact only up to 2^53; the model's `int` sums are unbounded.
- `Engine.Session.Answer`: a choice index that is not an integer (which the buttons never pass) is not modelled; the parameter is an `int`.
- The welcome screen's "Start Over" button only re-renders (quiz.js:153). The session is reset by the next `Start`, which is modelled.
