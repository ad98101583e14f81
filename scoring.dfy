/**
 * `computeResults` (src/app/quiz/page.tsx): +5 for a correct selection, -1
 * for a wrong one, 0 for no selection, with no floor on the total; and the
 * review payload handed to the results view.
 */
module Scoring {
  import opened Options
  import opened Questions

  datatype ReviewItem = ReviewItem(
    cardId: string,
    promptEnglish: string,
    promptLao: string,
    options: seq<string>,
    correctIndex: int,
    selectedIndex: Option<int>)

  /** `QuizResultsPayload`; `createdAt` is an opaque timestamp string. */
  datatype Results = Results(
    createdAt: string,
    secPerQ: nat,
    totalQuestions: nat,
    score: int,
    correctCount: nat,
    wrongCount: nat,
    blankCount: nat,
    items: seq<ReviewItem>)

  datatype Outcome = Blank | Correct | Wrong

  /** `selected[i] ?? null`. */
  function PickAt(selected: seq<Option<int>>, i: nat): Option<int> {
    if i < |selected| then selected[i] else None
  }

  function Classify(q: Question, pick: Option<int>): Outcome {
    if pick.None? then Blank
    else if pick.value == q.correctIndex then Correct
    else Wrong
  }

  function Points(o: Outcome): int {
    match o
    case Correct => 5
    case Wrong => -1
    case Blank => 0
  }

  /** The outcome of question `i`. */
  function OutcomeAt(questions: seq<Question>, selected: seq<Option<int>>, i: nat): Outcome
    requires i < |questions|
  {
    Classify(questions[i], PickAt(selected, i))
  }

  /** How many of the first `n` questions have outcome `o`. */
  function Count(questions: seq<Question>, selected: seq<Option<int>>, o: Outcome, n: nat): nat
    requires n <= |questions|
  {
    if n == 0 then 0
    else Count(questions, selected, o, n - 1) + (if OutcomeAt(questions, selected, n - 1) == o then 1 else 0)
  }

  /** The points earned on the first `n` questions. */
  function Score(questions: seq<Question>, selected: seq<Option<int>>, n: nat): int
    requires n <= |questions|
  {
    if n == 0 then 0 else Score(questions, selected, n - 1) + Points(OutcomeAt(questions, selected, n - 1))
  }

  function Review(q: Question, pick: Option<int>): ReviewItem {
    ReviewItem(q.card.id, q.card.english, q.card.lao, q.options, q.correctIndex, pick)
  }

  /** The review entries of the first `n` questions. */
  function Items(questions: seq<Question>, selected: seq<Option<int>>, n: nat): seq<ReviewItem>
    requires n <= |questions|
  {
    if n == 0 then [] else Items(questions, selected, n - 1) + [Review(questions[n - 1], PickAt(selected, n - 1))]
  }

  /** The payload `computeResults` returns. */
  function ResultsOf(questions: seq<Question>, selected: seq<Option<int>>, secPerQ: nat, createdAt: string): Results {
    var n := |questions|;
    Results(createdAt, secPerQ, n, Score(questions, selected, n),
            Count(questions, selected, Correct, n), Count(questions, selected, Wrong, n),
            Count(questions, selected, Blank, n), Items(questions, selected, n))
  }

  /**
   * Every question is exactly one of correct, wrong or blank, and the score
   * is five per correct answer minus one per wrong answer.
   */
  lemma {:induction false} ScoreFromCounts(questions: seq<Question>, selected: seq<Option<int>>, n: nat)
    requires n <= |questions|
    ensures Count(questions, selected, Correct, n) + Count(questions, selected, Wrong, n)
          + Count(questions, selected, Blank, n) == n
    ensures Score(questions, selected, n)
         == 5 * Count(questions, selected, Correct, n) - Count(questions, selected, Wrong, n)
  {
    if n > 0 {
      ScoreFromCounts(questions, selected, n - 1);
    }
  }

  /** Review entry `i` copies question `i` and its selection. */
  lemma {:induction false} ItemsAt(questions: seq<Question>, selected: seq<Option<int>>, n: nat, i: nat)
    requires i < n <= |questions|
    ensures |Items(questions, selected, n)| == n
    ensures Items(questions, selected, n)[i] == Review(questions[i], PickAt(selected, i))
  {
    ItemsLength(questions, selected, n - 1);
    if i < n - 1 {
      ItemsAt(questions, selected, n - 1, i);
    }
  }

  lemma {:induction false} ItemsLength(questions: seq<Question>, selected: seq<Option<int>>, n: nat)
    requires n <= |questions|
    ensures |Items(questions, selected, n)| == n
  {
    if n > 0 {
      ItemsLength(questions, selected, n - 1);
    }
  }

  /** The total lies between minus the question count and five times it. */
  lemma {:induction false} ScoreBounds(questions: seq<Question>, selected: seq<Option<int>>, n: nat)
    requires n <= |questions|
    ensures -(n as int) <= Score(questions, selected, n) <= 5 * n
  {
    if n > 0 {
      ScoreBounds(questions, selected, n - 1);
    }
  }

  /**
   * `computeResults` as the source runs it: one pass over the questions that
   * bumps a counter and the score and emits a review entry per question.
   */
  method ComputeResults(questions: seq<Question>, selected: seq<Option<int>>, secPerQ: nat, createdAt: string)
    returns (r: Results)
    ensures r == ResultsOf(questions, selected, secPerQ, createdAt)
    ensures r.totalQuestions == |questions| == |r.items|
    ensures r.correctCount + r.wrongCount + r.blankCount == |questions|
    ensures r.score == 5 * r.correctCount - r.wrongCount
    ensures forall i :: 0 <= i < |questions| ==>
      r.items[i].cardId == questions[i].card.id &&
      r.items[i].options == questions[i].options &&
      r.items[i].correctIndex == questions[i].correctIndex &&
      r.items[i].selectedIndex == PickAt(selected, i)
  {
    var score := 0;
    var correctCount, wrongCount, blankCount := 0, 0, 0;
    var items := [];
    var i := 0;
    while i < |questions|
      invariant 0 <= i <= |questions|
      invariant score == Score(questions, selected, i)
      invariant correctCount == Count(questions, selected, Correct, i)
      invariant wrongCount == Count(questions, selected, Wrong, i)
      invariant blankCount == Count(questions, selected, Blank, i)
      invariant items == Items(questions, selected, i)
    {
      var q := questions[i];
      var pick := PickAt(selected, i);
      if pick.None? {
        blankCount := blankCount + 1;
      } else if pick.value == q.correctIndex {
        score := score + 5;
        correctCount := correctCount + 1;
      } else {
        score := score + -1;
        wrongCount := wrongCount + 1;
      }
      items := items + [Review(q, pick)];
      i := i + 1;
    }
    r := Results(createdAt, secPerQ, |questions|, score, correctCount, wrongCount, blankCount, items);
    ScoreFromCounts(questions, selected, |questions|);
    ItemsLength(questions, selected, |questions|);
    forall k | 0 <= k < |questions|
      ensures r.items[k] == Review(questions[k], PickAt(selected, k))
    {
      ItemsAt(questions, selected, |questions|, k);
    }
  }

  /** Answering every question correctly scores five points each. */
  lemma {:induction false} AllCorrect(questions: seq<Question>, selected: seq<Option<int>>, n: nat)
    requires n <= |questions| <= |selected|
    requires forall i :: 0 <= i < |questions| ==> selected[i] == Some(questions[i].correctIndex)
    ensures Count(questions, selected, Correct, n) == n
    ensures Count(questions, selected, Wrong, n) == 0 && Count(questions, selected, Blank, n) == 0
    ensures Score(questions, selected, n) == 5 * n
  {
    if n > 0 {
      AllCorrect(questions, selected, n - 1);
    }
  }

  /** Leaving every question blank scores nothing. */
  lemma {:induction false} AllBlank(questions: seq<Question>, selected: seq<Option<int>>, n: nat)
    requires n <= |questions| <= |selected|
    requires forall i :: 0 <= i < |questions| ==> selected[i] == None
    ensures Count(questions, selected, Blank, n) == n
    ensures Count(questions, selected, Correct, n) == 0 && Count(questions, selected, Wrong, n) == 0
    ensures Score(questions, selected, n) == 0
  {
    if n > 0 {
      AllBlank(questions, selected, n - 1);
    }
  }

  /** Selections [correct, wrong, blank] on three questions score 5 - 1 + 0 = 4. */
  lemma CorrectWrongBlank(questions: seq<Question>, secPerQ: nat, createdAt: string)
    requires |questions| == 3
    ensures var selected := [Some(questions[0].correctIndex), Some(questions[1].correctIndex + 1), None];
      var r := ResultsOf(questions, selected, secPerQ, createdAt);
      r.score == 4 && r.correctCount == 1 && r.wrongCount == 1 && r.blankCount == 1 && r.totalQuestions == 3
  {
    var selected := [Some(questions[0].correctIndex), Some(questions[1].correctIndex + 1), None];
    assert OutcomeAt(questions, selected, 0) == Correct;
    assert OutcomeAt(questions, selected, 1) == Wrong;
    assert OutcomeAt(questions, selected, 2) == Blank;
    assert Count(questions, selected, Correct, 1) == 1 && Count(questions, selected, Wrong, 1) == 0;
    assert Count(questions, selected, Blank, 1) == 0;
    assert Count(questions, selected, Correct, 2) == 1 && Count(questions, selected, Wrong, 2) == 1;
    assert Count(questions, selected, Blank, 2) == 0;
    ScoreFromCounts(questions, selected, 3);
  }
}
