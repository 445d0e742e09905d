/** Grading of a submitted quiz (`saveQuizResult`, the `map` and `filter`
    of actions/interview.js). */
module Grading {
  import opened Common

  /** A quiz question as the client sends it back with the answers. The
      generated items are not inspected, so `correctAnswer` may be missing
      (`None`, JavaScript's `undefined`). */
  datatype QuizQuestion = QuizQuestion(
    question: string,
    options: seq<string>,
    correctAnswer: Option<string>,
    explanation: string)

  /** One graded entry of the stored assessment. `userAnswer` is `None`
      where the answers run out (`answers[index]` is `undefined`). */
  datatype GradedQuestion = GradedQuestion(
    question: string,
    answer: Option<string>,
    userAnswer: Option<string>,
    isCorrect: bool,
    explanation: string)

  /** `answers[i]`, which JavaScript reads as `undefined` past the end. */
  function AnswerAt(answers: seq<string>, i: nat): Option<string>
  {
    if i < |answers| then Some(answers[i]) else None
  }

  /** Grades one question against the answer in its position: strict
      equality, under which `undefined === undefined` holds, so a missing
      answer is correct only for an item that lacks `correctAnswer`. */
  function GradeOne(q: QuizQuestion, userAnswer: Option<string>): GradedQuestion
  {
    GradedQuestion(q.question, q.correctAnswer, userAnswer, userAnswer == q.correctAnswer, q.explanation)
  }

  /** `questions.map((q, index) => ...)`: one entry per question, paired
      with the answer at the same position. Neither the lengths of the two
      lists nor the options are checked. */
  function Grade(questions: seq<QuizQuestion>, answers: seq<string>): (graded: seq<GradedQuestion>)
    ensures |graded| == |questions|
    ensures forall i :: 0 <= i < |questions| ==>
      && graded[i].question == questions[i].question
      && graded[i].answer == questions[i].correctAnswer
      && graded[i].explanation == questions[i].explanation
      && (i < |answers| ==> graded[i].userAnswer == Some(answers[i]))
      && (i >= |answers| ==> graded[i].userAnswer.None?)
      && (graded[i].isCorrect <==>
            if i < |answers| then questions[i].correctAnswer == Some(answers[i])
            else questions[i].correctAnswer.None?)
  {
    seq(|questions|, i requires 0 <= i < |questions| => GradeOne(questions[i], AnswerAt(answers, i)))
  }

  /** `questionResults.filter((q) => !q.isCorrect)`. */
  function WrongAnswers(graded: seq<GradedQuestion>): (wrong: seq<GradedQuestion>)
    ensures |wrong| <= |graded|
    ensures forall e :: e in wrong ==> e in graded && !e.isCorrect
  {
    if graded == [] then []
    else (if graded[0].isCorrect then [] else [graded[0]]) + WrongAnswers(graded[1..])
  }

  /** The filter keeps order: filtering a concatenation is the concatenation
      of the filtered parts. With the one-entry case this pins the wrong
      answers down as the ordered sub-sequence of incorrect entries. */
  lemma {:induction false} WrongAnswersAppend(a: seq<GradedQuestion>, b: seq<GradedQuestion>)
    ensures WrongAnswers(a + b) == WrongAnswers(a) + WrongAnswers(b)
  {
    if a == [] {
      assert a + b == b;
    } else {
      assert (a + b)[1..] == a[1..] + b;
      WrongAnswersAppend(a[1..], b);
    }
  }

  /** A single entry is kept exactly when it is incorrect. */
  lemma WrongAnswersSingle(e: GradedQuestion)
    ensures WrongAnswers([e]) == if e.isCorrect then [] else [e]
  {
    assert [e][1..] == [];
  }

  /** Every incorrect entry is kept as often as it occurs, and no correct
      entry is kept. */
  lemma {:induction false} WrongAnswersCounts(graded: seq<GradedQuestion>)
    ensures forall e :: multiset(WrongAnswers(graded))[e] == if e.isCorrect then 0 else multiset(graded)[e]
  {
    if graded != [] {
      WrongAnswersCounts(graded[1..]);
      assert graded == [graded[0]] + graded[1..];
    }
  }

  /** No answer is wrong exactly when every question has an answer in its
      position equal to its correct answer, or has neither. */
  lemma WrongAnswersEmptyIff(questions: seq<QuizQuestion>, answers: seq<string>)
    ensures WrongAnswers(Grade(questions, answers)) == [] <==>
      forall i :: 0 <= i < |questions| ==> AnswerAt(answers, i) == questions[i].correctAnswer
  {
    var graded := Grade(questions, answers);
    WrongAnswersCounts(graded);
    if WrongAnswers(graded) == [] {
      forall i | 0 <= i < |questions| ensures AnswerAt(answers, i) == questions[i].correctAnswer {
        assert graded[i] in multiset(graded);
      }
    } else {
      var e := WrongAnswers(graded)[0];
      assert e in WrongAnswers(graded);
      var i :| 0 <= i < |graded| && graded[i] == e;
      assert AnswerAt(answers, i) != questions[i].correctAnswer;
    }
  }
}
