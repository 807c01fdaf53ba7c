/** The quiz-taking component: one question at a time, an answer recorded
    per question, and a running score. */
module QuizComponent {
  import opened Wrappers
  import opened Types
  import GeminiService

  /** The number of questions whose recorded answer is the correct option. */
  function CorrectCount(questions: seq<Question>, answers: Answers): nat
    requires |answers| == |questions|
  {
    if |questions| == 0 then 0
    else
      (if answers[0] == Some(questions[0].correctIndex) then 1 else 0)
      + CorrectCount(questions[1..], answers[1..])
  }

  /** The number of questions with an answer recorded. */
  function AnsweredCount(answers: Answers): nat {
    if |answers| == 0 then 0 else (if answers[0].Some? then 1 else 0) + AnsweredCount(answers[1..])
  }

  /** Only answered questions can be correct. */
  lemma {:induction false} CorrectCountAtMostAnswered(questions: seq<Question>, answers: Answers)
    requires |answers| == |questions|
    ensures CorrectCount(questions, answers) <= AnsweredCount(answers)
  {
    if |questions| > 0 {
      CorrectCountAtMostAnswered(questions[1..], answers[1..]);
    }
  }

  /** When nothing after position `last` is answered, at most `last + 1`
      questions are. */
  lemma {:induction false} AnsweredCountBound(answers: Answers, last: nat)
    requires forall i :: last < i < |answers| ==> answers[i] == None
    ensures AnsweredCount(answers) <= last + 1
  {
    if |answers| > 0 {
      if last == 0 {
        AllUnansweredCount(answers[1..]);
      } else {
        AnsweredCountBound(answers[1..], last - 1);
      }
    }
  }

  lemma {:induction false} AllUnansweredCount(answers: Answers)
    requires forall i :: 0 <= i < |answers| ==> answers[i] == None
    ensures AnsweredCount(answers) == 0
  {
    if |answers| > 0 {
      AllUnansweredCount(answers[1..]);
    }
  }

  /** Recording an answer where there was none raises the count by one
      exactly when it is the correct option. */
  lemma {:induction false} CorrectCountAfterAnswer(questions: seq<Question>, answers: Answers, at: nat, idx: int)
    requires |answers| == |questions| && at < |questions|
    requires answers[at] == None
    ensures CorrectCount(questions, answers[at := Some(idx)])
         == CorrectCount(questions, answers) + (if idx == questions[at].correctIndex then 1 else 0)
  {
    if at > 0 {
      CorrectCountAfterAnswer(questions[1..], answers[1..], at - 1, idx);
      assert answers[at := Some(idx)][1..] == answers[1..][at - 1 := Some(idx)];
    } else {
      assert answers[at := Some(idx)][1..] == answers[1..];
    }
  }

  /** A list of `n` unanswered entries (`new Array(n).fill(null)`). */
  function NoAnswers(n: nat): (a: Answers)
    ensures |a| == n && forall i :: 0 <= i < n ==> a[i] == None
  {
    seq(n, _ => None)
  }

  lemma {:induction false} NoAnswersScoreZero(questions: seq<Question>)
    ensures CorrectCount(questions, NoAnswers(|questions|)) == 0
  {
    if |questions| > 0 {
      assert NoAnswers(|questions|)[1..] == NoAnswers(|questions| - 1);
      NoAnswersScoreZero(questions[1..]);
    }
  }

  /** The score the quiz keeps is the number of `correct` entries of the
      history the service sends for analysis. */
  lemma {:induction false} CorrectCountMatchesHistory(questions: seq<Question>, answers: Answers)
    requires |answers| == |questions|
    ensures CorrectCount(questions, answers) == CountCorrectEntries(GeminiService.History(questions, answers))
  {
    if |questions| > 0 {
      CorrectCountMatchesHistory(questions[1..], answers[1..]);
      var h := GeminiService.History(questions, answers);
      assert h[1..] == GeminiService.History(questions[1..], answers[1..]);
    }
  }

  function CountCorrectEntries(h: seq<GeminiService.HistoryEntry>): nat {
    if |h| == 0 then 0 else (if h[0].correct then 1 else 0) + CountCorrectEntries(h[1..])
  }

  /** What the quiz reports when the last question is done. */
  datatype Completion = Completion(answers: Answers, score: nat)

  class Quiz {
    const questions: seq<Question>
    var currentIndex: nat
    var answers: Answers
    var selectedIdx: Option<int>
    var isAnswered: bool
    var score: nat

    /** The quiz's invariant: the current question exists, nothing after it
        has been answered, the selection and the answered flag mirror the
        current answer, and the score counts the correct answers. */
    ghost predicate Valid()
      reads this
    {
      && currentIndex < |questions|
      && |answers| == |questions|
      && (forall i :: currentIndex < i < |answers| ==> answers[i] == None)
      && selectedIdx == answers[currentIndex]
      && isAnswered == answers[currentIndex].Some?
      && score == CorrectCount(questions, answers)
      && score <= currentIndex + 1
    }

    /** The quiz is only shown for a session with questions. */
    constructor (questions: seq<Question>)
      requires |questions| > 0
      ensures Valid()
      ensures this.questions == questions
      ensures currentIndex == 0 && answers == NoAnswers(|questions|)
      ensures selectedIdx == None && !isAnswered && score == 0
    {
      this.questions := questions;
      currentIndex := 0;
      answers := NoAnswers(|questions|);
      selectedIdx := None;
      isAnswered := false;
      score := 0;
      new;
      NoAnswersScoreZero(questions);
    }

    /** `handleSelect(idx)`: ignored once the current question is answered;
        otherwise records `idx` for it and scores it. */
    method HandleSelect(idx: int)
      requires Valid()
      modifies this
      ensures Valid()
      ensures currentIndex == old(currentIndex)
      ensures old(isAnswered) ==>
        answers == old(answers) && selectedIdx == old(selectedIdx) && isAnswered && score == old(score)
      ensures !old(isAnswered) ==>
        && answers == old(answers)[currentIndex := Some(idx)]
        && selectedIdx == Some(idx) && isAnswered
        && score == old(score) + (if idx == questions[currentIndex].correctIndex then 1 else 0)
    {
      if isAnswered {
        return;
      }
      selectedIdx := Some(idx);
      isAnswered := true;
      var newAnswers := answers[currentIndex := Some(idx)];
      CorrectCountAfterAnswer(questions, answers, currentIndex, idx);
      answers := newAnswers;
      if idx == questions[currentIndex].correctIndex {
        score := score + 1;
      }
      CorrectCountAtMostAnswered(questions, answers);
      AnsweredCountBound(answers, currentIndex);
    }

    /** `handleNext()`: moves to the next question, clearing the selection;
        on the last question reports the answers and the score instead. */
    method HandleNext() returns (completed: Option<Completion>)
      requires Valid()
      modifies this
      ensures Valid()
      ensures answers == old(answers) && score == old(score)
      ensures old(currentIndex) < |questions| - 1 ==>
        && currentIndex == old(currentIndex) + 1
        && selectedIdx == None && !isAnswered
        && completed == None
      ensures old(currentIndex) == |questions| - 1 ==>
        && currentIndex == old(currentIndex)
        && selectedIdx == old(selectedIdx) && isAnswered == old(isAnswered)
        && completed == Some(Completion(answers, score))
    {
      if currentIndex < |questions| - 1 {
        currentIndex := currentIndex + 1;
        selectedIdx := None;
        isAnswered := false;
        completed := None;
      } else {
        completed := Some(Completion(answers, score));
      }
    }
  }

  /** A two-question run: a right answer, a second click that is ignored,
      then a wrong answer. Moving on from the first question reports
      nothing; finishing the second reports both answers and a score of 1. */
  method AnswerTwoQuestions(text: string, topic: string)
    returns (first: Option<Completion>, last: Option<Completion>)
    ensures first == None
    ensures last == Some(Completion([Some(1), Some(0)], 1))
  {
    var q0 := Question("q-1-0", text, ["a", "b", "c", "d"], 1, "", topic);
    var q1 := Question("q-1-1", text, ["a", "b", "c", "d"], 2, "", topic);
    var quiz := new Quiz([q0, q1]);
    quiz.HandleSelect(1);
    quiz.HandleSelect(3);
    assert quiz.score == 1 && quiz.answers == [Some(1), None];
    first := quiz.HandleNext();
    assert quiz.currentIndex == 1 && !quiz.isAnswered;
    quiz.HandleSelect(0);
    assert quiz.answers == [Some(1), Some(0)] && quiz.score == 1;
    last := quiz.HandleNext();
  }
}
