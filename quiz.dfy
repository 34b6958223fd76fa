/**
 * The graphene quiz: a fixed bank of three questions, a session that counts
 * the current question and the correct answers, and the pass mark
 * `Math.ceil(questions.length / 2)`. Question and option texts are not modelled.
 */
module Quiz {

  /** A question with its number of options and the index of the right one. */
  datatype Question = Question(options: nat, correctAnswer: nat)

  /** The bank `startQuiz` installs, in order (right answers 1, 1 and 2). */
  const Bank: seq<Question> := [Question(4, 1), Question(4, 1), Question(4, 2)]

  /** `ctx.session.quiz` without its copy of the bank. */
  datatype Session = Session(currentQuestion: nat, correctAnswers: nat)

  /** The session `startQuiz` creates. */
  const Fresh: Session := Session(0, 0)

  /** A live session points at a question of the bank and cannot have more right answers than answers. */
  predicate LiveSession(s: Session) {
    s.currentQuestion < |Bank| && s.correctAnswers <= s.currentQuestion
  }

  /** `Math.ceil(n / 2)`. */
  function PassMark(n: nat): (m: nat)
    ensures n <= 2 * m <= n + 1
  {
    (n + 1) / 2
  }

  /**
   * One `quiz_answer_<i>` press: a right answer adds one to the score, and
   * the session moves to the next question either way.
   */
  function Answered(s: Session, answer: nat): (r: Session)
    requires s.currentQuestion < |Bank|
    ensures r.currentQuestion == s.currentQuestion + 1
    ensures r.correctAnswers == s.correctAnswers + (if answer == Bank[s.currentQuestion].correctAnswer then 1 else 0)
    ensures LiveSession(s) ==> r.correctAnswers <= r.currentQuestion
  {
    var hit := answer == Bank[s.currentQuestion].correctAnswer;
    Session(s.currentQuestion + 1, if hit then s.correctAnswers + 1 else s.correctAnswers)
  }

  /** The verdict once every question is answered. */
  predicate Passed(s: Session) {
    s.correctAnswers >= PassMark(|Bank|)
  }

  /** The session after answering `answers` in order from a fresh start. */
  function Run(answers: seq<nat>): (s: Session)
    requires |answers| <= |Bank|
    ensures s.currentQuestion == |answers| && s.correctAnswers <= |answers|
  {
    if answers == [] then Fresh else Answered(Run(answers[..|answers| - 1]), answers[|answers| - 1])
  }

  /** The positions at which an answer sequence picks the right option. */
  function Hits(answers: seq<nat>): set<nat>
    requires |answers| <= |Bank|
  {
    set i | 0 <= i < |answers| && answers[i] == Bank[i].correctAnswer
  }

  /** Running the quiz scores exactly the right answers, one per position. */
  lemma {:induction false} RunScoresHits(answers: seq<nat>)
    requires |answers| <= |Bank|
    ensures Run(answers) == Session(|answers|, |Hits(answers)|)
  {
    if answers != [] {
      var n := |answers| - 1;
      var init := answers[..n];
      RunScoresHits(init);
      if answers[n] == Bank[n].correctAnswer {
        assert Hits(answers) == Hits(init) + {n};
        assert n !in Hits(init);
      } else {
        assert Hits(answers) == Hits(init);
      }
    }
  }

  /** With three questions the pass mark is two: passing means at least two right answers. */
  lemma PassIffTwoRight(answers: seq<nat>)
    requires |answers| == |Bank|
    ensures Passed(Run(answers)) <==> |Hits(answers)| >= 2
  {
    RunScoresHits(answers);
  }

  /** All three right answers pass. */
  lemma PerfectRunPasses()
    ensures Passed(Run([1, 1, 2]))
  {
    var a := [1, 1, 2];
    RunScoresHits(a);
    assert Hits(a) == {0, 1, 2};
  }

  /** One right answer or none fails. */
  lemma AtMostOneRightFails(answers: seq<nat>)
    requires |answers| == |Bank| && |Hits(answers)| <= 1
    ensures !Passed(Run(answers))
  {
    RunScoresHits(answers);
  }
}
