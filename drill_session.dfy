/**
 The drill session: the application object's score and question counters,
 the current problem and its correct answer, the text in the answer entry and
 whether the entry and the Submit button are enabled.

 The random draws that `generate_problem` makes are passed in as the operator
 and the two operands. Labels, message boxes and widget layout are not
 modelled; a disabled Entry ignoring insert and delete is modelled as the
 entry text not changing, and a disabled Submit button never calling
 `check_answer` is the precondition `enabled` of `CheckAnswer`.
 */
module Drill {
  import opened AnswerText
  import opened Problems

  class MathDrillApp {
    /** Number of problems in one drill. */
    const numProblems: nat := 10

    var score: nat
    var questionNumber: nat
    var problem: Problem
    var correctAnswer: Answer
    /** The text typed into the answer entry. */
    var entry: string
    /** Whether the answer entry and the Submit button accept input. */
    var enabled: bool

    /** The session invariant: the score never passes the number of questions
        asked, which never passes the drill length; input is enabled exactly
        while the drill is not complete, and the entry is empty once it is; the
        stored answer is the correct answer of the current problem. */
    ghost predicate Valid()
      reads this
    {
      score <= questionNumber <= numProblems &&
      (enabled <==> questionNumber < numProblems) &&
      (!enabled ==> entry == []) &&
      Correct(problem) && correctAnswer == problem.answer
    }

    /** `__init__`: an empty entry, both counters at zero, input enabled and a
        first problem. */
    constructor (op: Operator, x: int, y: int)
      requires DrawInRange(op, x, y)
      ensures Valid()
      ensures score == 0 && questionNumber == 0 && enabled && entry == []
      ensures problem == Generate(op, x, y)
    {
      score, questionNumber := 0, 0;
      entry, enabled := [], true;
      var p := Generate(op, x, y);
      problem, correctAnswer := p, p.answer;
    }

    /** `generate_problem`: replaces the problem and its correct answer and
        touches nothing else. */
    method GenerateProblem(op: Operator, x: int, y: int)
      requires DrawInRange(op, x, y)
      modifies this`problem, this`correctAnswer
      ensures problem == Generate(op, x, y) && correctAnswer == problem.answer
      ensures Correct(problem)
    {
      problem := Generate(op, x, y);
      correctAnswer := problem.answer;
    }

    /** `append_to_answer`: "C" empties the entry, any other key is appended
        as one character; while input is disabled the entry does not change. */
    method AppendToAnswer(key: char)
      requires Valid()
      modifies this`entry
      ensures Valid()
      ensures !enabled ==> entry == old(entry)
      ensures enabled && key == 'C' ==> entry == []
      ensures enabled && key != 'C' ==> entry == old(entry) + [key]
    {
      if enabled {
        if key == 'C' {
          entry := [];
        } else {
          entry := entry + [key];
        }
      }
    }

    /** `end_drill`: disables the answer entry and the Submit button. */
    method EndDrill()
      modifies this`enabled
      ensures !enabled
    {
      enabled := false;
    }

    /** `check_answer`: empties the entry, scores a point exactly when the
        entry was the printed correct answer, counts the question, and then
        either moves on to the next problem or, after the last one, ends the
        drill. Returns whether the answer was judged correct. */
    method CheckAnswer(op: Operator, x: int, y: int) returns (correct: bool)
      requires Valid() && enabled
      requires DrawInRange(op, x, y)
      modifies this
      ensures Valid()
      ensures correct <==> old(entry) == Text(old(correctAnswer))
      ensures correct <==> Read(old(entry)) == Some(old(correctAnswer))
      ensures score == old(score) + (if correct then 1 else 0)
      ensures questionNumber == old(questionNumber) + 1
      ensures entry == []
      ensures questionNumber < numProblems ==> enabled && problem == Generate(op, x, y)
      ensures questionNumber == numProblems ==> !enabled && problem == old(problem)
    {
      var userAnswer := entry;
      entry := [];
      correct := userAnswer == Text(correctAnswer);
      MatchesIffReadsAs(userAnswer, correctAnswer);
      if correct {
        score := score + 1;
      }
      questionNumber := questionNumber + 1;
      if questionNumber < numProblems {
        GenerateProblem(op, x, y);
      } else {
        EndDrill();
      }
    }

    /** `restart_drill`: from any state, both counters back to zero, input
        enabled and a fresh problem; the entry text is left as it was. */
    method RestartDrill(op: Operator, x: int, y: int)
      requires Valid()
      requires DrawInRange(op, x, y)
      modifies this
      ensures Valid()
      ensures score == 0 && questionNumber == 0 && enabled
      ensures problem == Generate(op, x, y)
      ensures entry == old(entry)
    {
      score := 0;
      questionNumber := 0;
      enabled := true;
      GenerateProblem(op, x, y);
    }
  }

  /** 3 + 4 answered "7" scores a point. */
  method CorrectAnswerExample()
  {
    var app := new MathDrillApp(Add, 3, 4);
    app.AppendToAnswer('7');
    assert app.entry == "7" && app.correctAnswer == Int(7) && Text(Int(7)) == "7";
    var ok := app.CheckAnswer(Mul, 9, 9);
    assert ok && app.score == 1 && app.questionNumber == 1 && app.entry == [];
  }

  /** 4 ÷ 2 answered "2" scores nothing: the answer prints as "2.0". */
  method WrongFormExample()
  {
    var app := new MathDrillApp(Div, 4, 2);
    app.AppendToAnswer('2');
    TextMismatchExamples();
    var ok := app.CheckAnswer(Add, 3, 4);
    assert !ok && app.score == 0 && app.questionNumber == 1;
  }

  /** "C" empties the entry, and a restart mid-drill clears both counters and
      keeps the entry text. */
  method RestartExample()
  {
    var app := new MathDrillApp(Div, 7, 4);
    app.AppendToAnswer('2');
    app.AppendToAnswer('C');
    assert app.entry == [];
    app.AppendToAnswer('5');
    app.RestartDrill(Sub, 3, 40);
    assert app.score == 0 && app.questionNumber == 0 && app.entry == "5";
    assert app.problem == Problem(Sub, 40, 3, Int(37));
  }
}
