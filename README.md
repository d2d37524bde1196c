# Arithmetic drill: problem generation and session state

A model of the core of `Arithmeti_Drill.py`, a desktop quiz that asks ten
arithmetic problems in a row, takes the answer from an on-screen keypad, and
keeps a score. Two parts of the program are modelled and proved here.

- **Problem generation** (`generate_problem`), in module `Problems`
  (`problem_generator.dfy`). The random operator and the two `randint` draws
  are parameters. `DrawInRange` states their ranges: [0, 49] for + and -,
  [1, 12] for × and ÷. Subtraction swaps the draws so the larger comes first.
  Multiplication is the integer product. Division is `round(a / b, 2)`, kept
  exactly as a whole number of hundredths. The quotient is rounded to the
  nearest hundredth. A quotient exactly half-way between two hundredths goes
  to the even one. With these operands that only happens for a / 8 with a odd
  (0.125 → 0.12, 0.375 → 0.38). Those values are exact binary floats, so
  Python's `round` rounds them half to even.
- **The printed answer** (`str(self.correct_answer)`), in module
  `AnswerText` (`answer_text.dfy`). The entry is compared with this text, so
  an int answer must be typed as "7" and a float answer as "2.0", "1.5" or
  "0.33". `Text` renders an answer. `Read` recognises exactly the texts `Text`
  produces. The two round-trip lemmas turn "the entry equals the printed
  answer" into "the entry reads back as the correct answer".
- **The drill session** (`check_answer`, `append_to_answer`, `end_drill`,
  `restart_drill`), in module `Drill` (`drill_session.dfy`). This is class
  `MathDrillApp`, with these fields:
  - `score` and `questionNumber`;
  - the constant `numProblems` (10);
  - the current problem and its correct answer;
  - the entry text;
  - one `enabled` flag for the answer entry and the Submit button.

  `Valid()` is the session invariant:
  - 0 ≤ score ≤ questionNumber ≤ numProblems;
  - input is enabled exactly while questionNumber < numProblems;
  - the entry is empty while input is disabled;
  - the stored answer is the correct answer of the current problem.

  The constructor establishes it, and `AppendToAnswer`, `CheckAnswer` and
  `RestartDrill` keep it. `EndDrill` and `GenerateProblem` are steps inside
  `CheckAnswer` and `RestartDrill`; on their own they neither require nor
  ensure it.

Modelling choices:

- `CheckAnswer` requires `enabled`, because a disabled tkinter Button never
  runs its command. `AppendToAnswer` has no such precondition: the keypad
  buttons are never disabled. It leaves the entry unchanged while input is
  disabled, as a disabled Entry ignores insert and delete.
- A keypad key is one character. All twelve button labels are one character
  long.
- `CheckAnswer` returns whether the answer was judged correct. The source
  shows this only in a message box.

## Behaviour worth noting

- Answers are compared only as text; no number is parsed. So "2" is wrong
  for 4 ÷ 2 (printed "2.0") and "7.0" is wrong for 3 + 4 (printed "7").
- `restart_drill` keeps the entry text. A restart in the middle of a drill
  keeps whatever was typed.
- `round` sends a quotient exactly half-way between two hundredths to the
  even hundredth.

## Model

| member | source | states |
|---|---|---|
| `Problems.Generate` | Arithmeti_Drill.py:75-98 | the generated problem has the chosen operator, operands in that operator's range and a correct answer (`Correct`); its operands are the two draws, swapped only for subtraction |
| `Problems.DivisionHundredths` | Arithmeti_Drill.py:95 | `round(operand1 / operand2, 2)` in hundredths: a / b rounded to the nearest hundredth, ties to the even one (its ensures, through `RoundHalfEven`); `DivisionWithinHalfHundredth` gives the same in real numbers |
| `Problems.RoundHalfEven` | Arithmeti_Drill.py:95 | the result is within half a unit of n / d, strictly unless it is even (round half to even) |
| `Problems.RoundHalfEvenUnique` | Arithmeti_Drill.py:95 | any k within half a unit of n / d, and even on a tie, is the value `RoundHalfEven` returns, so the rounded value is unique |
| `Problems.DivisionWithinHalfHundredth` | Arithmeti_Drill.py:95 | as real numbers, the division answer in hundredths / 100 is within 0.005 of a / b |
| `Problems.TiesOnlyAtEighths` | Arithmeti_Drill.py:93-95 | for operands in [1, 12], a / b is exactly half-way between two hundredths iff b = 8 and a is odd |
| `Problems.CorrectIsGenerated` | Arithmeti_Drill.py:78-95 | every problem that satisfies `Correct` is what `Generate` returns for its own operands (and, for subtraction, for the swapped ones too) |
| `Problems.AnswerBounds` | Arithmeti_Drill.py:78-95 | answers lie in [0, 98] for +, [0, 49] for -, [1, 144] for ×, and [0.08, 12.00] for ÷ |
| `Problems.DivisionBounds` | Arithmeti_Drill.py:93-95 | a quotient of operands in [1, 12], rounded to hundredths, lies between 8 and 1200 hundredths |
| `Problems.DivisionTieExamples` | Arithmeti_Drill.py:95 | 1/8, 3/8, 5/8 and 7/8 give 0.12, 0.38, 0.62 and 0.88 |
| `Problems.DivisionNearestExamples` | Arithmeti_Drill.py:95 | 1/3, 2/3, 7/4, 1/12 and 12/1 give 0.33, 0.67, 1.75, 0.08 and 12.00 |
| `AnswerText.FractionTextExamples` | Arithmeti_Drill.py:121 | the floats 0.12, 0.08 and 0.5 print as "0.12", "0.08" and "0.5" |
| `AnswerText.FloatTextExamples` | Arithmeti_Drill.py:121 | the floats 1.75, 1.5 and 2.0 print as "1.75", "1.5" and "2.0" |
| `Problems.TextMismatchExamples` | Arithmeti_Drill.py:121 | 4 ÷ 2 prints as "2.0", not "2"; 3 + 4 prints as "7", not "7.0"; 9 × 9 prints as "81" |
| `AnswerText.NatText` | Arithmeti_Drill.py:121 | `str` of a non-negative int: a non-empty string of digits; `NatTextIsNumeral` and `NumeralIsNatText` prove it is the numeral, without leading zero, that denotes the int |
| `AnswerText.FractionText` | Arithmeti_Drill.py:121 | the fraction digits of a printed float: one or two digits, trailing zero dropped; `ReadFractionText` proves they read back as the hundredths |
| `AnswerText.Text` | Arithmeti_Drill.py:121 | `str(self.correct_answer)`: only a float prints with a point; `ReadText`, `TextRead` and `TextInjective` prove that the text determines the answer and is read back exactly |
| `AnswerText.NatTextIsNumeral` | Arithmeti_Drill.py:121 | `str` of a non-negative int is a decimal numeral with no leading zero, and it denotes that int |
| `AnswerText.NumeralIsNatText` | Arithmeti_Drill.py:121 | every decimal numeral with no leading zero is `str` of the number it denotes |
| `AnswerText.ReadText` | Arithmeti_Drill.py:121 | reading the printed form of any answer gives that answer back |
| `AnswerText.TextRead` | Arithmeti_Drill.py:121 | any text `Read` accepts is exactly the printed form of the answer it returns |
| `AnswerText.MatchesIffReadsAs` | Arithmeti_Drill.py:121 | an entry equals the printed answer iff it reads back as that answer |
| `AnswerText.TextInjective` | Arithmeti_Drill.py:121 | two answers that print alike are equal (an int never prints like a float) |
| `Drill.MathDrillApp.constructor` | Arithmeti_Drill.py:6-18 | a new session has score 0, question 0, input enabled, an empty entry and the generated first problem; it satisfies the session invariant |
| `Drill.MathDrillApp.GenerateProblem` | Arithmeti_Drill.py:70-98 | the current problem becomes `Generate` of the draws, the stored answer becomes its answer, and no other field changes |
| `Drill.MathDrillApp.AppendToAnswer` | Arithmeti_Drill.py:102-111 | "C" empties the entry; any other key is appended as one character after the unchanged old text; nothing changes while input is disabled; the invariant is kept |
| `Drill.MathDrillApp.EndDrill` | Arithmeti_Drill.py:135-142 | input (entry and Submit) becomes disabled |
| `Drill.MathDrillApp.CheckAnswer` | Arithmeti_Drill.py:113-133 | question +1 always; score +1 exactly when the entry equals the printed correct answer (equivalently, reads back as it); the entry is emptied; below `numProblems` input stays enabled with a new problem, at `numProblems` input is disabled and the problem is kept; the invariant is kept |
| `Drill.MathDrillApp.RestartDrill` | Arithmeti_Drill.py:144-155 | from any valid state: score 0, question 0, input enabled, a new generated problem, the entry text unchanged; the invariant is kept |

`AnswerText.Read` has no counterpart in the program. It is a reference
reader, used only to state the round trip of `Text`.

`CorrectAnswerExample`, `WrongFormExample` and `RestartExample` in `Drill` are
client methods. They replay short sessions against the class contracts: 3 + 4
answered "7" scores, 4 ÷ 2 answered "2" does not, "C" clears the entry, and a
restart keeps the entry text.

## Left out

- Widget construction, layout, colours and fonts (`create_widgets`) are GUI
  plumbing.
- Label updates, the message boxes, the Exit button and `mainloop` are
  presentation only. So are the score texts ("Score: 0/10" at start,
  "Score: 0/0" after a restart).
- The problem's display string (`current_problem`) is left out. The model
  keeps the operator and the operands it is built from.
- The `random` module is left out. The operator and the two draws are
  parameters, constrained by `DrawInRange`.
- Floating point and Python's float `repr` are left out. A division answer is
  exact integer hundredths, and `Text` prints it the way `str` prints those
  floats (a rounded quotient from 0.08 to 12.0, so never in exponent form).
  The model does not derive the nearest double itself. Quotients that are not
  ties lie at least 1/2400 from a tie, far beyond the error of a double, and
  the ties are exact doubles.
- The unused fields `max_add_sub` and `max_mul` are left out. The ranges are
  hard-coded in `generate_problem`.
- The unused local `current_answer` in `append_to_answer` is left out.
- Drill.MathDrillApp.CheckAnswer: a call while input is disabled is excluded
  by its precondition. The Submit button is disabled then, so the source
  cannot make that call.
- The entry is an ordinary text field, so the physical keyboard can also
  edit it, for example by inserting at the cursor. Only keypad appends and
  clears are modelled; `CheckAnswer` is proved for any entry text.
- Tkinter itself is left out. Only the disabled state is modelled, as a guard
  on the entry text.
