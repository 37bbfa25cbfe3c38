/**
 * The challenge window that must be passed before an entry is unblocked: a
 * random text to memorise and retype, an arithmetic problem to solve, and a
 * countdown after which the window closes as failed. Random choices are
 * nondeterministic choices within the bounds `Random.Next` guarantees;
 * `int.TryParse` is a parsing function given as a parameter.
 */
module Challenge {
  import opened Framework

  /** The alphabet of the random text, in four runs. */
  const Upper: string := "ABCDEFGHIJKLMNOPQRSTUVWXYZ"
  const Lower: string := "abcdefghijklmnopqrstuvwxyz"
  const Digits: string := "0123456789"
  const Symbols: string := "!@#$%^&*()-_=+[]{}|;:',.<>?/"
  const Chars: string := Upper + Lower + Digits + Symbols

  /** Length of the text to memorise. */
  const ChallengeLength: nat := 20

  /** `timeLimit`, in seconds. */
  const TimeLimit: nat := 60

  /** `random.Next(10, 99)` returns an operand in [OperandMin, OperandBound). */
  const OperandMin: int := 10
  const OperandBound: int := 99

  /** A visible ASCII character, from `!` to `~`. */
  predicate IsVisibleAscii(c: char) {
    '!' <= c <= '~'
  }

  /** The alphabet has 90 characters, all of them visible ASCII, so none of them white space. */
  lemma CharsAreVisible()
    ensures |Chars| == 90
    ensures forall c :: c in Chars ==> IsVisibleAscii(c) && !IsWhiteSpace(c)
  {
    UpperAndLowerVisible();
    DigitsAndSymbolsVisible();
  }

  lemma UpperAndLowerVisible()
    ensures forall c :: c in Upper ==> IsVisibleAscii(c)
    ensures forall c :: c in Lower ==> IsVisibleAscii(c)
  {
  }

  lemma DigitsAndSymbolsVisible()
    ensures forall c :: c in Digits ==> IsVisibleAscii(c)
    ensures forall c :: c in Symbols ==> IsVisibleAscii(c)
  {
  }

  /**
   * `GetRandomString(length)`: fills a character array, each position with a
   * character of the alphabet at an index `random.Next(chars.Length)` chooses.
   */
  method GetRandomString(length: nat) returns (s: string)
    ensures |s| == length
    ensures forall i :: 0 <= i < |s| ==> s[i] in Chars
  {
    CharsAreVisible();
    s := FillRandom(Chars, length);
  }

  /** The loop of `GetRandomString`, over the alphabet `chars`. */
  method FillRandom(chars: string, length: nat) returns (s: string)
    requires chars != []
    ensures |s| == length
    ensures forall i :: 0 <= i < |s| ==> s[i] in chars
  {
    var result := new char[length];
    for i := 0 to length
      invariant forall j :: 0 <= j < i ==> result[j] in chars
    {
      var k: int :| 0 <= k < |chars|;
      result[i] := chars[k];
    }
    s := result[..];
  }

  /** A text over the alphabet is its own trim: typing it exactly passes the text check. */
  lemma ChallengeTextTrimsToItself(s: string)
    requires forall i :: 0 <= i < |s| ==> s[i] in Chars
    ensures Trim(s) == s
  {
    CharsAreVisible();
    if s != [] {
      assert s[0] in Chars && s[|s| - 1] in Chars;
      TrimOfTrimmed(s);
    }
  }

  // ---------------------------------------------------------------------------
  // The arithmetic problem

  /** The problem shown to the user: `(num1 × num2) - num3 = ?` */
  datatype MathProblem = MathProblem(num1: int, num2: int, num3: int)

  predicate OperandsInRange(p: MathProblem) {
    OperandMin <= p.num1 < OperandBound && OperandMin <= p.num2 < OperandBound && OperandMin <= p.num3 < OperandBound
  }

  function Answer(p: MathProblem): (answer: int) {
    p.num1 * p.num2 - p.num3
  }

  /** With operands in [10, 98] the answer lies in [2, 9594]. */
  lemma AnswerBounds(p: MathProblem)
    requires OperandsInRange(p)
    ensures 2 <= Answer(p) <= 9594
  {
    var a, b := p.num1, p.num2;
    ProductNonNegative(a - 10, b - 10);
    ProductNonNegative(98 - a, b - 10);
  }

  lemma ProductNonNegative(x: int, y: int)
    requires x >= 0 && y >= 0
    ensures x * y >= 0
  {
  }

  /** Both ends of that range are reached. */
  lemma AnswerBoundsTight()
    ensures OperandsInRange(MathProblem(10, 10, 98)) && Answer(MathProblem(10, 10, 98)) == 2
    ensures OperandsInRange(MathProblem(98, 98, 10)) && Answer(MathProblem(98, 98, 10)) == 9594
  {
  }

  // ---------------------------------------------------------------------------
  // The countdown

  /**
   * The loop of the countdown task. `i` runs from `timeLimit` down to 0, each
   * value displayed for a second, after which the cancellation token is polled.
   * `cancelledAt` numbers the first poll that sees cancellation (0 is the poll
   * after the first second; poll `timeLimit + 1` is the one after the loop); a
   * value beyond that means cancellation is never seen. `timedOut` says whether
   * the time-out action runs.
   */
  method Countdown(timeLimit: nat, cancelledAt: nat) returns (shown: seq<int>, timedOut: bool)
    ensures |shown| == if cancelledAt <= timeLimit then cancelledAt + 1 else timeLimit + 1
    ensures forall k :: 0 <= k < |shown| ==> shown[k] == timeLimit - k
    ensures timedOut <==> cancelledAt > timeLimit + 1
  {
    shown := [];
    var poll := 0;
    var cancelled := false;
    var i := timeLimit as int;
    while i >= 0
      invariant -1 <= i <= timeLimit
      invariant poll == timeLimit - i && poll <= cancelledAt
      invariant |shown| == poll
      invariant forall k :: 0 <= k < |shown| ==> shown[k] == timeLimit - k
      invariant !cancelled
    {
      shown := shown + [i];
      cancelled := poll >= cancelledAt;
      if cancelled {
        break;
      }
      poll := poll + 1;
      i := i - 1;
    }
    if !cancelled {
      poll := poll + 1;
      cancelled := poll > cancelledAt;
    }
    timedOut := !cancelled;
  }

  // ---------------------------------------------------------------------------
  // The window

  /** What a click on the submit button leads to. */
  datatype SubmitResult =
    | WrongText        // the typed text differs: the text box is cleared
    | WrongAnswer      // the answer does not parse or is wrong: the answer box is cleared
    | Passed           // completed; the countdown is cancelled and the window closes
    | NoTokenSource    // completed before the countdown exists: `cts.Cancel()` dereferences null

  class ChallengeWindow {
    var challengeText: string
    var correctAnswer: int
    /** The problem on display; `None` during the memorising phase. */
    var problem: Option<MathProblem>
    var IsChallengeCompleted: bool
    /** Contents of `TypedTextBox` and `MathAnswerTextBox`. */
    var typedBox: string
    var mathBox: string
    /** `cts != null`: the countdown has been started. */
    var countdownStarted: bool
    /** `cts.Cancel()` has been called. */
    var cancelRequested: bool
    var closed: bool

    /** The constructor and `GenerateChallenge` up to its ten-second wait. */
    constructor ()
      ensures |challengeText| == ChallengeLength
      ensures forall i :: 0 <= i < |challengeText| ==> challengeText[i] in Chars
      ensures !IsChallengeCompleted && correctAnswer == 0 && problem == None
      ensures typedBox == "" && mathBox == ""
      ensures !countdownStarted && !cancelRequested && !closed
    {
      var text := GetRandomString(ChallengeLength);
      challengeText := text;
      correctAnswer := 0;
      problem := None;
      IsChallengeCompleted := false;
      typedBox, mathBox := "", "";
      countdownStarted, cancelRequested, closed := false, false, false;
    }

    /**
     * Not a member of the window: the user typing into `TypedTextBox` and
     * `MathAnswerTextBox`, which sets the two boxes' contents.
     */
    method Type(typed: string, answer: string)
      modifies this`typedBox, this`mathBox
      ensures typedBox == typed && mathBox == answer
    {
      typedBox, mathBox := typed, answer;
    }

    /** `GenerateMathProblem`: three operands drawn in [10, 98], the answer `num1 * num2 - num3`. */
    method GenerateMathProblem()
      modifies this`correctAnswer, this`problem
      ensures problem.Some? && OperandsInRange(problem.value)
      ensures correctAnswer == Answer(problem.value)
      ensures 2 <= correctAnswer <= 9594
    {
      var num1: int :| OperandMin <= num1 < OperandBound;
      var num2: int :| OperandMin <= num2 < OperandBound;
      var num3: int :| OperandMin <= num3 < OperandBound;
      problem := Some(MathProblem(num1, num2, num3));
      correctAnswer := (num1 * num2) - num3;
      AnswerBounds(problem.value);
    }

    /** `GenerateChallenge` after its wait: the problem is generated and the countdown starts. */
    method ShowMathProblem()
      modifies this`correctAnswer, this`problem, this`countdownStarted
      ensures problem.Some? && OperandsInRange(problem.value) && correctAnswer == Answer(problem.value)
      ensures countdownStarted
    {
      GenerateMathProblem();
      countdownStarted := true;
    }

    /** `Close()` together with `OnClosed`, which cancels the countdown if there is one. */
    method Close()
      modifies this`closed, this`cancelRequested
      ensures closed
      ensures cancelRequested == (old(cancelRequested) || countdownStarted)
    {
      closed := true;
      if countdownStarted {
        cancelRequested := true;
      }
    }

    /**
     * The countdown task: the loop, then the time-out action, which closes the
     * window and does not touch `IsChallengeCompleted`. A cancellation already
     * requested is seen at the first poll.
     */
    method CountdownTask(cancelledAt: nat) returns (timedOut: bool)
      requires countdownStarted
      requires cancelRequested ==> cancelledAt == 0
      modifies this`closed, this`cancelRequested
      ensures timedOut <==> cancelledAt > TimeLimit + 1
      ensures closed == (old(closed) || timedOut)
      ensures cancelRequested == (old(cancelRequested) || timedOut)
      ensures IsChallengeCompleted == old(IsChallengeCompleted)
    {
      var _, t := Countdown(TimeLimit, cancelledAt);
      timedOut := t;
      if timedOut {
        Close();
      }
    }

    /**
     * `SubmitButton_Click`. The trimmed typed text is compared ordinally with the
     * challenge text first; only if it matches is the trimmed answer parsed and
     * compared with the correct answer. The flag is set only when both match.
     */
    method SubmitButtonClick(parse: string -> Option<int>) returns (result: SubmitResult)
      modifies this
      ensures challengeText == old(challengeText) && correctAnswer == old(correctAnswer) && problem == old(problem)
      ensures countdownStarted == old(countdownStarted)
      ensures var textOk := Trim(old(typedBox)) == challengeText;
        var answerOk := parse(Trim(old(mathBox))) == Some(correctAnswer);
        && IsChallengeCompleted == (old(IsChallengeCompleted) || (textOk && answerOk))
        && (!textOk ==>
              result == WrongText && typedBox == "" && mathBox == old(mathBox)
              && closed == old(closed) && cancelRequested == old(cancelRequested))
        && (textOk && !answerOk ==>
              result == WrongAnswer && mathBox == "" && typedBox == old(typedBox)
              && closed == old(closed) && cancelRequested == old(cancelRequested))
        && (textOk && answerOk ==>
              typedBox == old(typedBox) && mathBox == old(mathBox)
              && (countdownStarted ==> result == Passed && cancelRequested && closed)
              && (!countdownStarted ==>
                    result == NoTokenSource && closed == old(closed) && cancelRequested == old(cancelRequested)))
    {
      var typedText := Trim(typedBox);
      if typedText != challengeText {
        typedBox := "";
        return WrongText;
      }
      var userAnswer := parse(Trim(mathBox));
      if userAnswer.None? || userAnswer.value != correctAnswer {
        mathBox := "";
        return WrongAnswer;
      }
      IsChallengeCompleted := true;
      if !countdownStarted {
        return NoTokenSource;
      }
      cancelRequested := true;
      Close();
      result := Passed;
    }
  }
}
