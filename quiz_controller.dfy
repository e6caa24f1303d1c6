/**
 * quizApp.QuizController without its widgets: the fields the handlers update,
 * the enabled state of the start, next and answer buttons, the style mark of
 * each answer button, the texts shown on the answer buttons, the question
 * label and the timer label.
 *
 * The JavaFX Timeline is a `running` flag; each of its one-second key frames is
 * a call of Tick. disableAnswerButtons always sets the four answer buttons
 * alike, so one flag stands for all four.
 */
module QuizControl {
  import opened JavaText
  import opened CsvIngest
  import opened QuizQuestion

  /** Total quiz time, in seconds. */
  const QuizSeconds: int := 60

  /** Number of answer buttons (A to D). */
  const OptionCount: nat := 4

  /** The style of an answer button: none, or one of the three background colours. */
  datatype Mark = Unstyled | Green | Red | Blue

  /** What the question label shows. */
  datatype Prompt =
    | Initial
    | FileLoaded
    | NoValidQuestions
    | LoadError
    | Showing(number: int, text: string)
    | QuizOver(score: int, total: int)

  const NoMarks: seq<Mark> := [Unstyled, Unstyled, Unstyled, Unstyled]

  // ---------------------------------------------------------------------------
  // formatTime
  // ---------------------------------------------------------------------------

  /** formatTime: minutes and seconds (Java int / and %), each as %02d, joined by ':'. */
  function FormatTime(seconds: int): string
  {
    Pad2(JavaDiv(seconds, 60)) + ":" + Pad2(JavaRem(seconds, 60))
  }

  /** Reads an "MM:SS" clock back as a number of seconds. */
  function ClockSeconds(clock: string): int
    requires |clock| == 5
    requires forall k :: 0 <= k < 5 && k != 2 ==> '0' <= clock[k] <= '9'
  {
    DigitsValue(clock[..2]) * 60 + DigitsValue(clock[3..])
  }

  /** For a non-negative count, Java's / and % are the usual quotient and remainder. */
  lemma MinutesAndSeconds(seconds: int)
    requires seconds >= 0
    ensures JavaDiv(seconds, 60) == seconds / 60 && JavaRem(seconds, 60) == seconds % 60
    ensures JavaDiv(seconds, 60) * 60 + JavaRem(seconds, 60) == seconds
    ensures 0 <= JavaRem(seconds, 60) < 60
  {
  }

  lemma Pad2TwoDigits(n: int)
    requires 0 <= n < 100
    ensures |Pad2(n)| == 2
    ensures forall k :: 0 <= k < 2 ==> '0' <= Pad2(n)[k] <= '9'
    ensures DigitsValue(Pad2(n)) == n
  {
    DigitsRoundTrip(n);
    var p := Pad2(n);
    if n < 10 {
      assert p[..1] == "0";
      assert DigitsValue(p[..1]) == 0 by {
        assert p[..1][..0] == [];
      }
    }
  }

  /**
   * Below 100 minutes formatTime gives a five-character "MM:SS" clock, zero
   * padded, that reads back as the number it was given.
   */
  lemma FormatTimeIsClock(seconds: int)
    requires 0 <= seconds < 6000
    ensures var r := FormatTime(seconds);
            |r| == 5 && r[2] == ':'
            && (forall k :: 0 <= k < 5 && k != 2 ==> '0' <= r[k] <= '9')
            && ClockSeconds(r) == seconds
            && DigitsValue(r[3..]) < 60
  {
    MinutesAndSeconds(seconds);
    var m, s := JavaDiv(seconds, 60), JavaRem(seconds, 60);
    Pad2TwoDigits(m);
    Pad2TwoDigits(s);
    var r := FormatTime(seconds);
    assert r[..2] == Pad2(m);
    assert r[3..] == Pad2(s);
  }

  /** The label at the start: a full minute. */
  lemma FormatTimeFullMinute()
    ensures FormatTime(60) == "01:00"
  {
    FormatMinutesSeconds(60, 1, 0);
    assert Pad2(1) == "01" && Pad2(0) == "00";
  }

  /** The label after the first tick. */
  lemma FormatTimeLastSecondOfMinute()
    ensures FormatTime(59) == "00:59"
  {
    FormatMinutesSeconds(59, 0, 59);
    assert Pad2(59) == "59" by {
      assert Digits(59) == Digits(5) + [DigitChar(9)];
    }
  }

  /** The label when time runs out. */
  lemma FormatTimeZero()
    ensures FormatTime(0) == "00:00"
  {
    FormatMinutesSeconds(0, 0, 0);
  }

  lemma FormatMinutesSeconds(seconds: int, m: int, s: int)
    requires seconds >= 0 && m == seconds / 60 && s == seconds % 60
    ensures FormatTime(seconds) == Pad2(m) + ":" + Pad2(s)
  {
    MinutesAndSeconds(seconds);
  }

  // ---------------------------------------------------------------------------
  // The controller
  // ---------------------------------------------------------------------------

  /**
   * The try block of loadQuestionsFromCSV: skip the header line, then build a
   * question from every data line of six tokens, in file order, until the end
   * of the stream or an IOException, which the caller catches. The rows read
   * before the exception are kept.
   */
  method ReadQuestions(file: TextFile) returns (loaded: seq<Question>, ioError: bool)
    ensures loaded == QuestionsOf(LinesRead(file))
    ensures ioError == ReadFails(file)
  {
    ghost var data := DataLines(file);
    loaded := [];
    var header := ReadLine(file, 0);
    if header.IoError? {
      HeaderReadFails(file);
      return loaded, true;
    }
    var c := 1;
    var line := ReadLine(file, c);
    while line.Line?
      invariant 1 <= c <= |data| + 1
      invariant line == ReadLine(file, c)
      invariant file.failingRead.Some? ==> file.failingRead.value >= c
      invariant loaded == QuestionsOf(data[..c - 1])
      decreases |data| + 1 - c
    {
      ReadAdvances(file, c);
      var tokens := Split(line.text);
      QuestionsOfSnoc(data[..c - 1], line.text);
      if |tokens| == Columns {
        loaded := loaded + [QuestionOf(tokens)];
      }
      c := c + 1;
      line := ReadLine(file, c);
    }
    StopReading(file, c);
    ioError := line.IoError?;
  }

  class QuizController {
    var questions: seq<Question>
    var currentQuestionIndex: int
    var score: int
    var answered: bool
    var timeRemaining: int
    /** Whether the Timeline is playing. */
    var running: bool
    /** Number of key frames since the last start. */
    ghost var ticks: nat

    var startDisabled: bool
    var nextDisabled: bool
    var answersDisabled: bool
    /** The texts on the four answer buttons. */
    var optionTexts: seq<string>
    /** The style of the four answer buttons. */
    var marks: seq<Mark>
    var prompt: Prompt
    var timerText: string

    /**
     * The controller's invariant: the score never exceeds the questions
     * answered so far, the timer has at most 60 ticks per start, and it plays
     * only while the start button is disabled.
     */
    ghost predicate Valid()
      reads this
    {
      && |optionTexts| == OptionCount
      && |marks| == OptionCount
      && 0 <= currentQuestionIndex
      && 0 <= score <= currentQuestionIndex + (if answered then 1 else 0)
      && 0 <= timeRemaining
      && ticks + timeRemaining == QuizSeconds
      && (running ==> 1 <= timeRemaining && startDisabled)
    }

    /** Field initialisers followed by initialize(); the FXML button texts are a parameter. */
    constructor (buttonTexts: seq<string>)
      requires |buttonTexts| == OptionCount
      ensures Valid()
      ensures questions == [] && currentQuestionIndex == 0 && score == 0 && !answered
      ensures timeRemaining == QuizSeconds && !running
      ensures answersDisabled && nextDisabled && startDisabled
      ensures optionTexts == buttonTexts && marks == NoMarks
      ensures prompt == Initial && timerText == "00:00"
    {
      questions := [];
      currentQuestionIndex := 0;
      score := 0;
      answered := false;
      timeRemaining := QuizSeconds;
      running := false;
      ticks := 0;
      optionTexts := buttonTexts;
      marks := NoMarks;
      prompt := Initial;
      answersDisabled := true;
      nextDisabled := true;
      startDisabled := true;
      timerText := "00:00";
    }

    /**
     * loadQuestionsFromCSV: the list is emptied, then one question per data line
     * of six tokens is appended, in file order. Only a load that reads to the end
     * and finds a question enables start; neither an empty result nor an
     * IOException touches the start button, and rows read before an
     * IOException stay loaded.
     */
    method LoadQuestionsFromCsv(file: TextFile)
      requires Valid() && !running
      modifies this
      ensures Valid()
      ensures questions == QuestionsOf(LinesRead(file))
      ensures startDisabled == if !ReadFails(file) && questions != [] then false else old(startDisabled)
      ensures prompt == if ReadFails(file) then LoadError
                        else if questions != [] then FileLoaded
                        else NoValidQuestions
      ensures (currentQuestionIndex, score, answered, timeRemaining, running, ticks)
           == old((currentQuestionIndex, score, answered, timeRemaining, running, ticks))
      ensures (nextDisabled, answersDisabled, optionTexts, marks, timerText)
           == old((nextDisabled, answersDisabled, optionTexts, marks, timerText))
    {
      questions := [];
      var loaded, ioError := ReadQuestions(file);
      questions := loaded;
      if ioError {
        prompt := LoadError;
        return;
      }
      if questions != [] {
        startDisabled := false;
        prompt := FileLoaded;
      } else {
        prompt := NoValidQuestions;
      }
    }

    /**
     * handleStartQuiz. The score, index and clock are reset and the timer starts;
     * showQuestion then shows question 1, or, with no questions, runs endQuiz,
     * which stops the timer. Either way the handler then enables the answer
     * buttons and disables start and next.
     */
    method HandleStartQuiz()
      requires Valid() && !running
      modifies this
      ensures Valid()
      ensures score == 0 && currentQuestionIndex == 0 && timeRemaining == QuizSeconds && ticks == 0
      ensures !answersDisabled && startDisabled && nextDisabled
      ensures (questions, marks, timerText) == old((questions, marks, timerText))
      ensures questions != [] ==>
                && running && !answered
                && optionTexts == Options(questions[0])
                && prompt == Showing(1, questions[0].questionText)
      ensures questions == [] ==>
                && !running && answered == old(answered)
                && optionTexts == old(optionTexts)
                && prompt == QuizOver(0, 0)
    {
      score := 0;
      currentQuestionIndex := 0;
      timeRemaining := QuizSeconds;
      StartTimer();
      ShowQuestion();
      DisableAnswerButtons(false);
      startDisabled := true;
      nextDisabled := true;
    }

    /** showQuestion: the current question if there is one, otherwise endQuiz. */
    method ShowQuestion()
      requires |optionTexts| == OptionCount && 0 <= currentQuestionIndex
      modifies this`prompt, this`optionTexts, this`answered, this`nextDisabled,
               this`answersDisabled, this`startDisabled, this`running
      ensures |optionTexts| == OptionCount
      ensures if currentQuestionIndex < |questions| then
                var q := questions[currentQuestionIndex];
                && prompt == Showing(currentQuestionIndex + 1, q.questionText)
                && optionTexts == Options(q)
                && !answered && nextDisabled
                && (answersDisabled, startDisabled, running) == old((answersDisabled, startDisabled, running))
              else
                && answersDisabled && nextDisabled && !startDisabled && !running
                && prompt == QuizOver(score, |questions|)
                && (optionTexts, answered) == old((optionTexts, answered))
    {
      if currentQuestionIndex < |questions| {
        var q := questions[currentQuestionIndex];
        prompt := Showing(currentQuestionIndex + 1, q.questionText);
        optionTexts := Options(q);
        answered := false;
        nextDisabled := true;
      } else {
        EndQuiz();
      }
    }

    /**
     * handleAnswerSelected for the button at `option` (0 to 3 for A to D). A
     * second answer to the same question changes nothing. Otherwise the score
     * rises by one exactly when the button's text equals the correct answer
     * ignoring case; the chosen button turns green or red and then every button
     * whose text matches the answer turns blue, so a correct choice ends blue.
     * The buttons lock and next is enabled. With no question at the current
     * index, questions.get throws before anything changes: `thrown`.
     */
    method HandleAnswerSelected(option: nat) returns (thrown: bool)
      requires Valid() && option < OptionCount
      modifies this
      ensures Valid()
      ensures thrown <==> !old(answered) && old(currentQuestionIndex) >= |old(questions)|
      ensures old(answered) || thrown ==> unchanged(this)
      ensures (questions, currentQuestionIndex, optionTexts, timeRemaining, running, ticks)
           == old((questions, currentQuestionIndex, optionTexts, timeRemaining, running, ticks))
      ensures (startDisabled, prompt, timerText) == old((startDisabled, prompt, timerText))
      ensures !old(answered) && !thrown ==>
                var correct := questions[currentQuestionIndex].correctAnswer;
                var hit := EqualsIgnoreCase(optionTexts[option], correct);
                && score == old(score) + (if hit then 1 else 0)
                && answered && answersDisabled && !nextDisabled
                && marks[option] == (if hit then Blue else Red)
                && (forall k :: 0 <= k < OptionCount && k != option ==>
                      marks[k] == if EqualsIgnoreCase(optionTexts[k], correct) then Blue else old(marks[k]))
      ensures old(score) <= |questions| ==> score <= |questions|
    {
      if answered {
        return false;
      }
      if currentQuestionIndex >= |questions| {
        return true;
      }
      thrown := false;
      var selected := optionTexts[option];
      var correct := questions[currentQuestionIndex].correctAnswer;
      if EqualsIgnoreCase(selected, correct) {
        score := score + 1;
        marks := marks[option := Green];
      } else {
        marks := marks[option := Red];
      }
      HighlightCorrectAnswer(correct);
      answered := true;
      DisableAnswerButtons(true);
      nextDisabled := false;
    }

    /** highlightCorrectAnswer: every button whose text matches the answer turns blue. */
    method HighlightCorrectAnswer(correct: string)
      requires |marks| == OptionCount && |optionTexts| == OptionCount
      modifies this`marks
      ensures |marks| == OptionCount
      ensures forall k :: 0 <= k < OptionCount ==>
                marks[k] == if EqualsIgnoreCase(optionTexts[k], correct) then Blue else old(marks[k])
    {
      for i := 0 to OptionCount
        invariant |marks| == OptionCount
        invariant forall k :: 0 <= k < i ==>
                    marks[k] == if EqualsIgnoreCase(optionTexts[k], correct) then Blue else old(marks[k])
        invariant forall k :: i <= k < OptionCount ==> marks[k] == old(marks[k])
      {
        if EqualsIgnoreCase(optionTexts[i], correct) {
          marks := marks[i := Blue];
        }
      }
    }

    /** resetButtonStyles: every button loses its mark. */
    method ResetButtonStyles()
      requires |marks| == OptionCount
      modifies this`marks
      ensures marks == NoMarks
    {
      for i := 0 to OptionCount
        invariant |marks| == OptionCount
        invariant forall k :: 0 <= k < i ==> marks[k] == Unstyled
      {
        marks := marks[i := Unstyled];
      }
    }

    /**
     * handleNextQuestion: the marks are cleared, the index moves on by one and the
     * answer buttons are enabled; then the next question is shown, or the quiz
     * ends when there is none.
     */
    method HandleNextQuestion()
      requires Valid()
      modifies this
      ensures Valid()
      ensures currentQuestionIndex == old(currentQuestionIndex) + 1
      ensures marks == NoMarks
      ensures (questions, score, timeRemaining, ticks, timerText) == old((questions, score, timeRemaining, ticks, timerText))
      ensures if currentQuestionIndex < |questions| then
                var q := questions[currentQuestionIndex];
                && !answered && nextDisabled && !answersDisabled
                && optionTexts == Options(q)
                && prompt == Showing(currentQuestionIndex + 1, q.questionText)
                && (running, startDisabled) == old((running, startDisabled))
              else
                && answersDisabled && nextDisabled && !startDisabled && !running
                && prompt == QuizOver(score, |questions|)
                && (answered, optionTexts) == old((answered, optionTexts))
    {
      ResetButtonStyles();
      currentQuestionIndex := currentQuestionIndex + 1;
      DisableAnswerButtons(false);
      ShowQuestion();
    }

    /**
     * One key frame of the timer: a second less, shown on the timer label; at
     * zero the timer stops and the quiz ends, whatever question is showing.
     * Since a start sets 60 and the timer only plays while time is left, at
     * most 60 ticks follow a start.
     */
    method Tick()
      requires Valid() && running
      modifies this
      ensures Valid()
      ensures timeRemaining == old(timeRemaining) - 1 && ticks == old(ticks) + 1 <= QuizSeconds
      ensures timerText == FormatTime(timeRemaining)
      ensures running <==> timeRemaining > 0
      ensures (questions, score, currentQuestionIndex, answered, optionTexts, marks)
           == old((questions, score, currentQuestionIndex, answered, optionTexts, marks))
      ensures if timeRemaining <= 0 then
                && answersDisabled && nextDisabled && !startDisabled
                && prompt == QuizOver(score, |questions|)
              else
                (answersDisabled, nextDisabled, startDisabled, prompt)
                == old((answersDisabled, nextDisabled, startDisabled, prompt))
    {
      timeRemaining := timeRemaining - 1;
      ticks := ticks + 1;
      timerText := FormatTime(timeRemaining);
      if timeRemaining <= 0 {
        running := false;
        EndQuiz();
      }
    }

    /**
     * endQuiz: answer and next buttons disabled, start enabled, timer stopped;
     * the score and the index are left as they are and shown with the total.
     */
    method EndQuiz()
      modifies this`answersDisabled, this`nextDisabled, this`startDisabled, this`running, this`prompt
      ensures answersDisabled && nextDisabled && !startDisabled && !running
      ensures prompt == QuizOver(score, |questions|)
    {
      DisableAnswerButtons(true);
      nextDisabled := true;
      startDisabled := false;
      running := false;
      prompt := QuizOver(score, |questions|);
    }

    /**
     * startTimer: a new Timeline of one-second key frames starts playing; none
     * of its key frames has run yet.
     */
    method StartTimer()
      modifies this`running, this`ticks
      ensures running && ticks == 0
    {
      running := true;
      ticks := 0;
    }

    /** disableAnswerButtons: the four answer buttons are set alike. */
    method DisableAnswerButtons(disable: bool)
      modifies this`answersDisabled
      ensures answersDisabled == disable
    {
      answersDisabled := disable;
    }
  }
}
