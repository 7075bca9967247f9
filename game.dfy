/** The game object: one timed session of fill-in-the-missing-addend
    problems, the screen it shows and the leaderboard it saves to. */
module AdditionGame {
  import opened Options
  import opened Problems
  import opened Decimal
  import opened Input
  import opened Leaderboard

  /** The four screens; exactly one is shown at a time. */
  datatype Screen = StartScreen | GameScreen | ResultScreen | RankingScreen

  /** Length of a session, in clock ticks of one second. */
  const SessionSeconds: int := 60

  /** Points for one correct answer. */
  const PointsPerAnswer: int := 10

  /** The answer buffer holds at most this many digits. */
  const MaxInputLength: nat := 3

  /** Whether a submitted, non-empty buffer answers the problem: its decimal
      value is the hidden addend. Before the first session there is no
      problem, and nothing is correct. */
  predicate IsCorrect(problem: Option<Problem>, input: seq<DigitChar>): (r: bool)
    requires input != []
    ensures problem.None? ==> !r
    ensures problem.Some? && ValidProblem(problem.value) ==>
              (r <==> (if problem.value.hidden == Left then Value(input) + problem.value.b
                       else problem.value.a + Value(input)) == problem.value.c)
  {
    problem.Some? && Value(input) == Answer(problem.value)
  }

  /** The buffers accepted for a problem are exactly its answer written with
      leading zeros to the buffer's length, provided the answer fits. */
  lemma {:induction false} CorrectInputs(p: Problem, input: seq<DigitChar>)
    requires ValidProblem(p) && input != []
    ensures IsCorrect(Some(p), input) <==>
              Answer(p) < Pow10(|input|) && input == Digits(Answer(p), |input|)
  {
    if IsCorrect(Some(p), input) {
      DigitsOfValue(input);
    }
    if Answer(p) < Pow10(|input|) {
      ParsesTo(input, Answer(p));
    }
  }

  class Game {
    var score: int
    var timeLeft: int
    var isPlaying: bool
    /** Whether the one-second interval is scheduled. */
    var timerRunning: bool
    var currentProblem: Option<Problem>
    /** The digits typed so far for the blank. */
    var userInput: seq<DigitChar>
    var screen: Screen
    /** The stored leaderboard. */
    var scores: seq<Entry>

    /** Each field within its range: the score a multiple of the points per
        answer, the clock within the session, the problem valid, the buffer
        no longer than three digits. */
    ghost predicate WellFormed()
      reads this
    {
      0 <= score && score % PointsPerAnswer == 0 &&
      0 <= timeLeft <= SessionSeconds &&
      (currentProblem.Some? ==> ValidProblem(currentProblem.value)) &&
      |userInput| <= MaxInputLength
    }

    /** Between events: the clock runs exactly while a session is on, and a
        session on has time left and a problem posed. */
    ghost predicate Valid()
      reads this
    {
      WellFormed() &&
      timerRunning == isPlaying &&
      (isPlaying ==> 0 < timeLeft && currentProblem.Some?)
    }

    /** A fresh game on the start screen, over the leaderboard found in
        storage. */
    constructor (stored: seq<Entry>)
      ensures Valid()
      ensures score == 0 && timeLeft == SessionSeconds && !isPlaying && !timerRunning
      ensures currentProblem == None && userInput == [] && screen == StartScreen
      ensures scores == stored
    {
      score := 0;
      timeLeft := SessionSeconds;
      isPlaying := false;
      timerRunning := false;
      currentProblem := None;
      userInput := [];
      screen := StartScreen;
      scores := stored;
    }

    /** Poses a freshly generated problem with an empty buffer. */
    method NextProblem(d: Draw)
      requires WellFormed() && ValidDraw(d)
      modifies this
      ensures WellFormed() && (old(Valid()) ==> Valid())
      ensures userInput == [] && currentProblem == Some(Generate(d))
      ensures score == old(score) && timeLeft == old(timeLeft) && isPlaying == old(isPlaying)
      ensures timerRunning == old(timerRunning) && screen == old(screen) && scores == old(scores)
    {
      userInput := [];
      currentProblem := Some(Generate(d));
    }

    /** Begins a session: score 0, a full minute on the clock, an empty
        buffer, the game screen, a first problem and the clock running. */
    method Start(d: Draw)
      requires Valid() && ValidDraw(d)
      modifies this
      ensures Valid()
      ensures score == 0 && timeLeft == SessionSeconds && isPlaying && timerRunning
      ensures userInput == [] && currentProblem == Some(Generate(d))
      ensures screen == GameScreen && scores == old(scores)
    {
      score := 0;
      timeLeft := SessionSeconds;
      isPlaying := true;
      userInput := [];
      screen := GameScreen;
      NextProblem(d);
      timerRunning := true;
    }

    /** Back to the start screen. */
    method Reset()
      requires Valid()
      modifies this
      ensures Valid()
      ensures screen == StartScreen
      ensures score == old(score) && timeLeft == old(timeLeft) && isPlaying == old(isPlaying)
      ensures timerRunning == old(timerRunning) && currentProblem == old(currentProblem)
      ensures userInput == old(userInput) && scores == old(scores)
    {
      screen := StartScreen;
    }

    /** Ends the session: input is no longer accepted, the clock stops and
        the result screen shows the final score. */
    method End()
      requires WellFormed()
      modifies this
      ensures Valid()
      ensures !isPlaying && !timerRunning && screen == ResultScreen
      ensures score == old(score) && timeLeft == old(timeLeft)
      ensures currentProblem == old(currentProblem) && userInput == old(userInput)
      ensures scores == old(scores)
    {
      isPlaying := false;
      timerRunning := false;
      screen := ResultScreen;
    }

    /** One second of the session clock: the time left drops by one, and the
        tick that brings it to zero ends the session. */
    method Tick()
      requires Valid() && timerRunning
      modifies this
      ensures Valid()
      ensures timeLeft == old(timeLeft) - 1
      ensures isPlaying == timerRunning == (timeLeft > 0)
      ensures timeLeft > 0 ==> screen == old(screen)
      ensures timeLeft == 0 ==> screen == ResultScreen
      ensures score == old(score) && currentProblem == old(currentProblem)
      ensures userInput == old(userInput) && scores == old(scores)
    {
      timeLeft := timeLeft - 1;
      if timeLeft <= 0 {
        End();
      }
    }

    /** The clock firing once a second until it is stopped: a running
        session ends after exactly as many ticks as it has seconds left. */
    method RunOut() returns (ticks: nat)
      requires Valid() && isPlaying
      modifies this
      ensures Valid()
      ensures ticks == old(timeLeft)
      ensures !isPlaying && !timerRunning && timeLeft == 0 && screen == ResultScreen
      ensures score == old(score) && currentProblem == old(currentProblem)
      ensures userInput == old(userInput) && scores == old(scores)
    {
      ticks := 0;
      while isPlaying
        invariant Valid()
        invariant timeLeft + ticks == old(timeLeft)
        invariant !isPlaying ==> timeLeft == 0 && screen == ResultScreen
        invariant score == old(score) && currentProblem == old(currentProblem)
        invariant userInput == old(userInput) && scores == old(scores)
        decreases timeLeft
      {
        Tick();
        ticks := ticks + 1;
      }
    }

    /** Submits the buffer. An empty buffer is ignored. A correct answer
        earns the points and poses a new problem; a wrong one only clears
        the buffer, so the same problem stays. */
    method CheckAnswer(d: Draw)
      requires Valid() && ValidDraw(d)
      modifies this
      ensures Valid()
      ensures old(userInput) == [] ==>
                score == old(score) && currentProblem == old(currentProblem) && userInput == []
      ensures old(userInput) != [] && IsCorrect(old(currentProblem), old(userInput)) ==>
                score == old(score) + PointsPerAnswer && userInput == [] &&
                currentProblem == Some(Generate(d))
      ensures old(userInput) != [] && !IsCorrect(old(currentProblem), old(userInput)) ==>
                score == old(score) && currentProblem == old(currentProblem) && userInput == []
      ensures timeLeft == old(timeLeft) && isPlaying == old(isPlaying)
      ensures timerRunning == old(timerRunning) && screen == old(screen) && scores == old(scores)
    {
      if userInput == [] {
        return;
      }
      if IsCorrect(currentProblem, userInput) {
        score := score + PointsPerAnswer;
        NextProblem(d);
      } else {
        userInput := [];
      }
    }

    /** Dispatches one input symbol; nothing happens outside a session.
        Backspace drops the last digit, a digit is appended while the
        buffer has room, Enter submits. */
    method HandleInput(k: Key, d: Draw)
      requires Valid() && ValidDraw(d)
      modifies this
      ensures Valid()
      ensures !old(isPlaying) ==> unchanged(this)
      ensures old(isPlaying) && k == Backspace ==>
                userInput == (if old(userInput) == [] then [] else old(userInput)[..|old(userInput)| - 1])
      ensures old(isPlaying) && k.Digit? ==>
                userInput == (if |old(userInput)| < MaxInputLength then old(userInput) + [k.c]
                              else old(userInput))
      ensures old(isPlaying) && k != Enter ==>
                score == old(score) && currentProblem == old(currentProblem)
      ensures old(isPlaying) && k == Enter && old(userInput) == [] ==>
                score == old(score) && currentProblem == old(currentProblem) && userInput == []
      ensures old(isPlaying) && k == Enter && old(userInput) != [] &&
              IsCorrect(old(currentProblem), old(userInput)) ==>
                score == old(score) + PointsPerAnswer && userInput == [] &&
                currentProblem == Some(Generate(d))
      ensures old(isPlaying) && k == Enter && old(userInput) != [] &&
              !IsCorrect(old(currentProblem), old(userInput)) ==>
                score == old(score) && currentProblem == old(currentProblem) && userInput == []
      ensures timeLeft == old(timeLeft) && isPlaying == old(isPlaying)
      ensures timerRunning == old(timerRunning) && screen == old(screen) && scores == old(scores)
    {
      if !isPlaying {
        return;
      }
      match k
      case Enter =>
        CheckAnswer(d);
      case Backspace =>
        if userInput != [] {
          userInput := userInput[..|userInput| - 1];
        }
      case Digit(c) =>
        if |userInput| < MaxInputLength {
          userInput := userInput + [c];
        }
    }

    /** Shows the leaderboard. */
    method ShowRanking()
      requires Valid()
      modifies this
      ensures Valid()
      ensures screen == RankingScreen
      ensures score == old(score) && timeLeft == old(timeLeft) && isPlaying == old(isPlaying)
      ensures timerRunning == old(timerRunning) && currentProblem == old(currentProblem)
      ensures userInput == old(userInput) && scores == old(scores)
    {
      screen := RankingScreen;
    }

    /** Saves the score under the typed name (or the default name) with the
        given time stamp: the entry joins the board, the board is sorted by
        descending score, the best twenty are stored, and the leaderboard is
        shown. */
    method SaveScore(nameInput: string, date: string)
      requires Valid()
      modifies this
      ensures Valid()
      ensures scores == TopScores(old(scores), Entry(PlayerName(nameInput), old(score), date))
      ensures screen == RankingScreen
      ensures score == old(score) && timeLeft == old(timeLeft) && isPlaying == old(isPlaying)
      ensures timerRunning == old(timerRunning) && currentProblem == old(currentProblem)
      ensures userInput == old(userInput)
    {
      var entry := Entry(PlayerName(nameInput), score, date);
      scores := Save(scores, entry);
      ShowRanking();
    }
  }

  /** The draws that pose ? + 4 = 7. */
  lemma ThreePlusFourDraw()
    ensures ValidDraw(Draw(0.0, 5.0 / 19.0, 1.0 / 3.0))
    ensures Generate(Draw(0.0, 5.0 / 19.0, 1.0 / 3.0)) == Problem(3, 4, 7, Left)
  {
  }

  /** A session on ? + 4 = 7: "4" is wrong and keeps the problem, "3" is
      right and scores; the clock then ends the session after sixty ticks. */
  method SessionScenario(next: Draw)
    requires ValidDraw(next)
  {
    var g := new Game([]);
    ThreePlusFourDraw();
    var d := Draw(0.0, 5.0 / 19.0, 1.0 / 3.0);
    g.Start(d);
    assert g.currentProblem == Some(Problem(3, 4, 7, Left));
    g.HandleInput(Digit('4'), next);
    g.HandleInput(Enter, next);
    assert Value(['4']) == 4;
    assert g.score == 0 && g.userInput == [] && g.currentProblem == Some(Problem(3, 4, 7, Left));
    g.HandleInput(Digit('3'), next);
    g.HandleInput(Enter, next);
    assert Value(['3']) == 3;
    assert g.score == 10 && g.userInput == [];
    var ticks := g.RunOut();
    assert ticks == 60 && !g.isPlaying && g.screen == ResultScreen;
    g.HandleInput(Digit('1'), next);
    assert g.userInput == [] && g.score == 10;
  }
}
