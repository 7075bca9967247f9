# Fill-in-addition: a Dafny model of the game core

The game poses addition facts A + B = C with one addend blanked out. The
player types the missing number on a keypad or keyboard and submits it.
Each correct answer is worth 10 points, and a session lasts 60 one-second
ticks. At the end the player may save their score under a name, to a
leaderboard that keeps the best 20 results, highest score first.

All of this lives in one class, `Game`, in `fill-in-addition/script.js`.
The model keeps its logic and leaves out the page it draws on:

- `Problems` is the problem generator: the three random draws become a
  `Draw` parameter.
- `Decimal` covers the digit strings in the answer buffer and their decimal
  value, which is what `parseInt(…, 10)` computes on them.
- `Input` holds the three input symbols (digit, Backspace, Enter) and the
  keyboard filter.
- `Leaderboard` has the score entries, name trimming with its default name,
  the stable sort by descending score (an in-place insertion sort on an
  array) and the cut to 20 entries.
- `AdditionGame.Game` is the class with the fields the source updates:
  score, time left, the playing flag, the timer, the current problem, the
  input buffer, the visible screen and the stored leaderboard. Each event
  handler is a method, and the timer callback is `Tick`.

`Game.Valid()` is the invariant every method keeps:

- the score is a non-negative multiple of 10;
- the time left stays in 0..60;
- the clock runs exactly while a session is on;
- a running session has time left and a valid problem;
- the buffer holds at most three digits.

## Model

| member | source | states |
|---|---|---|
| Problems.Generate | fill-in-addition/script.js:221-233 | every problem built from draws in [0,1) has a + b = c, a >= 1, b >= 1 and 2 <= c <= 20 |
| Problems.GenerateReachesAll | fill-in-addition/script.js:223-226 | every valid problem, with either side hidden, is produced by some draws, so the generator is onto the valid problems |
| Problems.Answer | fill-in-addition/script.js:268-274 | the expected answer is a when the left addend is hidden, else b; for a valid problem it is in 1..19 and is the number that completes the equation |
| Decimal.Value | fill-in-addition/script.js:267 | a non-empty digit string denotes a number below 10 to the power of its length |
| Decimal.ValueOfDigits | fill-in-addition/script.js:267 | padding a number that fits to the width with zeros, then parsing it, gives the number back |
| Decimal.DigitsOfValue | fill-in-addition/script.js:267 | parsing a digit string and padding the result back to the same width gives the string back |
| Decimal.ParsesTo | fill-in-addition/script.js:267 | a string parses to v exactly when it is v zero-padded to the string's length |
| Decimal.LeadingZero | fill-in-addition/script.js:267 | a leading zero does not change the parsed value ("07" and "7" both denote 7) |
| Input.FromKeyboard | fill-in-addition/script.js:62-70 | a key yields a symbol only if the source's filter (string comparison with "0" and "9", or Backspace/Enter) accepts it; for one-character keys exactly then; Enter and Backspace map to their symbols, and a digit key to its own character |
| Input.AcceptedKeyStartsWithDigit | fill-in-addition/script.js:66 | any key name the filter lets through, other than Backspace and Enter, starts with a decimal digit, and one starting with 9 is "9" itself |
| AdditionGame.IsCorrect | fill-in-addition/script.js:267-276 | on a valid problem, the buffer is accepted exactly when its decimal value completes the equation in the blank's place; with no problem posed nothing is accepted |
| AdditionGame.CorrectInputs | fill-in-addition/script.js:264-276 | a buffer is accepted exactly when the answer fits its length and the buffer is the answer zero-padded to that length |
| Leaderboard.TrimStart | fill-in-addition/script.js:136 | the result is a suffix of the input, everything removed is white space, and it does not start with white space |
| Leaderboard.TrimEnd | fill-in-addition/script.js:136 | the result is a prefix of the input, everything removed is white space, and it does not end with white space |
| Leaderboard.Trim | fill-in-addition/script.js:136 | the trimmed name is empty exactly when the input is all white space, and otherwise has no white space at either end |
| Leaderboard.TrimCutsOnlyWhiteSpace | fill-in-addition/script.js:136 | the trimmed name is one contiguous stretch of the input, and everything cut off before and after it is white space |
| Leaderboard.PlayerName | fill-in-addition/script.js:136 | the recorded name is never empty: the default name when the input is blank or white space, otherwise the trimmed input |
| Leaderboard.SortDescSorted | fill-in-addition/script.js:143 | the sort puts the entries in descending order of score |
| Leaderboard.SortDescPermutes | fill-in-addition/script.js:143 | the sort neither adds nor drops entries: the multiset of entries is unchanged |
| Leaderboard.SortDescStable | fill-in-addition/script.js:143 | the sort is stable: for every score, the entries with that score keep their relative order |
| Leaderboard.SortDescOfSorted | fill-in-addition/script.js:143 | an already sorted board is left exactly as it is |
| Leaderboard.SortByScoreDesc | fill-in-addition/script.js:143 | the in-place sort leaves the array equal to the stable descending sort of its old contents |
| Leaderboard.Save | fill-in-addition/script.js:139-146 | pushing the entry, sorting the array in place and keeping the first 20 gives exactly TopScores of the old board and the entry |
| Leaderboard.TopScores | fill-in-addition/script.js:139-146 | after a save the board holds min(old length + 1, 20) entries |
| Leaderboard.TopScoresSorted | fill-in-addition/script.js:139-146 | the saved board is sorted by descending score |
| Leaderboard.TopScoresKeepsBest | fill-in-addition/script.js:139-146 | the saved board is drawn from the old entries plus the new one, and no entry left out scores above a kept one |
| Leaderboard.TopScoresOfSorted | fill-in-addition/script.js:139-146 | on a sorted board the new entry goes after every entry scoring at least as much (ties included) and before the rest, and the first 20 are kept |
| Leaderboard.FullBoardIgnoresLowScore | fill-in-addition/script.js:143-146 | on a full sorted board, a score no higher than the lowest entry (a tie included, since the sort is stable) leaves the board unchanged |
| AdditionGame.ThreePlusFourDraw | fill-in-addition/script.js:221-233 | specific draws pose the problem ? + 4 = 7 |
| AdditionGame.Game.constructor | fill-in-addition/script.js:1-8 | a new game has score 0, 60 seconds and no session or problem; the leaderboard is the stored one |
| AdditionGame.Game.NextProblem | fill-in-addition/script.js:214-219 | the buffer is emptied and the problem replaced by a generated one; nothing else changes |
| AdditionGame.Game.Start | fill-in-addition/script.js:90-109 | score 0, 60 seconds, playing, empty buffer, game screen, a fresh problem, clock running; leaderboard kept |
| AdditionGame.Game.Reset | fill-in-addition/script.js:111-113 | only the screen changes, to the start screen |
| AdditionGame.Game.End | fill-in-addition/script.js:115-128 | playing stops, the clock stops and the result screen is shown; score, time, problem and buffer are kept |
| AdditionGame.Game.Tick | fill-in-addition/script.js:102-108 | time left drops by exactly 1; the session stays on exactly while time is left; the tick that reaches 0 shows the result screen; nothing else changes |
| AdditionGame.Game.RunOut | fill-in-addition/script.js:102-108 | a running session ends after exactly as many ticks as it has seconds left (60 after Start), on the result screen |
| AdditionGame.Game.CheckAnswer | fill-in-addition/script.js:264-289 | an empty buffer changes nothing; a correct buffer adds exactly 10 points, empties the buffer and poses a fresh valid problem; a wrong one keeps score and problem and empties the buffer |
| AdditionGame.Game.HandleInput | fill-in-addition/script.js:73-88 | outside a session nothing changes; Backspace drops exactly the last digit (none on an empty buffer); a digit is appended only below 3 digits; Enter behaves as CheckAnswer; the buffer never exceeds 3 digits |
| AdditionGame.Game.ShowRanking | fill-in-addition/script.js:130-133 | only the screen changes, to the ranking screen |
| AdditionGame.Game.SaveScore | fill-in-addition/script.js:135-152 | the leaderboard becomes the top 20 of the old board plus the entry (name with fallback, current score, given time stamp), sorted stably by descending score; the ranking screen is shown |

## Left out

- Rendering and the page are not modelled. This covers element lookups,
  event-listener wiring, the on-screen keypad's `data-` attributes, the
  equation and ranking HTML, colours, the score animation, the shake, the
  feedback text and the button toggling in `end`. The keypad is taken to
  deliver the same three input symbols as the keyboard.
- `end` also clears the name field (line 119). The model has no name field:
  `SaveScore` takes whatever name was typed as a parameter.
- The timers are not modelled as timers. `setInterval` and `clearInterval`
  become the `timerRunning` flag, and the interval callback becomes `Tick`,
  which may only run while the flag is set. The 400 ms `setTimeout` of the
  shake is view code.
- Game.Start: the source does not cancel an earlier interval, and the
  single flag cannot represent two live intervals. The model claims no
  cancellation. The screen flow only reaches the start button after `end`
  has cleared the interval.
- `localStorage` and JSON (de)serialisation are not modelled. The stored
  board is the `scores` field. `getScores` does not catch a parse error,
  and corrupt stored data is not modelled.
- `new Date().toISOString()` is not modelled: the time stamp is a
  parameter of `SaveScore`.
- `Math.random()` is not modelled. Each call is a real number in [0, 1),
  carried in `Draw`, and it is scaled and rounded down with exact real
  arithmetic. Floating-point rounding of the products and the uniform
  distribution are not modelled.
- Input.FromKeyboard: a key name of several characters that passes the
  string comparison at line 66 (such as "0a") would be appended whole by the
  source. The model drops it. A browser never reports such a key name.
- Decimal.Value: `parseInt` of an empty string is not modelled, because the
  source never parses an empty buffer.
- `Array.prototype.sort` is stable, so a new entry goes after older entries
  with the same score; the model's sort is stable in the same way.
- Game.constructor: the constructor (lines 1-42) never switches screens, so
  the first screen shown comes from the page markup, which is not modelled;
  the model starts on the start screen.
