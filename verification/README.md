# Codebreaker rules engine in Dafny

A model of the rules engine of Codebreaker, a Mastermind-style game. The
player must guess a hidden four-digit code, each digit 1 to 6, within ten
tries. Up to three hints each reveal one digit of the code and each costs a
try. Finished games can be saved to a leaderboard of the ten best scores.

The model follows `Codebreaker::Game` and `Codebreaker::Player`. It contains
immutable datatypes and pure functions, and lemmas about them:

- `Outcomes` (outcomes.dfy): `Result` and `Option`, plus the two errors the
  engine raises as `ArgumentError` (`InvalidGuess`, `InvalidName`).
- `GuessRules` (guess.dfy): the game constants (`MIN_DIGIT` and `MAX_DIGIT`
  for Ruby's `MIN` and `MAX`, `LENGTH`, `TRIES`, `HINTS`) and `verify`. It also models the `REGEXP` check as
  written, with Ruby's line anchors (see Findings).
- `Scoring` (scoring.dfy): `check_input`, computed as the source computes it:
  - count the agreeing positions;
  - let each guess digit delete one equal code digit;
  - report `LENGTH - pluses - leftover` minuses.

  It is proved equal to two independent definitions of the feedback: '+'
  per agreeing position and '-' per further shared digit, where the shared
  digits are either the multiset intersection or the sum over digit values
  of the smaller occurrence count.
- `GameEngine` (game.dfy): `start`, `check_guess`, `hint`, `generate_hint`,
  `define_stage` and `answer` as steps from one `Game` value to the next.
  `Inv` is the invariant of every state reachable from `Start` by guesses
  and hints made while the game is unfinished. `Play` runs such a session
  of guesses, and `PlayOutcome` states exactly when a session is won and
  when it is over.
- `Players` (player.dfy): the `Player` constructor with its name rule,
  `points`, and the `formatted` leaderboard line, including the decimal
  rendering of `%6i`.
- `ScoreBoard` (scoreboard.dfy): the list step of `save_score` (append the
  player, keep `max_by(10, &:points)`). `SaveAllKeepsBest` shows that any
  number of saves from an empty file keeps the ten best of everything ever
  submitted.
- `ScoringExamples` (scoring_fixtures.dfy): concrete feedback expectations
  from the repository's tests, proved about the model.
- `GameExamples` (game_examples.dfy): a worked session on code 2131: a
  miss, a hint at position 2, then the code.

The random parts become parameters:
- the secret code is an argument of `Start`;
- the position `generate_hint` samples is an argument of `Hint`, required to
  be a still-hidden position.

The engine itself does not refuse guesses or hints once a game is finished,
and the model keeps that. Nothing in `check_guess` or `hint` stops the try
counter from going below zero. `hint` refuses once no hints are left, so
`hints_left` never goes below zero (`GameEngine.HintsNeverNegative`).
`GameEngine.GuessAfterLossWins` shows the consequence for tries: a lost game
whose code is then guessed becomes won, with `tries_left` at -1, and the
state no longer satisfies `Inv`. A hint on a lost game that still has hints
also takes `tries_left` to -1 (`GameEngine.HintAfterLossSpendsTry`). The name
check's message says "between 1 and 10 characters", but the code accepts 1
to 9, because `1...10` excludes 10. The model follows the code.

## Model

| member | source | states |
|---|---|---|
| GuessRules.Verify | lib/codebreaker/game.rb:124-127 | a guess is accepted, and returned unchanged, exactly when it has 4 characters each from '1' to '6'; otherwise the result is the InvalidGuess error |
| GuessRules.ValidGuessMatchesLineAnchored | lib/codebreaker/game.rb:7 | every well-formed guess also matches `^[1-6]{4}$` read with Ruby's line anchors |
| GuessRules.LineAnchoredIsExactOnOneLine | lib/codebreaker/game.rb:7 | on input without a newline the anchored pattern accepts exactly the well-formed guesses |
| GuessRules.LineAnchoredAcceptsTwoLines | lib/codebreaker/game.rb:7 | the pattern as written accepts "1234\n9", which is not a well-formed guess |
| Scoring.Repeat | lib/codebreaker/game.rb:100 | `c * n` has length n and every character is c |
| Scoring.ExactBelow | lib/codebreaker/game.rb:91 | the position-by-position count equals the size of the set of agreeing positions, at most n |
| Scoring.Exact | lib/codebreaker/game.rb:91 | the '+' count is the number of agreeing positions among the 4 |
| Scoring.RemoveFirstMultiset | lib/codebreaker/game.rb:94-95 | deleting at `index(c)` takes exactly one copy of c out of the digits (none if c is absent) |
| Scoring.RemoveFirstMissing | lib/codebreaker/game.rb:94 | a digit the code does not include leaves the code digits unchanged |
| Scoring.RemoveFirstTakesOne | lib/codebreaker/game.rb:93-96 | one deletion removes one copy of c when c is present, and nothing otherwise; the length drops by one exactly when c is present |
| Scoring.LeftoverIsDifference | lib/codebreaker/game.rb:93-96 | after the scan, the leftover code digits are the code's multiset minus the guess's |
| Scoring.LeftoverSize | lib/codebreaker/game.rb:93-98 | the leftover size is the code length minus the number of shared digits |
| Scoring.ExactBelowCommon | lib/codebreaker/game.rb:91-98 | on every prefix, the agreeing positions are at most the shared digits |
| Scoring.ExactAtMostCommon | lib/codebreaker/game.rb:91-98 | pluses <= shared digits <= 4 |
| Scoring.MinusesAreNearMatches | lib/codebreaker/game.rb:98 | `LENGTH - pluses - leftover` equals shared digits minus pluses, so the minus count is never negative |
| Scoring.Render | lib/codebreaker/game.rb:100 | the feedback holds `exact` '+' characters followed by `near` '-' characters, and nothing else |
| Scoring.RepeatMultiset | lib/codebreaker/game.rb:100 | n copies of c are, as a multiset, c with multiplicity n |
| Scoring.RenderInjective | lib/codebreaker/game.rb:100 | a feedback string determines both counts |
| Scoring.CheckInput | lib/codebreaker/game.rb:90-101 | the source's deletion algorithm yields '+' per agreeing position and '-' per further shared digit, counted with multiplicity |
| Scoring.AllExactBelowIffEqual | lib/codebreaker/game.rb:91 | all of the first n positions agree iff the two prefixes are equal |
| Scoring.AllExactIffEqual | lib/codebreaker/game.rb:91 | the '+' count is 4 iff the guess is the code |
| Scoring.FullFeedbackIffCode | lib/codebreaker/game.rb:90-101 | the feedback is "++++" iff the guess equals the code |
| Scoring.OccurrencesAreMultiplicity | lib/codebreaker/game.rb:93-96 | counting a digit position by position gives its multiplicity |
| Scoring.SharedDigitIsIntersection | lib/codebreaker/game.rb:93-96 | for one digit value, the shared count is the smaller of its two counts, which is its multiplicity in the intersection |
| Scoring.SharedAreDigits | lib/codebreaker/game.rb:93-96 | when the code consists of digits 1..6, the intersection holds only those digits |
| Scoring.CommonIsSharedByCounts | lib/codebreaker/game.rb:93-98 | the shared-digit count equals the sum over digit values 1..6 of the smaller occurrence count |
| Scoring.NearByCounts | lib/codebreaker/game.rb:98 | the minus count is that per-digit sum minus the pluses |
| Scoring.FeedbackFromCounts | lib/codebreaker/game.rb:90-101 | the feedback follows from the exact count and the per-digit shared count |
| GameEngine.AllPlus | lib/codebreaker/game.rb:111 | the winning feedback is four '+' characters |
| GameEngine.AllPositions | lib/codebreaker/game.rb:17 | the initial hint pool holds exactly the positions 0..3 |
| GameEngine.Start | lib/codebreaker/game.rb:15-24 | a fresh game has the given code, 10 tries, 3 hints and all positions hidden; it is neither finished nor won; it satisfies the game invariant |
| GameEngine.DefineStage | lib/codebreaker/game.rb:110-117 | "++++" sets finished and won; otherwise zero tries left sets finished; otherwise nothing changes; counters and pool are never touched |
| GameEngine.CheckGuess | lib/codebreaker/game.rb:26-34 | an ill-formed guess returns InvalidGuess and changes nothing; a well-formed one costs exactly one try, returns the feedback, leaves hints and pool alone, wins iff the guess is the code, and finishes on a win or on the last try |
| GameEngine.GenerateHint | lib/codebreaker/game.rb:103-108 | the chosen position leaves the pool; the mask shows the code digit there and '_' at every other position |
| GameEngine.Hint | lib/codebreaker/game.rb:36-44 | with no hints left: `None` (Ruby's false) and no change; otherwise one try and one hint are spent, the position leaves the pool, the game never becomes won, it finishes iff this was the last try, and the mask shows the code digit there and '_' elsewhere |
| GameEngine.Answer | lib/codebreaker/game.rb:54-56 | the code is returned iff the game is finished |
| GameEngine.CheckGuessPreservesInv | lib/codebreaker/game.rb:26-34 | a guess on an unfinished game keeps the game invariant and reveals nothing |
| GameEngine.HintPoolNonEmpty | lib/codebreaker/game.rb:103-105 | while hints remain, the pool still has a position to sample |
| GameEngine.HintPreservesInv | lib/codebreaker/game.rb:36-44 | a hint keeps the invariant; it reveals exactly one position that was hidden; the number revealed equals the hints spent |
| GameEngine.ThreeHintsThenNone | lib/codebreaker/game.rb:36-44 | from a fresh game, three hints at distinct positions reveal exactly those positions and leave 7 tries; a fourth hint returns `None` and changes nothing |
| GameEngine.HintsNeverNegative | lib/codebreaker/game.rb:36-44 | `hint` returns before any change when no hints are left, so the hint counter never goes below zero |
| GameEngine.HintAfterLossSpendsTry | lib/codebreaker/game.rb:36-44 | nothing guards a finished game: a hint on a lost game that still has hints spends a try, taking tries to -1, and the game stays lost |
| GameEngine.GuessAfterLossWins | lib/codebreaker/game.rb:26-34 | nothing guards a finished game: guessing the code of a lost game sets won, with tries at -1, which breaks `Inv` |
| GameEngine.Play | lib/codebreaker/console_cb.rb:34-43 | a session of guesses submitted while the game is unfinished keeps the invariant, the code and the hints |
| GameEngine.GuessStep | lib/codebreaker/game.rb:26-34 | one well-formed guess on an unfinished game: the invariant holds; one try is spent; won iff the guess is the code; finished iff won or it was the last try |
| GameEngine.PlayOutcome | lib/codebreaker/game.rb:26-34 | a session of well-formed guesses is won iff the code is among the guesses that fit in the remaining tries, and is over iff it is won or those tries are used up |
| GameEngine.TenMissesLose | lib/codebreaker/game.rb:26-34 | ten wrong guesses lose a fresh game, and the answer is then the code |
| Players.NewPlayer | lib/codebreaker/player.rb:27-31 | a name of 1 to 9 characters is accepted and stored with the counters unchanged; any other length gives InvalidName |
| Players.PointsStrictlyIncreasing | lib/codebreaker/player.rb:21-23 | points are monotone in tries and hints left, and strictly increase when either grows |
| Players.PointsOfNonNegativeCounters | lib/codebreaker/player.rb:21-23 | with non-negative counters a score is at least 100 |
| Players.NatToDecimal | lib/codebreaker/player.rb:10 | `%i` of a non-negative number is a non-empty string of decimal digits, with no leading zero unless the number is 0 |
| Players.DecimalRoundTrip | lib/codebreaker/player.rb:10 | reading the rendered digits back gives the number |
| Players.DecimalWidth | lib/codebreaker/player.rb:10 | a number below 10^k renders in at most k digits |
| Players.PadLeft | lib/codebreaker/player.rb:10 | `%Ns` right-aligns in N columns with leading spaces and never cuts the text |
| Players.PointsField | lib/codebreaker/player.rb:10 | `%6i` of a number below a million is six columns: the digits right-aligned after spaces, reading back as the number |
| Players.LineLayout | lib/codebreaker/player.rb:10 | `'%10s %6i'` with fields that fit: 17 characters, the padded name, a space at column 10, the padded points |
| Players.FormattedLayout | lib/codebreaker/player.rb:9-11 | for a valid name and points below a million the line is 17 characters: the name right-aligned in 10, a space, the points' digits right-aligned in 6, which read back as the points |
| Players.FormattedExample | spec/codebreaker/player_spec.rb:31-34 | "Name" with 5 tries and 2 hints left scores 750 and formats as "      Name    750" |
| ScoreBoard.Insert | lib/codebreaker/game.rb:63 | inserting into a best-first list keeps it best-first and adds exactly the one entry |
| ScoreBoard.SortByPoints | lib/codebreaker/game.rb:63 | the entries reordered best-first: same multiset, points never increasing |
| ScoreBoard.SortedSplitDominates | lib/codebreaker/game.rb:63 | in a best-first list, nothing after a cut has more points than anything before it |
| ScoreBoard.PrefixRemainder | lib/codebreaker/game.rb:63 | cutting a list leaves the rest's multiset |
| ScoreBoard.TopScoresKeepsBest | lib/codebreaker/game.rb:63 | `max_by(10, &:points)` keeps min(n, 10) of the entries, best first, and no entry left out has more points than one kept |
| ScoreBoard.SaveScore | lib/codebreaker/game.rb:58-63 | an invalid name gives InvalidName; otherwise the new list holds min(old + 1, 10) entries, best first, taken from the old scores plus the new player, with nothing dropped outscoring anything kept |
| ScoreBoard.SaveScoreKeepsTop | lib/codebreaker/game.rb:58-63 | a valid save is the top ten of the old scores with the player appended |
| ScoreBoard.NewcomerDisplacesOld | lib/codebreaker/game.rb:62-63 | if a newcomer enters a full board, some old entry with no more points is dropped |
| ScoreBoard.SaveKeepsDroppedBelow | lib/codebreaker/game.rb:62-63 | entries dropped earlier stay below every entry kept after the next save |
| ScoreBoard.SaveStep | lib/codebreaker/game.rb:58-63 | one save keeps the board the best ten of everything submitted so far |
| ScoreBoard.SaveAllKeepsBest | lib/codebreaker/game.rb:58-66 | saving any number of players from an absent file leaves min(n, 10) of them, best first, and no dropped entry outscores a kept one |
| GameExamples.FirstGuessMisses | lib/codebreaker/game.rb:26-34 | with code 2131, guessing 1234 answers "+--" and leaves 9 tries |
| GameExamples.HintShowsPosition2 | lib/codebreaker/game.rb:103-108 | a hint at position 2 of code 2131 shows "__3_" and spends a try and a hint |
| GameExamples.SecondGuessWins | lib/codebreaker/game.rb:26-34 | guessing 2131 wins with 7 tries and 2 hints left |
| GameExamples.ExampleSession | lib/codebreaker/game.rb:26-44 | a miss, a hint, then the code: the game is won and the answer is the code |
| ScoringExamples.Example2131Vs1111 | spec/codebreaker/game_spec.rb:38-49 | code 2131, guess 1111: the feedback is "++" |
| ScoringExamples.Example2131Vs2222 | spec/codebreaker/game_spec.rb:38-49 | code 2131, guess 2222: the feedback is "+" |
| ScoringExamples.Example2131Vs3333 | spec/codebreaker/game_spec.rb:38-49 | code 2131, guess 3333: the feedback is "+" |
| ScoringExamples.Example2131Vs4444 | spec/codebreaker/game_spec.rb:38-49 | code 2131, guess 4444: the feedback is "" |
| ScoringExamples.Example2131Vs5555 | spec/codebreaker/game_spec.rb:38-49 | code 2131, guess 5555: the feedback is "" |
| ScoringExamples.Example2131Vs6666 | spec/codebreaker/game_spec.rb:38-49 | code 2131, guess 6666: the feedback is "" |
| ScoringExamples.Example2131Vs1312 | spec/codebreaker/game_spec.rb:38-49 | code 2131, guess 1312: the feedback is "----" |
| ScoringExamples.Example2131Vs1216 | spec/codebreaker/game_spec.rb:38-49 | code 2131, guess 1216: the feedback is "---" |
| ScoringExamples.Example2131Vs1616 | spec/codebreaker/game_spec.rb:38-49 | code 2131, guess 1616: the feedback is "--" |
| ScoringExamples.Example2131Vs1666 | spec/codebreaker/game_spec.rb:38-49 | code 2131, guess 1666: the feedback is "-" |
| ScoringExamples.Example2131Vs1234 | spec/codebreaker/game_spec.rb:38-49 | code 2131, guess 1234: the feedback is "+--" |
| ScoringExamples.Example2131Vs2131 | spec/codebreaker/game_spec.rb:38-49 | code 2131, guess 2131: the feedback is "++++" |
| ScoringExamples.Example4422Vs3456 | spec/codebreaker/game_spec.rb:51-54 | code 4422, guess 3456: the feedback is "+" |
| ScoringExamples.Example1111Vs1111 | spec/codebreaker/game_spec.rb:248 | code 1111, guess 1111: the feedback is "++++" |
| ScoringExamples.Example4444Vs4444 | spec/codebreaker/game_spec.rb:309 | code 4444, guess 4444: the feedback is "++++" |
| ScoringExamples.Example1221Vs2112 | spec/codebreaker/game_spec.rb:253 | code 1221, guess 2112: the feedback is "----" |
| ScoringExamples.Example6262Vs2626 | spec/codebreaker/game_spec.rb:417 | code 6262, guess 2626: the feedback is "----" |
| ScoringExamples.Example1111Vs1115 | spec/codebreaker/game_spec.rb:249 | code 1111, guess 1115: the feedback is "+++" |
| ScoringExamples.Example3331Vs3332 | spec/codebreaker/game_spec.rb:262 | code 3331, guess 3332: the feedback is "+++" |
| ScoringExamples.Example1666Vs6661 | spec/codebreaker/game_spec.rb:216 | code 1666, guess 6661: the feedback is "++--" |
| ScoringExamples.Example5255Vs2555 | spec/codebreaker/game_spec.rb:414 | code 5255, guess 2555: the feedback is "++--" |
| ScoringExamples.Example1111Vs1155 | spec/codebreaker/game_spec.rb:250 | code 1111, guess 1155: the feedback is "++" |
| ScoringExamples.Example1111Vs1321 | spec/codebreaker/game_spec.rb:208 | code 1111, guess 1321: the feedback is "++" |
| ScoringExamples.Example1111Vs1555 | spec/codebreaker/game_spec.rb:251 | code 1111, guess 1555: the feedback is "+" |
| ScoringExamples.Example4111Vs4444 | spec/codebreaker/game_spec.rb:283 | code 4111, guess 4444: the feedback is "+" |
| ScoringExamples.Example2552Vs1221 | spec/codebreaker/game_spec.rb:210 | code 2552, guess 1221: the feedback is "--" |
| ScoringExamples.Example1221Vs2332 | spec/codebreaker/game_spec.rb:276 | code 1221, guess 2332: the feedback is "--" |
| ScoringExamples.Example1134Vs5115 | spec/codebreaker/game_spec.rb:218 | code 1134, guess 5115: the feedback is "+-" |
| ScoringExamples.Example1134Vs5111 | spec/codebreaker/game_spec.rb:221 | code 1134, guess 5111: the feedback is "+-" |
| ScoringExamples.Example1111Vs5555 | spec/codebreaker/game_spec.rb:252 | code 1111, guess 5555: the feedback is "" |
| ScoringExamples.Example1111Vs2222 | spec/codebreaker/game_spec.rb:387 | code 1111, guess 2222: the feedback is "" |
| ScoringExamples.Example1221Vs2555 | spec/codebreaker/game_spec.rb:256 | code 1221, guess 2555: the feedback is "-" |
| ScoringExamples.Example5556Vs1115 | spec/codebreaker/game_spec.rb:278 | code 5556, guess 1115: the feedback is "-" |
| ScoringExamples.Example1353Vs3315 | spec/codebreaker/game_spec.rb:425 | code 1353, guess 3315: the feedback is "+---" |
| ScoringExamples.Example5331Vs3315 | spec/codebreaker/game_spec.rb:428 | code 5331, guess 3315: the feedback is "+---" |
| ScoringExamples.Example2245Vs2253 | spec/codebreaker/game_spec.rb:258 | code 2245, guess 2253: the feedback is "++-" |
| ScoringExamples.Example3361Vs3315 | spec/codebreaker/game_spec.rb:430 | code 3361, guess 3315: the feedback is "++-" |
| ScoringExamples.Example3444Vs4334 | spec/codebreaker/game_spec.rb:285 | code 3444, guess 4334: the feedback is "+--" |
| ScoringExamples.Example2112Vs1222 | spec/codebreaker/game_spec.rb:355 | code 2112, guess 1222: the feedback is "+--" |
| ScoringExamples.Example1221Vs2114 | spec/codebreaker/game_spec.rb:254 | code 1221, guess 2114: the feedback is "---" |
| ScoringExamples.Example4611Vs1466 | spec/codebreaker/game_spec.rb:288 | code 4611, guess 1466: the feedback is "---" |

## Left out

- Code generation: `rand(MIN..MAX)` is replaced by the code passed to `Start`, which must be 4 digits from 1 to 6.
- Hint sampling: `@indexes_for_hint.sample` is replaced by the position passed to `Hint`, which must still be in the pool.
- The file side of `save_score`, `high_scores` and `process_file`: YAML loading and writing and the file-existence checks are I/O. The loaded scores are a parameter, and an absent or empty file is the empty sequence (as in `SaveAll`).
- `as_json` and `to_json` of `Game` and `Player`: serialisation only, with no rules.
- `finished?`, `won?` and the `attr_reader`s: field reads of `Game`.
- `verify` on a non-`String` argument: Dafny's types rule it out.
- The console front end (console_cb.rb, message.rb) is not part of this model.
- ScoreBoard.TopScoresKeepsBest: the order among entries with equal points is not stated. `max_by` does not specify it, and the model's insertion sort may differ from Ruby's.
- Players.FormattedLayout: stated only for points from 0 to 999999. Wider or negative values, which a game played by the rules never produces, still render (`IntToDecimal`, `PadLeft`) but their layout is not proved.
- Scoring.CheckInput: requires code and guess of exactly 4 characters. The source calls it only after `verify` and on a 4-digit code. A multi-line guess that passes the as-written pattern (see Findings) is not fed to it.
- GameEngine.CheckGuess: requires a code of 4 characters, which `start` always produces. It checks guesses with the corrected `Verify`, so it refuses multi-line guesses that the source's pattern accepts. For example, the source would score `"2131\n"` against code 2131 as "++++" and win (see Findings).
- GameEngine.Play: stops at the first finished state. The engine itself would go on, as `GuessAfterLossWins` shows.

## Findings

| source | as written | input that shows it | evidently intended | confidence | as-written member | corrected member |
|---|---|---|---|---|---|---|
| lib/codebreaker/game.rb:7,126 | `^[1-6]{4}$` uses Ruby's line anchors, so `match?` succeeds when any single line of the input is four digits | "1234\n9" passes `verify` although it has 6 characters | accept only strings of exactly four digits 1..6 (`\A...\z`) | not executed | GuessRules.LineAnchoredAcceptsTwoLines | GuessRules.Verify |
