/** One game's lifecycle (`Codebreaker::Game`): the secret code, the try and
    hint counters, the pool of positions not yet revealed by a hint, and the
    finished / won flags, with `start`, `check_guess`, `hint`,
    `generate_hint`, `define_stage` and `answer` as pure steps. */
module GameEngine {

  import opened Outcomes
  import opened GuessRules
  import opened Scoring

  /** The state of a started game.  Counters are Ruby integers, so they are
      `int` here; `Inv` below states the bounds a started game keeps. */
  datatype Game = Game(
    code: string,
    triesLeft: int,
    hintsLeft: int,
    hintPool: set<nat>,
    finished: bool,
    won: bool)

  /** A step's new state together with what it returns to the caller. */
  datatype Turn<T> = Turn(game: Game, reply: T)

  /** The feedback that wins: '+' at every position. */
  function AllPlus(): (r: string)
    ensures |r| == LENGTH
    ensures forall i :: 0 <= i < |r| ==> r[i] == '+'
  {
    Repeat('+', LENGTH)
  }

  /** The positions of a code. */
  function AllPositions(): (r: set<nat>)
    ensures forall i: nat :: i in r <==> i < LENGTH
    ensures |r| == LENGTH
  {
    {0, 1, 2, 3}
  }

  /** The positions already shown by a hint. */
  function Revealed(g: Game): set<nat> {
    AllPositions() - g.hintPool
  }

  /** What every state reachable from `Start` satisfies when guesses and
      hints are made only while the game is unfinished (see
      `CheckGuessPreservesInv`, `HintPreservesInv` and `Play`).  A move on a
      finished game can break it (`GuessAfterLossWins`). */
  predicate Inv(g: Game) {
    && ValidGuess(g.code)
    && g.hintPool <= AllPositions()
    && 0 <= g.hintsLeft <= HINTS
    && |g.hintPool| == g.hintsLeft + 1
    && 0 <= g.triesLeft <= TRIES
    // every hint also cost a try
    && HINTS - g.hintsLeft <= TRIES - g.triesLeft
    && (g.won ==> g.finished)
    && (!g.finished ==> g.triesLeft >= 1)
    // a lost game is one whose tries ran out
    && (g.finished && !g.won ==> g.triesLeft == 0)
  }

  /** `start`, with the randomly drawn code as a parameter: a fresh game
      with every counter full, every position hidden, and neither flag set. */
  function Start(code: string): (g: Game)
    requires ValidGuess(code)
    ensures Inv(g)
    ensures g.code == code && !g.finished && !g.won
    ensures g.triesLeft == TRIES && g.hintsLeft == HINTS
    ensures Revealed(g) == {}
  {
    Game(code, TRIES, HINTS, AllPositions(), false, false)
  }

  /** `define_stage`: the full-match feedback finishes and wins the game;
      otherwise running out of tries finishes it as a loss; otherwise nothing
      changes. */
  function DefineStage(g: Game, result: string): (r: Game)
    ensures r.code == g.code && r.triesLeft == g.triesLeft
    ensures r.hintsLeft == g.hintsLeft && r.hintPool == g.hintPool
    ensures r.won <==> g.won || result == AllPlus()
    ensures r.finished <==> g.finished || result == AllPlus() || g.triesLeft == 0
    ensures result != AllPlus() && g.triesLeft != 0 ==> r == g
  {
    if result == AllPlus() then g.(finished := true, won := true)
    else if g.triesLeft == 0 then g.(finished := true)
    else g
  }

  /** `check_guess`: an ill-formed guess is refused and nothing changes; a
      well-formed one costs one try, returns the feedback, and sets the
      won and finished flags when the guess is the code, or only the
      finished flag when that was the last try.  Nothing refuses a guess
      once the game is finished (see `GuessAfterLossWins`). */
  function CheckGuess(g: Game, input: string): (r: Result<Turn<string>>)
    requires |g.code| == LENGTH
    ensures r.Err? <==> !ValidGuess(input)
    ensures r.Err? ==> r.error == InvalidGuess
    ensures r.Ok? ==> r.value.reply == CheckInput(g.code, input)
    ensures r.Ok? ==> var g' := r.value.game;
      && g'.code == g.code
      && g'.triesLeft == g.triesLeft - 1
      && g'.hintsLeft == g.hintsLeft
      && g'.hintPool == g.hintPool
      && (g'.won <==> g.won || input == g.code)
      && (g'.finished <==> g.finished || input == g.code || g.triesLeft == 1)
  {
    var checked :- Verify(input);
    var g1 := g.(triesLeft := g.triesLeft - 1);
    var result := CheckInput(g.code, checked);
    FullFeedbackIffCode(g.code, checked);
    Ok(Turn(DefineStage(g1, result), result))
  }

  /** `generate_hint` with the randomly sampled index as a parameter: take
      the index out of the pool and show the code's digit there, '_'
      everywhere else. */
  function GenerateHint(g: Game, index: nat): (r: Turn<string>)
    requires index in g.hintPool && index < |g.code|
    ensures r.game == g.(hintPool := g.hintPool - {index})
    ensures index !in r.game.hintPool && |r.game.hintPool| == |g.hintPool| - 1
    ensures |r.reply| == LENGTH
    ensures index < LENGTH ==> r.reply[index] == g.code[index]
    ensures forall i :: 0 <= i < LENGTH && i != index ==> r.reply[i] == '_'
  {
    var mask := Repeat('_', LENGTH);
    var shown := if index < LENGTH then mask[index := g.code[index]] else mask;
    Turn(g.(hintPool := g.hintPool - {index}), shown)
  }

  /** `hint`.  With no hints left it answers `None` (Ruby's `false`) and
      changes nothing.  Otherwise it costs one try and one hint, may finish
      the game as a loss but never as a win, and reveals one still-hidden
      position. */
  function Hint(g: Game, index: nat): (r: Turn<Option<string>>)
    requires g.hintsLeft != 0 ==> index in g.hintPool && index < |g.code|
    ensures g.hintsLeft == 0 ==> r == Turn(g, None)
    ensures g.hintsLeft != 0 ==> var g' := r.game;
      && g'.code == g.code
      && g'.triesLeft == g.triesLeft - 1
      && g'.hintsLeft == g.hintsLeft - 1
      && g'.hintPool == g.hintPool - {index}
      && g'.won == g.won
      && (g'.finished <==> g.finished || g.triesLeft == 1)
      && r.reply.Some?
      && |r.reply.value| == LENGTH
      && (index < LENGTH ==> r.reply.value[index] == g.code[index])
      && (forall i :: 0 <= i < LENGTH && i != index ==> r.reply.value[i] == '_')
  {
    if g.hintsLeft == 0 then Turn(g, None)
    else
      var g1 := g.(triesLeft := g.triesLeft - 1, hintsLeft := g.hintsLeft - 1);
      var g2 := DefineStage(g1, "");
      var shown := GenerateHint(g2, index);
      Turn(shown.game, Some(shown.reply))
  }

  /** `answer`: the code once the game is finished, `nil` before. */
  function Answer(g: Game): (r: Option<string>)
    ensures r.Some? <==> g.finished
    ensures r.Some? ==> r.value == g.code
  {
    if g.finished then Some(g.code) else None
  }

  /** A guess on an unfinished game keeps every reachable-state fact and
      reveals nothing (that the flags only go from false to true is in
      `CheckGuess`'s contract). */
  lemma CheckGuessPreservesInv(g: Game, input: string)
    requires Inv(g) && !g.finished
    ensures CheckGuess(g, input).Ok? ==> Inv(CheckGuess(g, input).value.game)
    ensures CheckGuess(g, input).Err? ==> Inv(g)
    ensures CheckGuess(g, input).Ok? ==> Revealed(CheckGuess(g, input).value.game) == Revealed(g)
  {
  }

  /** When hints remain the pool still has a position to show. */
  lemma HintPoolNonEmpty(g: Game)
    requires Inv(g) && g.hintsLeft > 0
    ensures exists i :: i in g.hintPool && i < |g.code|
  {
    var i :| i in g.hintPool;
    assert i in AllPositions();
  }

  /** A hint keeps every reachable-state fact, shows a position that was
      not shown before, and adds exactly that position to the shown ones. */
  lemma HintPreservesInv(g: Game, index: nat)
    requires Inv(g) && !g.finished
    requires g.hintsLeft != 0 ==> index in g.hintPool
    ensures Inv(Hint(g, index).game)
    ensures g.hintsLeft != 0 ==>
      index !in Revealed(g) && Revealed(Hint(g, index).game) == Revealed(g) + {index}
    ensures |Revealed(Hint(g, index).game)| == HINTS - Hint(g, index).game.hintsLeft
  {
    assert |Revealed(g)| == LENGTH - |g.hintPool| by {
      assert g.hintPool <= AllPositions();
      SetDifferenceSize(AllPositions(), g.hintPool);
    }
    if g.hintsLeft != 0 {
      var g' := Hint(g, index).game;
      assert g'.hintPool <= AllPositions();
      SetDifferenceSize(AllPositions(), g'.hintPool);
    }
  }

  lemma SetDifferenceSize(a: set<nat>, b: set<nat>)
    requires b <= a
    ensures |a - b| == |a| - |b|
  {
    assert a == (a - b) + b;
  }

  /** A fresh game gives exactly HINTS hints, each at a different position,
      and then answers that no hint is available without changing anything. */
  lemma ThreeHintsThenNone(code: string, i: nat, j: nat, k: nat)
    requires ValidGuess(code)
    requires i < LENGTH && j < LENGTH && k < LENGTH
    requires j != i && k != i && k != j
    ensures var h1 := Hint(Start(code), i);
      var h2 := Hint(h1.game, j);
      var h3 := Hint(h2.game, k);
      && h1.reply.Some? && h2.reply.Some? && h3.reply.Some?
      && h3.game.hintsLeft == 0 && h3.game.triesLeft == TRIES - HINTS
      && !h3.game.finished
      && Revealed(h3.game) == {i, j, k}
      && Hint(h3.game, 0) == Turn(h3.game, None)
  {
  }

  /** `hint` refuses once no hints are left, so the hint counter never
      goes below zero. */
  lemma HintsNeverNegative(g: Game, index: nat)
    requires g.hintsLeft >= 0
    requires g.hintsLeft != 0 ==> index in g.hintPool && index < |g.code|
    ensures Hint(g, index).game.hintsLeft >= 0
  {
  }

  /** A hint on a lost game that still has hints spends a try anyway,
      taking the try counter below zero; the game stays lost. */
  lemma HintAfterLossSpendsTry(g: Game, index: nat)
    requires g.finished && !g.won && g.triesLeft == 0 && g.hintsLeft > 0
    requires index in g.hintPool && index < |g.code|
    ensures Hint(g, index).game.triesLeft == -1
    ensures Hint(g, index).game.finished && !Hint(g, index).game.won
    ensures Hint(g, index).reply.Some?
  {
  }

  /** Nothing stops a finished game: a lost game whose code is then guessed
      becomes won, with the try counter below zero, so `Inv` no longer
      holds. */
  lemma GuessAfterLossWins(g: Game)
    requires Inv(g) && g.finished && !g.won
    ensures var r := CheckGuess(g, g.code);
      r.Ok? && r.value.game.won && r.value.game.finished && r.value.game.triesLeft == -1
    ensures !Inv(CheckGuess(g, g.code).value.game)
  {
  }

  /** A session: guesses submitted one by one while the game is unfinished
      (what `finished?` is for); an ill-formed guess is refused and changes
      nothing. */
  function Play(g: Game, inputs: seq<string>): (r: Game)
    requires Inv(g)
    ensures Inv(r)
    ensures r.code == g.code && r.hintsLeft == g.hintsLeft
    decreases |inputs|
  {
    if |inputs| == 0 || g.finished then g
    else
      CheckGuessPreservesInv(g, inputs[0]);
      var step := CheckGuess(g, inputs[0]);
      Play(if step.Ok? then step.value.game else g, inputs[1..])
  }

  /** One well-formed guess on an unfinished game, as the session sees it. */
  lemma GuessStep(g: Game, input: string)
    requires Inv(g) && !g.finished && ValidGuess(input)
    ensures CheckGuess(g, input).Ok?
    ensures var g' := CheckGuess(g, input).value.game;
      && Inv(g') && g'.code == g.code && g'.triesLeft == g.triesLeft - 1
      && (g'.won <==> input == g.code)
      && (g'.finished <==> input == g.code || g.triesLeft == 1)
  {
    CheckGuessPreservesInv(g, input);
  }

  /** The guesses that fit in `n` tries are the first guess and those that
      fit in `n - 1` after it. */
  lemma PrefixAfterFirst(inputs: seq<string>, n: nat, code: string)
    requires 0 < n <= |inputs|
    ensures code in inputs[..n] <==> code == inputs[0] || code in inputs[1..][..n - 1]
  {
    assert inputs[..n] == [inputs[0]] + inputs[1..][..n - 1];
  }

  /** A session of well-formed guesses from an unfinished game is won
      exactly when the code is among the guesses that fit in the remaining
      tries, and is over exactly when it is won or the guesses used them
      all up. */
  lemma {:induction false} PlayOutcome(g: Game, inputs: seq<string>)
    requires Inv(g) && !g.finished
    requires forall i :: 0 <= i < |inputs| ==> ValidGuess(inputs[i])
    ensures Play(g, inputs).won <==> g.code in inputs[..Min(|inputs|, g.triesLeft)]
    ensures Play(g, inputs).finished <==> Play(g, inputs).won || |inputs| >= g.triesLeft
    decreases |inputs|
  {
    if |inputs| > 0 {
      GuessStep(g, inputs[0]);
      var g' := CheckGuess(g, inputs[0]).value.game;
      assert Play(g, inputs) == Play(g', inputs[1..]);
      PrefixAfterFirst(inputs, Min(|inputs|, g.triesLeft), g.code);
      if g'.finished {
        assert Play(g', inputs[1..]) == g';
      } else {
        PlayOutcome(g', inputs[1..]);
      }
    }
  }

  /** A game played with ten wrong guesses is lost and shows its code. */
  lemma TenMissesLose(code: string, inputs: seq<string>)
    requires ValidGuess(code) && |inputs| == TRIES
    requires forall i :: 0 <= i < |inputs| ==> ValidGuess(inputs[i]) && inputs[i] != code
    ensures Play(Start(code), inputs).finished && !Play(Start(code), inputs).won
    ensures Answer(Play(Start(code), inputs)) == Some(code)
  {
    PlayOutcome(Start(code), inputs);
  }
}
