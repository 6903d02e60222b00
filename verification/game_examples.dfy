/** A worked game: code 2131, one miss, one hint at position 2, then the
    winning guess. */
module GameExamples {

  import opened Outcomes
  import opened GuessRules
  import opened GameEngine
  import ScoringExamples

  /** The first guess misses: one digit in place, two elsewhere. */
  lemma FirstGuessMisses()
    ensures CheckGuess(Start("2131"), "1234")
      == Ok(Turn(Game("2131", 9, 3, {0, 1, 2, 3}, false, false), "+--"))
  {
    var g0 := Start("2131");
    assert ValidGuess("1234");
    var t := CheckGuess(g0, "1234");
    ScoringExamples.Example2131Vs1234();
    assert t.value.reply == "+--";
    assert t.value.game.finished == false;
    assert t.value.game.won == false;
    assert t.value.game == Game("2131", 9, 3, {0, 1, 2, 3}, false, false);
  }

  /** The hint shows the digit at position 2 and spends a try. */
  lemma HintShowsPosition2()
    ensures Hint(Game("2131", 9, 3, {0, 1, 2, 3}, false, false), 2)
      == Turn(Game("2131", 8, 2, {0, 1, 3}, false, false), Some("__3_"))
  {
    var r := Hint(Game("2131", 9, 3, {0, 1, 2, 3}, false, false), 2);
    assert r.reply.value == "__3_";
    assert {0, 1, 2, 3} - {2} == {0, 1, 3};
  }

  /** Guessing the code wins with seven tries and two hints left. */
  lemma SecondGuessWins()
    ensures CheckGuess(Game("2131", 8, 2, {0, 1, 3}, false, false), "2131")
      == Ok(Turn(Game("2131", 7, 2, {0, 1, 3}, true, true), "++++"))
  {
    ScoringExamples.Example2131Vs2131();
    assert ValidGuess("2131");
    assert "++++" == AllPlus();
  }

  /** The whole session, ending with the code revealed. */
  lemma ExampleSession()
    ensures var t1 := CheckGuess(Start("2131"), "1234");
      && t1.Ok? && t1.value.reply == "+--"
      && var h := Hint(t1.value.game, 2);
      && h.reply == Some("__3_")
      && var t2 := CheckGuess(h.game, "2131");
      && t2.Ok? && t2.value.reply == "++++"
      && t2.value.game.won && t2.value.game.triesLeft == 7 && t2.value.game.hintsLeft == 2
      && Answer(t2.value.game) == Some("2131")
  {
    FirstGuessMisses();
    HintShowsPosition2();
    SecondGuessWins();
  }
}
