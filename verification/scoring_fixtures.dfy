/** Worked examples of the feedback rule: code and guess pairs with the
    answers the repository's own tests expect of `check_input` and
    `check_guess`, each derived from the two counts. */
module ScoringExamples {

  import opened Scoring

  // spec/codebreaker/game_spec.rb:38-49
  lemma Example2131Vs1111()
    ensures CheckInput("2131", "1111") == "++"
  {
    assert Render(2, 0) == "++";
    FeedbackFromCounts("2131", "1111", 2, 0);
  }

  // spec/codebreaker/game_spec.rb:38-49
  lemma Example2131Vs2222()
    ensures CheckInput("2131", "2222") == "+"
  {
    assert Render(1, 0) == "+";
    FeedbackFromCounts("2131", "2222", 1, 0);
  }

  // spec/codebreaker/game_spec.rb:38-49
  lemma Example2131Vs3333()
    ensures CheckInput("2131", "3333") == "+"
  {
    assert Render(1, 0) == "+";
    FeedbackFromCounts("2131", "3333", 1, 0);
  }

  // spec/codebreaker/game_spec.rb:38-49
  lemma Example2131Vs4444()
    ensures CheckInput("2131", "4444") == ""
  {
    assert Render(0, 0) == "";
    FeedbackFromCounts("2131", "4444", 0, 0);
  }

  // spec/codebreaker/game_spec.rb:38-49
  lemma Example2131Vs5555()
    ensures CheckInput("2131", "5555") == ""
  {
    assert Render(0, 0) == "";
    FeedbackFromCounts("2131", "5555", 0, 0);
  }

  // spec/codebreaker/game_spec.rb:38-49
  lemma Example2131Vs6666()
    ensures CheckInput("2131", "6666") == ""
  {
    assert Render(0, 0) == "";
    FeedbackFromCounts("2131", "6666", 0, 0);
  }

  // spec/codebreaker/game_spec.rb:38-49
  lemma Example2131Vs1312()
    ensures CheckInput("2131", "1312") == "----"
  {
    assert Render(0, 4) == "----";
    FeedbackFromCounts("2131", "1312", 0, 4);
  }

  // spec/codebreaker/game_spec.rb:38-49
  lemma Example2131Vs1216()
    ensures CheckInput("2131", "1216") == "---"
  {
    assert Render(0, 3) == "---";
    FeedbackFromCounts("2131", "1216", 0, 3);
  }

  // spec/codebreaker/game_spec.rb:38-49
  lemma Example2131Vs1616()
    ensures CheckInput("2131", "1616") == "--"
  {
    assert Render(0, 2) == "--";
    FeedbackFromCounts("2131", "1616", 0, 2);
  }

  // spec/codebreaker/game_spec.rb:38-49
  lemma Example2131Vs1666()
    ensures CheckInput("2131", "1666") == "-"
  {
    assert Render(0, 1) == "-";
    FeedbackFromCounts("2131", "1666", 0, 1);
  }

  // spec/codebreaker/game_spec.rb:38-49
  lemma Example2131Vs1234()
    ensures CheckInput("2131", "1234") == "+--"
  {
    assert Render(1, 2) == "+--";
    FeedbackFromCounts("2131", "1234", 1, 2);
  }

  // spec/codebreaker/game_spec.rb:38-49
  lemma Example2131Vs2131()
    ensures CheckInput("2131", "2131") == "++++"
  {
    assert Render(4, 0) == "++++";
    FeedbackFromCounts("2131", "2131", 4, 0);
  }

  // spec/codebreaker/game_spec.rb:51-54
  lemma Example4422Vs3456()
    ensures CheckInput("4422", "3456") == "+"
  {
    assert Render(1, 0) == "+";
    FeedbackFromCounts("4422", "3456", 1, 0);
  }

  // spec/codebreaker/game_spec.rb:248
  lemma Example1111Vs1111()
    ensures CheckInput("1111", "1111") == "++++"
  {
    assert Render(4, 0) == "++++";
    FeedbackFromCounts("1111", "1111", 4, 0);
  }

  // spec/codebreaker/game_spec.rb:309
  lemma Example4444Vs4444()
    ensures CheckInput("4444", "4444") == "++++"
  {
    assert Render(4, 0) == "++++";
    FeedbackFromCounts("4444", "4444", 4, 0);
  }

  // spec/codebreaker/game_spec.rb:253
  lemma Example1221Vs2112()
    ensures CheckInput("1221", "2112") == "----"
  {
    assert Render(0, 4) == "----";
    FeedbackFromCounts("1221", "2112", 0, 4);
  }

  // spec/codebreaker/game_spec.rb:417
  lemma Example6262Vs2626()
    ensures CheckInput("6262", "2626") == "----"
  {
    assert Render(0, 4) == "----";
    FeedbackFromCounts("6262", "2626", 0, 4);
  }

  // spec/codebreaker/game_spec.rb:249
  lemma Example1111Vs1115()
    ensures CheckInput("1111", "1115") == "+++"
  {
    assert Render(3, 0) == "+++";
    FeedbackFromCounts("1111", "1115", 3, 0);
  }

  // spec/codebreaker/game_spec.rb:262
  lemma Example3331Vs3332()
    ensures CheckInput("3331", "3332") == "+++"
  {
    assert Render(3, 0) == "+++";
    FeedbackFromCounts("3331", "3332", 3, 0);
  }

  // spec/codebreaker/game_spec.rb:216
  lemma Example1666Vs6661()
    ensures CheckInput("1666", "6661") == "++--"
  {
    assert Render(2, 2) == "++--";
    FeedbackFromCounts("1666", "6661", 2, 2);
  }

  // spec/codebreaker/game_spec.rb:414
  lemma Example5255Vs2555()
    ensures CheckInput("5255", "2555") == "++--"
  {
    assert Render(2, 2) == "++--";
    FeedbackFromCounts("5255", "2555", 2, 2);
  }

  // spec/codebreaker/game_spec.rb:250
  lemma Example1111Vs1155()
    ensures CheckInput("1111", "1155") == "++"
  {
    assert Render(2, 0) == "++";
    FeedbackFromCounts("1111", "1155", 2, 0);
  }

  // spec/codebreaker/game_spec.rb:208
  lemma Example1111Vs1321()
    ensures CheckInput("1111", "1321") == "++"
  {
    assert Render(2, 0) == "++";
    FeedbackFromCounts("1111", "1321", 2, 0);
  }

  // spec/codebreaker/game_spec.rb:251
  lemma Example1111Vs1555()
    ensures CheckInput("1111", "1555") == "+"
  {
    assert Render(1, 0) == "+";
    FeedbackFromCounts("1111", "1555", 1, 0);
  }

  // spec/codebreaker/game_spec.rb:283
  lemma Example4111Vs4444()
    ensures CheckInput("4111", "4444") == "+"
  {
    assert Render(1, 0) == "+";
    FeedbackFromCounts("4111", "4444", 1, 0);
  }

  // spec/codebreaker/game_spec.rb:210
  lemma Example2552Vs1221()
    ensures CheckInput("2552", "1221") == "--"
  {
    assert Render(0, 2) == "--";
    FeedbackFromCounts("2552", "1221", 0, 2);
  }

  // spec/codebreaker/game_spec.rb:276
  lemma Example1221Vs2332()
    ensures CheckInput("1221", "2332") == "--"
  {
    assert Render(0, 2) == "--";
    FeedbackFromCounts("1221", "2332", 0, 2);
  }

  // spec/codebreaker/game_spec.rb:218
  lemma Example1134Vs5115()
    ensures CheckInput("1134", "5115") == "+-"
  {
    assert Render(1, 1) == "+-";
    FeedbackFromCounts("1134", "5115", 1, 1);
  }

  // spec/codebreaker/game_spec.rb:221
  lemma Example1134Vs5111()
    ensures CheckInput("1134", "5111") == "+-"
  {
    assert Render(1, 1) == "+-";
    FeedbackFromCounts("1134", "5111", 1, 1);
  }

  // spec/codebreaker/game_spec.rb:252
  lemma Example1111Vs5555()
    ensures CheckInput("1111", "5555") == ""
  {
    assert Render(0, 0) == "";
    FeedbackFromCounts("1111", "5555", 0, 0);
  }

  // spec/codebreaker/game_spec.rb:387
  lemma Example1111Vs2222()
    ensures CheckInput("1111", "2222") == ""
  {
    assert Render(0, 0) == "";
    FeedbackFromCounts("1111", "2222", 0, 0);
  }

  // spec/codebreaker/game_spec.rb:256
  lemma Example1221Vs2555()
    ensures CheckInput("1221", "2555") == "-"
  {
    assert Render(0, 1) == "-";
    FeedbackFromCounts("1221", "2555", 0, 1);
  }

  // spec/codebreaker/game_spec.rb:278
  lemma Example5556Vs1115()
    ensures CheckInput("5556", "1115") == "-"
  {
    assert Render(0, 1) == "-";
    FeedbackFromCounts("5556", "1115", 0, 1);
  }

  // spec/codebreaker/game_spec.rb:425
  lemma Example1353Vs3315()
    ensures CheckInput("1353", "3315") == "+---"
  {
    assert Render(1, 3) == "+---";
    FeedbackFromCounts("1353", "3315", 1, 3);
  }

  // spec/codebreaker/game_spec.rb:428
  lemma Example5331Vs3315()
    ensures CheckInput("5331", "3315") == "+---"
  {
    assert Render(1, 3) == "+---";
    FeedbackFromCounts("5331", "3315", 1, 3);
  }

  // spec/codebreaker/game_spec.rb:258
  lemma Example2245Vs2253()
    ensures CheckInput("2245", "2253") == "++-"
  {
    assert Render(2, 1) == "++-";
    FeedbackFromCounts("2245", "2253", 2, 1);
  }

  // spec/codebreaker/game_spec.rb:430
  lemma Example3361Vs3315()
    ensures CheckInput("3361", "3315") == "++-"
  {
    assert Render(2, 1) == "++-";
    FeedbackFromCounts("3361", "3315", 2, 1);
  }

  // spec/codebreaker/game_spec.rb:285
  lemma Example3444Vs4334()
    ensures CheckInput("3444", "4334") == "+--"
  {
    assert Render(1, 2) == "+--";
    FeedbackFromCounts("3444", "4334", 1, 2);
  }

  // spec/codebreaker/game_spec.rb:355
  lemma Example2112Vs1222()
    ensures CheckInput("2112", "1222") == "+--"
  {
    assert Render(1, 2) == "+--";
    FeedbackFromCounts("2112", "1222", 1, 2);
  }

  // spec/codebreaker/game_spec.rb:254
  lemma Example1221Vs2114()
    ensures CheckInput("1221", "2114") == "---"
  {
    assert Render(0, 3) == "---";
    FeedbackFromCounts("1221", "2114", 0, 3);
  }

  // spec/codebreaker/game_spec.rb:288
  lemma Example4611Vs1466()
    ensures CheckInput("4611", "1466") == "---"
  {
    assert Render(0, 3) == "---";
    FeedbackFromCounts("4611", "1466", 0, 3);
  }
}
