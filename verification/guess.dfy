/** The fixed rules of a game and the check that a guess is well formed
    (`Game::MIN`, `MAX`, `LENGTH`, `TRIES`, `HINTS`, `REGEXP` and `verify`). */
module GuessRules {

  import opened Outcomes

  /** Smallest and largest digit of a code. */
  const MIN_DIGIT: char := '1'
  const MAX_DIGIT: char := '6'

  /** Number of digits in a code and in a guess. */
  const LENGTH: nat := 4

  /** Tries and hints a fresh game starts with. */
  const TRIES: nat := 10
  const HINTS: nat := 3

  predicate IsDigit(c: char) {
    MIN_DIGIT <= c <= MAX_DIGIT
  }

  /** What the guess check means: exactly LENGTH characters, each a digit
      from MIN_DIGIT to MAX_DIGIT.  A secret code satisfies it too. */
  predicate ValidGuess(s: string) {
    |s| == LENGTH && forall i :: 0 <= i < |s| ==> IsDigit(s[i])
  }

  /** The guess check as a decision with its error: `Ok(s)` exactly when `s`
      is well formed, the `InvalidGuess` refusal otherwise. */
  function Verify(s: string): (r: Result<string>)
    ensures r.Ok? <==> |s| == LENGTH && forall i :: 0 <= i < |s| ==> '1' <= s[i] <= '6'
    ensures r.Ok? ==> r.value == s
    ensures r.Err? ==> r.error == InvalidGuess
  {
    if ValidGuess(s) then Ok(s) else Err(InvalidGuess)
  }

  /** Where Ruby's `^` may match: the start of the string or just after a
      newline. */
  predicate LineStart(s: string, i: nat)
    requires i <= |s|
  {
    i == 0 || s[i - 1] == '\n'
  }

  /** Where Ruby's `$` may match: the end of the string or just before a
      newline. */
  predicate LineEnd(s: string, j: nat)
    requires j <= |s|
  {
    j == |s| || s[j] == '\n'
  }

  /** The guess check AS WRITTEN: `^[1-6]{4}$` with Ruby's line anchors
      matches when SOME line of the input is a well-formed guess. */
  predicate MatchesLineAnchored(s: string) {
    exists i :: 0 <= i && i + LENGTH <= |s| && LineStart(s, i) && LineEnd(s, i + LENGTH)
      && ValidGuess(s[i..i + LENGTH])
  }

  /** Every well-formed guess also passes the as-written check. */
  lemma ValidGuessMatchesLineAnchored(s: string)
    requires ValidGuess(s)
    ensures MatchesLineAnchored(s)
  {
    assert s[0..LENGTH] == s;
    assert LineStart(s, 0) && LineEnd(s, LENGTH);
  }

  /** On a single-line input the as-written check is exactly the intended
      one. */
  lemma LineAnchoredIsExactOnOneLine(s: string)
    requires forall k :: 0 <= k < |s| ==> s[k] != '\n'
    ensures MatchesLineAnchored(s) <==> ValidGuess(s)
  {
    if MatchesLineAnchored(s) {
      var i :| 0 <= i && i + LENGTH <= |s| && LineStart(s, i) && LineEnd(s, i + LENGTH)
        && ValidGuess(s[i..i + LENGTH]);
      assert i == 0;
      assert i + LENGTH == |s|;
      assert s[i..i + LENGTH] == s;
    }
    if ValidGuess(s) {
      ValidGuessMatchesLineAnchored(s);
    }
  }

  /** A two-line input that the as-written check lets through although it
      is not a guess: its first line is "1234". */
  lemma LineAnchoredAcceptsTwoLines()
    ensures MatchesLineAnchored("1234\n9")
    ensures !ValidGuess("1234\n9")
  {
    var s := "1234\n9";
    assert s[0..4] == "1234";
    assert LineStart(s, 0) && LineEnd(s, 4);
    assert ValidGuess(s[0..4]);
  }
}
