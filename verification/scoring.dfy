/** Feedback for a guess (`Game#check_input`): one '+' per position where
    guess and code agree, then one '-' per further digit the two share,
    counted with multiplicity. */
module Scoring {

  import opened GuessRules

  /** `n` copies of `c`. */
  function Repeat(c: char, n: nat): (r: string)
    ensures |r| == n
    ensures forall i :: 0 <= i < n ==> r[i] == c
  {
    if n == 0 then [] else [c] + Repeat(c, n - 1)
  }

  /** The positions below `n` where `code` and `guess` agree. */
  function AgreeingPositions(code: string, guess: string, n: nat): set<nat>
    requires n <= |code| && n <= |guess|
  {
    set i: nat | i < n && code[i] == guess[i]
  }

  /** The number of positions below `n` where code and guess hold the same
      digit, counted one position at a time as the source's `times.count`
      does. */
  function ExactBelow(code: string, guess: string, n: nat): (r: nat)
    requires n <= |code| && n <= |guess|
    ensures r == |AgreeingPositions(code, guess, n)|
    ensures r <= n
  {
    if n == 0 then
      assert AgreeingPositions(code, guess, 0) == {};
      0
    else
      assert AgreeingPositions(code, guess, n)
          == AgreeingPositions(code, guess, n - 1)
           + (if code[n - 1] == guess[n - 1] then {n - 1} else {});
      ExactBelow(code, guess, n - 1) + (if code[n - 1] == guess[n - 1] then 1 else 0)
  }

  /** The exact ('+') count: agreeing positions among the LENGTH positions
      of a code and a guess. */
  function Exact(code: string, guess: string): (r: nat)
    requires |code| == LENGTH && |guess| == LENGTH
    ensures r == |AgreeingPositions(code, guess, LENGTH)|
    ensures r <= LENGTH
  {
    ExactBelow(code, guess, LENGTH)
  }

  /** `pool` with its first occurrence of `c` removed (`delete_at(index(c))`),
      or `pool` itself when `c` does not occur. */
  function RemoveFirst(pool: string, c: char): string {
    if |pool| == 0 then pool
    else if pool[0] == c then pool[1..]
    else [pool[0]] + RemoveFirst(pool[1..], c)
  }

  /** Removing the first occurrence takes one copy of `c` out of the pool's
      multiset (none when there is none). */
  lemma {:induction false} RemoveFirstMultiset(pool: string, c: char)
    ensures multiset(RemoveFirst(pool, c)) == multiset(pool) - multiset{c}
  {
    if |pool| > 0 {
      assert pool == [pool[0]] + pool[1..];
      if pool[0] != c {
        RemoveFirstMultiset(pool[1..], c);
      }
    }
  }

  /** A character that does not occur leaves the pool as it is. */
  lemma {:induction false} RemoveFirstMissing(pool: string, c: char)
    requires c !in pool
    ensures RemoveFirst(pool, c) == pool
  {
    if |pool| > 0 {
      assert pool == [pool[0]] + pool[1..];
      RemoveFirstMissing(pool[1..], c);
    }
  }

  /** Removing the first occurrence takes exactly one copy of `c` out of the
      pool when there is one, and nothing otherwise. */
  lemma RemoveFirstTakesOne(pool: string, c: char)
    ensures multiset(RemoveFirst(pool, c)) == multiset(pool) - multiset{c}
    ensures c in pool ==> |RemoveFirst(pool, c)| == |pool| - 1
    ensures c !in pool ==> RemoveFirst(pool, c) == pool
  {
    RemoveFirstMultiset(pool, c);
    if c !in pool {
      RemoveFirstMissing(pool, c);
    } else {
      assert |multiset(RemoveFirst(pool, c))| == |multiset(pool)| - 1;
    }
  }

  /** The code digits left over after scanning the guess, each guess digit
      consuming one remaining equal code digit. */
  function Leftover(pool: string, guess: string): string
    decreases |guess|
  {
    if |guess| == 0 then pool
    else Leftover(RemoveFirst(pool, guess[0]), guess[1..])
  }

  /** The scan leaves exactly the pool's digits that the guess does not
      match, counted with multiplicity. */
  lemma {:induction false} LeftoverIsDifference(pool: string, guess: string)
    ensures multiset(Leftover(pool, guess)) == multiset(pool) - multiset(guess)
    decreases |guess|
  {
    if |guess| > 0 {
      assert guess == [guess[0]] + guess[1..];
      RemoveFirstTakesOne(pool, guess[0]);
      LeftoverIsDifference(RemoveFirst(pool, guess[0]), guess[1..]);
    }
  }

  /** The number of digits code and guess share, counted with multiplicity:
      the size of the intersection of their digit multisets. */
  function Common(code: string, guess: string): nat {
    |multiset(code) * multiset(guess)|
  }

  /** A multiset is the disjoint sum of what another takes from it and what
      remains. */
  lemma SplitByOther<T>(a: multiset<T>, b: multiset<T>)
    ensures a == (a * b) + (a - b)
    ensures |a| == |a * b| + |a - b|
  {
    assert forall x :: a[x] == (a * b)[x] + (a - b)[x];
  }

  /** A sub-multiset is no larger, and taking it out leaves the difference
      in size. */
  lemma SubMultisetSize<T>(a: multiset<T>, b: multiset<T>)
    requires a <= b
    ensures |a| <= |b|
    ensures |b - a| == |b| - |a|
  {
    assert b == a + (b - a) by {
      assert forall x :: b[x] == a[x] + (b - a)[x];
    }
  }

  /** Scanning consumes exactly the shared digits. */
  lemma {:induction false} LeftoverSize(code: string, guess: string)
    ensures |Leftover(code, guess)| == |code| - Common(code, guess)
  {
    var left := Leftover(code, guess);
    LeftoverIsDifference(code, guess);
    SplitByOther(multiset(code), multiset(guess));
    assert |left| == |multiset(left)|;
    assert |code| == |multiset(code)|;
  }

  /** Positions that agree are shared digits: the '+' count never exceeds
      the number of common digits, so the '-' count is never negative. */
  lemma {:induction false} ExactBelowCommon(code: string, guess: string, n: nat)
    requires n <= |code| && n <= |guess|
    ensures ExactBelow(code, guess, n) <= Common(code[..n], guess[..n])
  {
    if n > 0 {
      ExactBelowCommon(code, guess, n - 1);
      var c, g := code[..n - 1], guess[..n - 1];
      assert code[..n] == c + [code[n - 1]];
      assert guess[..n] == g + [guess[n - 1]];
      var mc, mg := multiset(c), multiset(g);
      var mc', mg' := multiset(code[..n]), multiset(guess[..n]);
      assert mc' == mc + multiset{code[n - 1]};
      assert mg' == mg + multiset{guess[n - 1]};
      if code[n - 1] == guess[n - 1] {
        assert (mc * mg) + multiset{code[n - 1]} <= mc' * mg';
        SubMultisetSize((mc * mg) + multiset{code[n - 1]}, mc' * mg');
      } else {
        assert mc * mg <= mc' * mg';
        SubMultisetSize(mc * mg, mc' * mg');
      }
    }
  }

  lemma ExactAtMostCommon(code: string, guess: string)
    requires |code| == LENGTH && |guess| == LENGTH
    ensures Exact(code, guess) <= Common(code, guess)
    ensures Common(code, guess) <= LENGTH
  {
    ExactBelowCommon(code, guess, LENGTH);
    assert code[..|code|] == code;
    assert guess[..|guess|] == guess;
    SubMultisetSize(multiset(code) * multiset(guess), multiset(code));
  }

  /** The source's minus count `LENGTH - pluses - leftover` is the number
      of shared digits that are not exact matches, hence never negative. */
  lemma MinusesAreNearMatches(code: string, guess: string)
    requires |code| == LENGTH && |guess| == LENGTH
    ensures Exact(code, guess) <= Common(code, guess) <= LENGTH
    ensures LENGTH - Exact(code, guess) - |Leftover(code, guess)|
         == Common(code, guess) - Exact(code, guess)
  {
    LeftoverSize(code, guess);
    ExactAtMostCommon(code, guess);
  }

  /** The feedback string: `exact` '+' characters followed by `near` '-'
      characters. */
  function Render(exact: nat, near: nat): (r: string)
    ensures |r| == exact + near
    ensures forall i :: 0 <= i < exact ==> r[i] == '+'
    ensures forall i :: exact <= i < |r| ==> r[i] == '-'
  {
    Repeat('+', exact) + Repeat('-', near)
  }

  /** The multiset of `n` copies of `c`. */
  lemma {:induction false} RepeatMultiset(c: char, n: nat)
    ensures multiset(Repeat(c, n)) == multiset{}[c := n]
  {
    if n > 0 {
      RepeatMultiset(c, n - 1);
    }
  }

  /** A rendered feedback determines both counts: the number of '+'
      characters and the length. */
  lemma RenderInjective(e1: nat, n1: nat, e2: nat, n2: nat)
    requires Render(e1, n1) == Render(e2, n2)
    ensures e1 == e2 && n1 == n2
  {
    RepeatMultiset('+', e1);
    RepeatMultiset('-', n1);
    RepeatMultiset('+', e2);
    RepeatMultiset('-', n2);
    assert multiset(Render(e1, n1))['+'] == e1;
    assert multiset(Render(e2, n2))['+'] == e2;
  }

  /** The number of value-only ('-') matches: shared digits that are not
      exact matches. */
  function Near(code: string, guess: string): nat
    requires |code| == LENGTH && |guess| == LENGTH
  {
    ExactAtMostCommon(code, guess);
    Common(code, guess) - Exact(code, guess)
  }

  /** `check_input`: count the agreeing positions, let the guess consume code
      digits one by one, and report `LENGTH - pluses - leftover` minuses.
      The result is '+' for every agreeing position and '-' for every other
      shared digit. */
  function CheckInput(code: string, guess: string): (r: string)
    requires |code| == LENGTH && |guess| == LENGTH
    ensures r == Render(Exact(code, guess), Near(code, guess))
  {
    MinusesAreNearMatches(code, guess);
    var pluses := Exact(code, guess);
    var minuses: int := LENGTH - pluses - |Leftover(code, guess)|;
    Render(pluses, minuses)
  }

  /** All positions below `n` agree exactly when the prefixes are equal. */
  lemma {:induction false} AllExactBelowIffEqual(code: string, guess: string, n: nat)
    requires n <= |code| && n <= |guess|
    ensures ExactBelow(code, guess, n) == n <==> code[..n] == guess[..n]
  {
    if n > 0 {
      AllExactBelowIffEqual(code, guess, n - 1);
      assert code[..n] == code[..n - 1] + [code[n - 1]];
      assert guess[..n] == guess[..n - 1] + [guess[n - 1]];
      if code[..n] == guess[..n] {
        assert code[..n][..n - 1] == code[..n - 1];
        assert guess[..n][..n - 1] == guess[..n - 1];
        assert code[..n][n - 1] == code[n - 1];
      }
    }
  }

  /** The feedback is all pluses exactly when every position agrees, that is
      when the guess is the code. */
  lemma AllExactIffEqual(code: string, guess: string)
    requires |code| == LENGTH && |guess| == LENGTH
    ensures Exact(code, guess) == LENGTH <==> code == guess
  {
    AllExactBelowIffEqual(code, guess, LENGTH);
    assert code[..|code|] == code;
    assert guess[..|guess|] == guess;
  }

  /** The whole-code answer: feedback "++++" exactly when the guess is the
      code. */
  lemma FullFeedbackIffCode(code: string, guess: string)
    requires |code| == LENGTH && |guess| == LENGTH
    ensures CheckInput(code, guess) == Repeat('+', LENGTH) <==> guess == code
  {
    var e, c := Exact(code, guess), Common(code, guess);
    AllExactIffEqual(code, guess);
    assert Repeat('+', LENGTH) == Render(LENGTH, 0);
    if CheckInput(code, guess) == Repeat('+', LENGTH) {
      RenderInjective(e, c - e, LENGTH, 0);
    }
  }

  /** How many of the first `n` characters of `s` are `d`. */
  function OccurrencesBelow(s: string, d: char, n: nat): nat
    requires n <= |s|
  {
    if n == 0 then 0
    else OccurrencesBelow(s, d, n - 1) + (if s[n - 1] == d then 1 else 0)
  }

  /** The counter of `d` over a prefix is the multiplicity of `d` in it. */
  lemma {:induction false} OccurrencesAreMultiplicity(s: string, d: char, n: nat)
    requires n <= |s|
    ensures OccurrencesBelow(s, d, n) == multiset(s[..n])[d]
  {
    if n > 0 {
      OccurrencesAreMultiplicity(s, d, n - 1);
      assert s[..n] == s[..n - 1] + [s[n - 1]];
    }
  }

  function Min(a: nat, b: nat): nat {
    if a <= b then a else b
  }

  /** Matches (exact or not) that digit `d` contributes: the smaller of its
      counts in code and guess. */
  function SharedDigit(code: string, guess: string, d: char): nat
    requires |code| == LENGTH && |guess| == LENGTH
  {
    Min(OccurrencesBelow(code, d, LENGTH), OccurrencesBelow(guess, d, LENGTH))
  }

  /** The number of shared digits computed with one counter per digit value
      '1'..'6', as a counting implementation would do it. */
  function SharedByCounts(code: string, guess: string): nat
    requires |code| == LENGTH && |guess| == LENGTH
  {
    SharedDigit(code, guess, '1') + SharedDigit(code, guess, '2')
    + SharedDigit(code, guess, '3') + SharedDigit(code, guess, '4')
    + SharedDigit(code, guess, '5') + SharedDigit(code, guess, '6')
  }

  /** `n` copies of `x` as a multiset have `n` elements. */
  lemma {:induction false} CopiesSize<T>(x: T, n: nat)
    ensures |multiset{}[x := n]| == n
  {
    if n > 0 {
      CopiesSize(x, n - 1);
      assert multiset{}[x := n] == multiset{}[x := n - 1] + multiset{x};
    }
  }

  /** A multiset of digits is the sum of its per-digit multiplicities. */
  lemma DigitMultisetSize(m: multiset<char>)
    requires forall x :: x in m ==> IsDigit(x)
    ensures |m| == m['1'] + m['2'] + m['3'] + m['4'] + m['5'] + m['6']
  {
    var parts := multiset{}['1' := m['1']] + multiset{}['2' := m['2']]
      + multiset{}['3' := m['3']] + multiset{}['4' := m['4']]
      + multiset{}['5' := m['5']] + multiset{}['6' := m['6']];
    assert m == parts by {
      forall x ensures m[x] == parts[x] {
        if !IsDigit(x) {
          assert x !in m;
        }
      }
    }
    CopiesSize('1', m['1']);
    CopiesSize('2', m['2']);
    CopiesSize('3', m['3']);
    CopiesSize('4', m['4']);
    CopiesSize('5', m['5']);
    CopiesSize('6', m['6']);
  }

  /** Each digit's counter agrees with the multiset intersection. */
  lemma SharedDigitIsIntersection(code: string, guess: string, d: char)
    requires |code| == LENGTH && |guess| == LENGTH
    ensures SharedDigit(code, guess, d) == (multiset(code) * multiset(guess))[d]
  {
    OccurrencesAreMultiplicity(code, d, LENGTH);
    OccurrencesAreMultiplicity(guess, d, LENGTH);
    assert code[..LENGTH] == code;
    assert guess[..LENGTH] == guess;
  }

  /** Everything a code of digits shares with a guess is a digit. */
  lemma SharedAreDigits(code: string, guess: string)
    requires ValidGuess(code)
    ensures forall x :: x in multiset(code) * multiset(guess) ==> IsDigit(x)
  {
    forall x | x in multiset(code) * multiset(guess) ensures IsDigit(x) {
      assert x in multiset(code);
      var i :| 0 <= i < |code| && code[i] == x;
    }
  }

  /** For a code of digits '1'..'6', the shared-digit count of the
      consuming scan is the per-digit counter count. */
  lemma CommonIsSharedByCounts(code: string, guess: string)
    requires ValidGuess(code) && |guess| == LENGTH
    ensures Common(code, guess) == SharedByCounts(code, guess)
  {
    SharedAreDigits(code, guess);
    DigitMultisetSize(multiset(code) * multiset(guess));
    SharedDigitIsIntersection(code, guess, '1');
    SharedDigitIsIntersection(code, guess, '2');
    SharedDigitIsIntersection(code, guess, '3');
    SharedDigitIsIntersection(code, guess, '4');
    SharedDigitIsIntersection(code, guess, '5');
    SharedDigitIsIntersection(code, guess, '6');
  }

  /** The '-' count by counters: shared digits minus exact matches. */
  lemma NearByCounts(code: string, guess: string)
    requires ValidGuess(code) && |guess| == LENGTH
    ensures Near(code, guess) == SharedByCounts(code, guess) - Exact(code, guess)
  {
    CommonIsSharedByCounts(code, guess);
  }

  /** The feedback of a guess follows from two counts: the exact matches and
      the digits the two share, counted value by value. */
  lemma FeedbackFromCounts(code: string, guess: string, exact: nat, near: nat)
    requires ValidGuess(code) && |guess| == LENGTH
    requires Exact(code, guess) == exact && SharedByCounts(code, guess) == exact + near
    ensures CheckInput(code, guess) == Render(exact, near)
  {
    NearByCounts(code, guess);
  }
}
