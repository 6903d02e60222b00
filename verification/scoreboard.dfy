/** The list logic of `Game#save_score`: add the new player to the loaded
    scores and keep the ten with the most points, best first.  Reading and
    writing the YAML file is not modelled; an absent or empty file is the
    empty sequence. */
module ScoreBoard {

  import opened Outcomes
  import opened Players
  import Scoring

  /** How many entries the leaderboard keeps. */
  const MAX_SCORES: nat := 10

  /** Best first: points never increase along the sequence. */
  predicate SortedByPoints(s: seq<Player>) {
    forall i, j :: 0 <= i < j < |s| ==> Points(s[i]) >= Points(s[j])
  }

  /** An entry with at least the points of a best-first sequence's head
      can go in front of it. */
  lemma SortedCons(x: Player, rest: seq<Player>)
    requires SortedByPoints(rest)
    requires |rest| > 0 ==> Points(x) >= Points(rest[0])
    ensures SortedByPoints([x] + rest)
  {
  }

  /** Places `p` into a best-first sequence. */
  function Insert(p: Player, s: seq<Player>): (r: seq<Player>)
    requires SortedByPoints(s)
    ensures SortedByPoints(r)
    ensures multiset(r) == multiset(s) + multiset{p}
    ensures |r| == |s| + 1
    ensures r[0] == p || (|s| > 0 && r[0] == s[0])
  {
    if |s| == 0 then [p]
    else if Points(p) >= Points(s[0]) then
      SortedCons(p, s);
      [p] + s
    else
      assert s == [s[0]] + s[1..];
      var rest := Insert(p, s[1..]);
      SortedCons(s[0], rest);
      assert multiset([s[0]] + rest) == multiset{s[0]} + multiset(rest);
      [s[0]] + rest
  }

  /** The scores best first (any order among equal points). */
  function SortByPoints(xs: seq<Player>): (r: seq<Player>)
    ensures SortedByPoints(r)
    ensures multiset(r) == multiset(xs)
    ensures |r| == |xs|
  {
    if |xs| == 0 then []
    else
      assert xs == xs[..|xs| - 1] + [xs[|xs| - 1]];
      Insert(xs[|xs| - 1], SortByPoints(xs[..|xs| - 1]))
  }

  /** In a best-first sequence, everything after position `n` has no more
      points than anything before it. */
  lemma SortedSplitDominates(sorted: seq<Player>, n: nat)
    requires SortedByPoints(sorted) && n <= |sorted|
    ensures forall x, y :: x in multiset(sorted[n..]) && y in sorted[..n] ==> Points(x) <= Points(y)
  {
    forall x, y | x in multiset(sorted[n..]) && y in sorted[..n] ensures Points(x) <= Points(y) {
      var i :| 0 <= i < n && sorted[..n][i] == y;
      assert x in sorted[n..];
      var j :| 0 <= j < |sorted| - n && sorted[n..][j] == x;
      assert sorted[n + j] == x && sorted[i] == y;
    }
  }

  /** Cutting a sequence leaves the rest's multiset. */
  lemma PrefixRemainder(s: seq<Player>, n: nat)
    requires n <= |s|
    ensures multiset(s[..n]) <= multiset(s)
    ensures multiset(s) - multiset(s[..n]) == multiset(s[n..])
  {
    assert s == s[..n] + s[n..];
  }

  /** What a leaderboard built from the submissions `seen` satisfies: it
      holds min(|seen|, 10) of them, best first, and no submission left out
      has more points than any entry kept. */
  predicate KeepsBest(board: seq<Player>, seen: multiset<Player>) {
    && |board| == Scoring.Min(|seen|, MAX_SCORES)
    && SortedByPoints(board)
    && multiset(board) <= seen
    && forall x, y :: x in seen - multiset(board) && y in board ==> Points(x) <= Points(y)
  }

  /** `max_by(10, &:points)`: the entries with the ten most points, best
      first (`TopScoresKeepsBest` states what it satisfies). */
  function TopScores(xs: seq<Player>): seq<Player> {
    SortByPoints(xs)[..Scoring.Min(|xs|, MAX_SCORES)]
  }

  /** The top ten are ten (or all) of the entries, best first, and every
      entry left out has no more points than any entry kept. */
  lemma TopScoresKeepsBest(xs: seq<Player>)
    ensures KeepsBest(TopScores(xs), multiset(xs))
  {
    var sorted := SortByPoints(xs);
    var n := Scoring.Min(|xs|, MAX_SCORES);
    var top := sorted[..n];
    assert TopScores(xs) == top;
    PrefixRemainder(sorted, n);
    assert multiset(xs) - multiset(top) == multiset(sorted[n..]);
    SortedSplitDominates(sorted, n);
    assert SortedByPoints(top);
  }

  /** `save_score`'s list step: a name the player rule refuses changes
      nothing; otherwise the new player joins the loaded scores and only the
      best ten are kept, best first. */
  function SaveScore(scores: seq<Player>, name: string, triesLeft: int, hintsLeft: int)
    : (r: Result<seq<Player>>)
    ensures r.Err? <==> !(1 <= |name| <= 9)
    ensures r.Err? ==> r.error == InvalidName
    ensures r.Ok? ==> KeepsBest(r.value, multiset(scores) + multiset{Player(name, triesLeft, hintsLeft)})
  {
    var player :- NewPlayer(name, triesLeft, hintsLeft);
    assert multiset(scores + [player]) == multiset(scores) + multiset{player};
    TopScoresKeepsBest(scores + [player]);
    Ok(TopScores(scores + [player]))
  }

  /** A save with a valid name is the top ten of the scores with the new
      player appended. */
  lemma SaveScoreKeepsTop(scores: seq<Player>, p: Player)
    requires ValidName(p.name)
    ensures SaveScore(scores, p.name, p.triesLeft, p.hintsLeft) == Ok(TopScores(scores + [p]))
  {
  }

  /** The leaderboard after saving each of `players` in turn, starting from
      an absent score file (each save as `SaveScoreKeepsTop` describes it). */
  function SaveAll(players: seq<Player>): seq<Player> {
    if |players| == 0 then []
    else TopScores(SaveAll(players[..|players| - 1]) + [players[|players| - 1]])
  }

  /** A save on a full board that keeps a newcomer drops an entry of the
      old board, and that entry had no more points than the newcomer. */
  lemma NewcomerDisplacesOld(board: seq<Player>, p: Player, board': seq<Player>)
    requires |board| == MAX_SCORES
    requires KeepsBest(board', multiset(board) + multiset{p})
    requires p in board' && p !in board
    ensures exists z :: z in board && Points(z) <= Points(p)
  {
    var all := multiset(board) + multiset{p};
    Scoring.SubMultisetSize(multiset(board'), all);
    var z :| z in all - multiset(board');
    assert all[p] == 1;
    assert multiset(board')[p] >= 1;
    assert z != p;
    assert z in board;
  }

  /** One save on a full board: whatever was dropped before stays below
      everything kept after the new player joins. */
  lemma SaveKeepsDroppedBelow(board: seq<Player>, dropped: multiset<Player>, p: Player, board': seq<Player>)
    requires |board| == MAX_SCORES
    requires KeepsBest(board', multiset(board) + multiset{p})
    requires forall x, y :: x in dropped && y in board ==> Points(x) <= Points(y)
    ensures forall x, y :: x in dropped && y in board' ==> Points(x) <= Points(y)
  {
    forall x, y | x in dropped && y in board' ensures Points(x) <= Points(y) {
      if y !in board {
        assert y in multiset(board) + multiset{p};
        assert y == p;
        NewcomerDisplacesOld(board, p, board');
        var z :| z in board && Points(z) <= Points(p);
      }
    }
  }

  /** One save, in terms of everything submitted so far (`seen`): the
      board's facts hold again once `p` is added to both. */
  lemma SaveStep(board: seq<Player>, seen: multiset<Player>, p: Player)
    requires KeepsBest(board, seen)
    ensures KeepsBest(TopScores(board + [p]), seen + multiset{p})
  {
    var board' := TopScores(board + [p]);
    var all := multiset(board) + multiset{p};
    TopScoresKeepsBest(board + [p]);
    assert multiset(board + [p]) == all;
    assert KeepsBest(board', all);
    if |board| < MAX_SCORES {
      Scoring.SubMultisetSize(multiset(board), seen);
      assert seen == multiset(board) by {
        assert seen - multiset(board) == multiset{};
      }
    } else {
      SaveKeepsDroppedBelow(board, seen - multiset(board), p, board');
      forall x, y | x in (seen + multiset{p}) - multiset(board') && y in board'
        ensures Points(x) <= Points(y)
      {
        if x !in all - multiset(board') {
          assert x in seen - multiset(board);
        }
      }
    }
  }

  /** Saving any number of players, one after another, into an absent score
      file keeps min(n, 10) of them, best first, and no dropped entry has
      more points than a kept one: the board is the best ten of everything
      ever submitted, not merely of the last save. */
  lemma {:induction false} SaveAllKeepsBest(players: seq<Player>)
    ensures KeepsBest(SaveAll(players), multiset(players))
  {
    if |players| > 0 {
      var before := players[..|players| - 1];
      var p := players[|players| - 1];
      SaveAllKeepsBest(before);
      assert players == before + [p];
      SaveStep(SaveAll(before), multiset(before), p);
    }
  }
}
