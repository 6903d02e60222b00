/** A leaderboard entry (`Codebreaker::Player`): a name, and the tries and
    hints left when the game ended, from which the points are derived. */
module Players {

  import opened Outcomes

  /** The fields are set once, by `NewPlayer`; a Dafny datatype value is
      immutable, as the Ruby object is once its private name setter has run. */
  datatype Player = Player(name: string, triesLeft: int, hintsLeft: int)

  /** Field widths of the leaderboard line: name, then points. */
  const NAME_WIDTH: nat := 10
  const POINTS_WIDTH: nat := 6

  /** The name rule as written, `(1...10).cover?(length)`: the range
      excludes 10, so names of 1 to 9 characters are accepted. */
  predicate ValidName(name: string) {
    1 <= |name| < 10
  }

  /** `Player.new`: refuses a name outside 1..9 characters, otherwise stores
      the three arguments unchanged. */
  function NewPlayer(name: string, triesLeft: int, hintsLeft: int): (r: Result<Player>)
    ensures r.Ok? <==> 1 <= |name| <= 9
    ensures r.Err? ==> r.error == InvalidName
    ensures r.Ok? ==>
      r.value.name == name && r.value.triesLeft == triesLeft && r.value.hintsLeft == hintsLeft
  {
    if ValidName(name) then Ok(Player(name, triesLeft, hintsLeft)) else Err(InvalidName)
  }

  /** `points`: 100 per try left plus one, 75 per hint left. */
  function Points(p: Player): int {
    100 * (p.triesLeft + 1) + 75 * p.hintsLeft
  }

  /** One more try left, or one more hint left, always scores more. */
  lemma PointsStrictlyIncreasing(p: Player, q: Player)
    requires p.triesLeft <= q.triesLeft && p.hintsLeft <= q.hintsLeft
    ensures Points(p) <= Points(q)
    ensures p.triesLeft < q.triesLeft || p.hintsLeft < q.hintsLeft ==> Points(p) < Points(q)
  {
  }

  /** With no counter below zero a score is at least 100, the score of a
      lost game that used every hint. */
  lemma PointsOfNonNegativeCounters(p: Player)
    requires p.triesLeft >= 0 && p.hintsLeft >= 0
    ensures Points(p) >= 100
  {
  }

  function DigitChar(d: nat): (c: char)
    requires d < 10
    ensures '0' <= c <= '9'
  {
    "0123456789"[d]
  }

  function DigitValue(c: char): nat
    requires '0' <= c <= '9'
  {
    (c as int - '0' as int) as nat
  }

  /** The decimal digits of `n`, most significant first, without leading
      zeros. */
  function NatToDecimal(n: nat): (r: string)
    ensures 1 <= |r|
    ensures forall i :: 0 <= i < |r| ==> '0' <= r[i] <= '9'
    ensures r[0] == '0' ==> n == 0
  {
    if n < 10 then [DigitChar(n)] else NatToDecimal(n / 10) + [DigitChar(n % 10)]
  }

  /** Ruby's `%i` rendering of an integer: a minus sign for negatives. */
  function IntToDecimal(n: int): string {
    if n < 0 then "-" + NatToDecimal(-n) else NatToDecimal(n)
  }

  /** Reads a string of decimal digits back into its value. */
  function ParseDecimal(s: string): nat
    requires forall i :: 0 <= i < |s| ==> '0' <= s[i] <= '9'
  {
    if |s| == 0 then 0
    else 10 * ParseDecimal(s[..|s| - 1]) + DigitValue(s[|s| - 1])
  }

  /** Reading the rendered digits gives back the number. */
  lemma {:induction false} DecimalRoundTrip(n: nat)
    ensures ParseDecimal(NatToDecimal(n)) == n
  {
    if n >= 10 {
      DecimalRoundTrip(n / 10);
      var r := NatToDecimal(n);
      assert r[..|r| - 1] == NatToDecimal(n / 10);
    }
    assert DigitValue(DigitChar(n % 10)) == n % 10 by {
      assert "0123456789"[n % 10] as int == '0' as int + n % 10;
    }
  }

  function Pow10(k: nat): (r: nat)
    ensures r >= 1
  {
    if k == 0 then 1 else 10 * Pow10(k - 1)
  }

  /** A number below 10^k has at most k digits. */
  lemma {:induction false} DecimalWidth(n: nat, k: nat)
    requires 1 <= k && n < Pow10(k)
    ensures |NatToDecimal(n)| <= k
  {
    if n >= 10 {
      assert n / 10 < Pow10(k - 1);
      DecimalWidth(n / 10, k - 1);
    }
  }

  /** `n` blanks, the padding `format` puts before a right-aligned field. */
  function Spaces(n: nat): (r: string)
    ensures |r| == n
    ensures forall i :: 0 <= i < n ==> r[i] == ' '
  {
    if n == 0 then "" else " " + Spaces(n - 1)
  }

  /** `format('%Ns', s)`: `s` right-aligned in `width` columns, never cut. */
  function PadLeft(s: string, width: nat): (r: string)
    ensures |s| <= width ==> |r| == width
    ensures |s| > width ==> r == s
    ensures |r| >= |s| && r[|r| - |s|..] == s
    ensures forall i :: 0 <= i < |r| - |s| ==> r[i] == ' '
  {
    if |s| >= width then s else Spaces(width - |s|) + s
  }

  /** `formatted`: the name right-aligned in ten columns, a space, and the
      points right-aligned in six. */
  function Formatted(p: Player): string {
    PadLeft(p.name, NAME_WIDTH) + " " + PadLeft(IntToDecimal(Points(p)), POINTS_WIDTH)
  }

  /** A number below a million fills the six-column points field: its
      digits right-aligned after leading spaces, reading back as the number. */
  lemma PointsField(n: nat)
    requires n < 1000000
    ensures var digits := NatToDecimal(n);
      var field := PadLeft(digits, POINTS_WIDTH);
      && |digits| <= POINTS_WIDTH && |field| == POINTS_WIDTH
      && field[POINTS_WIDTH - |digits|..] == digits
      && (forall i :: 0 <= i < POINTS_WIDTH - |digits| ==> field[i] == ' ')
      && ParseDecimal(digits) == n
  {
    assert Pow10(6) == 1000000;
    DecimalWidth(n, POINTS_WIDTH);
    DecimalRoundTrip(n);
  }

  /** The line built from a name of at most ten characters and a points
      text of at most six: both right-aligned, with one space between. */
  lemma LineLayout(name: string, points: string)
    requires |name| <= NAME_WIDTH && |points| <= POINTS_WIDTH
    ensures var line := PadLeft(name, NAME_WIDTH) + " " + PadLeft(points, POINTS_WIDTH);
      && |line| == NAME_WIDTH + 1 + POINTS_WIDTH
      && line[NAME_WIDTH] == ' '
      && line[..NAME_WIDTH] == PadLeft(name, NAME_WIDTH)
      && line[NAME_WIDTH + 1..] == PadLeft(points, POINTS_WIDTH)
  {
    var line := PadLeft(name, NAME_WIDTH) + " " + PadLeft(points, POINTS_WIDTH);
    assert line[..NAME_WIDTH] == PadLeft(name, NAME_WIDTH);
    assert line[NAME_WIDTH + 1..] == PadLeft(points, POINTS_WIDTH);
  }

  /** For a valid name and points below a million the line is exactly 17
      characters: the name right-aligned in the first ten, a space, and the
      points' digits right-aligned in the last six, which read back as the
      points. */
  lemma FormattedLayout(p: Player)
    requires ValidName(p.name) && 0 <= Points(p) < 1000000
    ensures |Formatted(p)| == NAME_WIDTH + 1 + POINTS_WIDTH
    ensures Formatted(p)[NAME_WIDTH] == ' '
    ensures var nameField := Formatted(p)[..NAME_WIDTH];
      && nameField[NAME_WIDTH - |p.name|..] == p.name
      && (forall i :: 0 <= i < NAME_WIDTH - |p.name| ==> nameField[i] == ' ')
    ensures var pointsField, digits := Formatted(p)[NAME_WIDTH + 1..], NatToDecimal(Points(p));
      && |digits| <= POINTS_WIDTH
      && pointsField[POINTS_WIDTH - |digits|..] == digits
      && (forall i :: 0 <= i < POINTS_WIDTH - |digits| ==> pointsField[i] == ' ')
      && ParseDecimal(digits) == Points(p)
  {
    var digits := NatToDecimal(Points(p));
    PointsField(Points(p));
    assert Formatted(p) == PadLeft(p.name, NAME_WIDTH) + " " + PadLeft(digits, POINTS_WIDTH);
    LineLayout(p.name, digits);
  }

  /** The documented example: "Name" with 5 tries and 2 hints left. */
  lemma FormattedExample()
    ensures Points(Player("Name", 5, 2)) == 750
    ensures Formatted(Player("Name", 5, 2)) == "      Name    750"
  {
  }
}
