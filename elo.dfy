/** The ELO-style rating engine (backend/apps/ratings/elo_calculator.py):
    a K-factor that grows with the field size, a logistic expected score
    against the field's average rating, a linear rank-to-score map, and a
    rounded rating change with the rating floored at zero.

    Arithmetic is over `real`. `math.log2` and `math.pow(10, x)` are taken
    as parameters: `Log2Laws` and `Pow10Laws` state the facts the lemmas use
    of them, and the type of `pow10` says its values are positive. */
module EloRating {
  import opened Users

  type Positive = r: real | r > 0.0 witness 1.0

  /** What the proofs need of `math.log2`: monotone on positive arguments
      and exact at the two powers of two that bound the K-factor. */
  ghost predicate Log2Laws(log2: real -> real) {
    && (forall a: real, b: real :: 0.0 < a <= b ==> log2(a) <= log2(b))
    && log2(4.0) == 2.0
    && log2(256.0) == 8.0
  }

  /** What the proofs need of `math.pow(10, x)`: `10^0 = 1` and strictly
      increasing. */
  ghost predicate Pow10Laws(pow10: real -> Positive) {
    && pow10(0.0) == 1.0
    && (forall x: real, y: real :: x < y ==> pow10(x) < pow10(y))
  }

  /** Python's built-in `round` on a number: the nearest integer, a tie
      going to the even neighbour. */
  function RoundHalfEven(x: real): (r: int)
    ensures x - 0.5 <= r as real <= x + 0.5
    ensures (r as real == x - 0.5 || r as real == x + 0.5) ==> r % 2 == 0
  {
    var f := x.Floor;
    var d := x - f as real;
    if d < 0.5 then f
    else if d > 0.5 then f + 1
    else if f % 2 == 0 then f
    else f + 1
  }

  function Clamp(x: real, lo: real, hi: real): (r: real)
    requires lo <= hi
    ensures lo <= r <= hi
    ensures lo <= x <= hi ==> r == x
    ensures x < lo ==> r == lo
    ensures x > hi ==> r == hi
  {
    if hi < (if lo < x then x else lo) then hi else if lo < x then x else lo
  }

  /** `calculate_k_factor`: 16 for fewer than two participants, otherwise
      `log2(n) * 8` clamped into [16, 64]. */
  function KFactor(n: int, log2: real -> real): (k: real)
    ensures 16.0 <= k <= 64.0
    ensures n < 2 ==> k == 16.0
    ensures n >= 2 && 16.0 <= log2(n as real) * 8.0 <= 64.0 ==> k == log2(n as real) * 8.0
    ensures n >= 2 && log2(n as real) * 8.0 < 16.0 ==> k == 16.0
    ensures n >= 2 && log2(n as real) * 8.0 > 64.0 ==> k == 64.0
  {
    if n < 2 then 16.0 else Clamp(log2(n as real) * 8.0, 16.0, 64.0)
  }

  /** The K-factor sits at its floor for fields of at most four and at its
      ceiling for fields of 256 or more. */
  lemma KFactorPlateaus(n: int, log2: real -> real)
    requires Log2Laws(log2)
    ensures n <= 4 ==> KFactor(n, log2) == 16.0
    ensures n >= 256 ==> KFactor(n, log2) == 64.0
  {
    if 2 <= n <= 4 {
      assert log2(n as real) <= log2(4.0);
    } else if n >= 256 {
      assert log2(256.0) <= log2(n as real);
    }
  }

  /** A larger field never gets a smaller K-factor. */
  lemma KFactorGrowsWithField(a: int, b: int, log2: real -> real)
    requires Log2Laws(log2)
    requires 2 <= a <= b
    ensures KFactor(a, log2) <= KFactor(b, log2)
  {
    assert log2(a as real) <= log2(b as real);
  }

  /** `calculate_expected_score`: `1 / (1 + 10^((opponent - player) / 400))`. */
  function ExpectedScore(player: real, opponent: real, pow10: real -> Positive): (e: real)
    ensures 0.0 < e < 1.0
  {
    var p: real := pow10((opponent - player) / 400.0);
    1.0 / (1.0 + p)
  }

  /** Even odds against an equal opponent, and a stronger player expects
      strictly more. */
  lemma ExpectedScoreShape(player: real, stronger: real, opponent: real, pow10: real -> Positive)
    requires Pow10Laws(pow10)
    requires player < stronger
    ensures ExpectedScore(opponent, opponent, pow10) == 0.5
    ensures ExpectedScore(player, opponent, pow10) < ExpectedScore(stronger, opponent, pow10)
  {
    assert (opponent - opponent) / 400.0 == 0.0;
    var a := (opponent - stronger) / 400.0;
    var b := (opponent - player) / 400.0;
    assert a < b;
    assert pow10(a) < pow10(b);
    var pa: real := pow10(a);
    var pb: real := pow10(b);
    ReciprocalFalls(1.0 + pa, 1.0 + pb);
  }

  lemma ReciprocalFalls(x: real, y: real)
    requires 0.0 < x < y
    ensures 1.0 / y < 1.0 / x
  {
    var u := 1.0 / x;
    var v := 1.0 / y;
    assert u * x == 1.0 && v * y == 1.0;
    assert u > 0.0;
    assert u * (y - x) > 0.0;
    assert (u - v) * y > 0.0;
  }

  /** `calculate_actual_score`: 1 for a field of at most one, otherwise
      `1 - (rank - 1) / (n - 1)`. */
  function ActualScore(rank: int, n: int): (a: real)
    ensures n <= 1 ==> a == 1.0
    ensures n > 1 && rank == 1 ==> a == 1.0
    ensures n > 1 && rank == n ==> a == 0.0
    ensures 1 <= rank <= n ==> 0.0 <= a <= 1.0
  {
    if n <= 1 then 1.0
    else
      var a := 1.0 - (rank - 1) as real / (n - 1) as real;
      assert 1 <= rank <= n ==> (rank - 1) as real / (n - 1) as real <= 1.0;
      a
  }

  /** `calculate_new_rating`: the old rating plus the rounded weighted
      change, never below zero. */
  function NewRating(oldRating: int, actual: real, expected: real, k: real, weight: real): (r: int)
    ensures r >= 0
    ensures r >= oldRating + RoundHalfEven(k * weight * (actual - expected))
    ensures r == 0 || r == oldRating + RoundHalfEven(k * weight * (actual - expected))
  {
    var candidate := oldRating + RoundHalfEven(k * weight * (actual - expected));
    if candidate < 0 then 0 else candidate
  }

  /** One input record of `calculate_competition_ratings`. */
  datatype Participant = Participant(userId: UserId, username: string, oldRating: int, rank: int)

  /** One output record of `calculate_competition_ratings`. */
  datatype RatingResult = RatingResult(
    userId: UserId,
    username: string,
    oldRating: int,
    newRating: int,
    ratingChange: int,
    rank: int,
    actualScore: real,
    expectedScore: real)

  function SumOfRatings(ps: seq<Participant>): int {
    if |ps| == 0 then 0 else SumOfRatings(ps[..|ps| - 1]) + ps[|ps| - 1].oldRating
  }

  /** The field's mean rating, the single opponent every participant is
      measured against. */
  function AverageRating(ps: seq<Participant>): real
    requires |ps| > 0
  {
    SumOfRatings(ps) as real / |ps| as real
  }

  /** The record for one participant, given the K-factor and the average
      computed once from the whole field. */
  function ResultFor(p: Participant, n: nat, k: real, avg: real, weight: real, pow10: real -> Positive): (r: RatingResult)
    ensures r.userId == p.userId && r.username == p.username
    ensures r.oldRating == p.oldRating && r.rank == p.rank
    ensures r.newRating >= 0 && r.ratingChange == r.newRating - r.oldRating
    ensures r.actualScore == ActualScore(p.rank, n)
    ensures r.expectedScore == ExpectedScore(p.oldRating as real, avg, pow10)
    ensures r.newRating == NewRating(p.oldRating, r.actualScore, r.expectedScore, k, weight)
  {
    var expected := ExpectedScore(p.oldRating as real, avg, pow10);
    var actual := ActualScore(p.rank, n);
    var newRating := NewRating(p.oldRating, actual, expected, k, weight);
    RatingResult(p.userId, p.username, p.oldRating, newRating, newRating - p.oldRating, p.rank, actual, expected)
  }

  /** What `calculate_competition_ratings` returns: one record per
      participant, in input order (empty for an empty field). */
  function CompetitionRatings(ps: seq<Participant>, weight: real, log2: real -> real, pow10: real -> Positive)
    : (rs: seq<RatingResult>)
    ensures |rs| == |ps|
    ensures forall i :: 0 <= i < |ps| ==>
      && rs[i].userId == ps[i].userId && rs[i].username == ps[i].username
      && rs[i].oldRating == ps[i].oldRating && rs[i].rank == ps[i].rank
      && rs[i].newRating >= 0 && rs[i].ratingChange == rs[i].newRating - rs[i].oldRating
    ensures |ps| > 0 ==> forall i :: 0 <= i < |ps| ==>
      rs[i] == ResultFor(ps[i], |ps|, KFactor(|ps|, log2), AverageRating(ps), weight, pow10)
  {
    if |ps| == 0 then []
    else
      var k := KFactor(|ps|, log2);
      var avg := AverageRating(ps);
      seq(|ps|, i requires 0 <= i < |ps| => ResultFor(ps[i], |ps|, k, avg, weight, pow10))
  }

  /** The loop of `calculate_competition_ratings`: the K-factor and the
      average are computed once, then one record is appended per
      participant. */
  method CalculateCompetitionRatings(ps: seq<Participant>, weight: real, log2: real -> real, pow10: real -> Positive)
    returns (results: seq<RatingResult>)
    ensures results == CompetitionRatings(ps, weight, log2, pow10)
  {
    var n := |ps|;
    if n == 0 {
      return [];
    }
    var k := KFactor(n, log2);
    var avg := SumOfRatings(ps) as real / n as real;
    results := [];
    var i := 0;
    while i < n
      invariant 0 <= i <= n
      invariant |results| == i
      invariant forall j :: 0 <= j < i ==> results[j] == ResultFor(ps[j], n, k, avg, weight, pow10)
    {
      var p := ps[i];
      var expected := ExpectedScore(p.oldRating as real, avg, pow10);
      var actual := ActualScore(p.rank, n);
      var newRating := NewRating(p.oldRating, actual, expected, k, weight);
      results := results + [RatingResult(p.userId, p.username, p.oldRating, newRating,
                                         newRating - p.oldRating, p.rank, actual, expected)];
      i := i + 1;
    }
  }

  /** With a non-negative weight, the winner of a contested field never
      loses rating and the last-placed participant never gains any. */
  lemma WinnerGainsLastLoses(ps: seq<Participant>, weight: real, log2: real -> real, pow10: real -> Positive, i: nat)
    requires |ps| > 1 && i < |ps| && weight >= 0.0 && ps[i].oldRating >= 0
    ensures ps[i].rank == 1 ==> CompetitionRatings(ps, weight, log2, pow10)[i].ratingChange >= 0
    ensures ps[i].rank == |ps| ==> CompetitionRatings(ps, weight, log2, pow10)[i].ratingChange <= 0
  {
    var k := KFactor(|ps|, log2);
    var avg := AverageRating(ps);
    assert CompetitionRatings(ps, weight, log2, pow10)[i] == ResultFor(ps[i], |ps|, k, avg, weight, pow10);
    ResultForEnds(ps[i], |ps|, k, avg, weight, pow10);
  }

  /** The same for one record: rank 1 scores 1 against an expectation
      below 1, the last rank scores 0 against one above 0. */
  lemma ResultForEnds(p: Participant, n: nat, k: real, avg: real, weight: real, pow10: real -> Positive)
    requires n > 1 && k >= 0.0 && weight >= 0.0 && p.oldRating >= 0
    ensures p.rank == 1 ==> ResultFor(p, n, k, avg, weight, pow10).ratingChange >= 0
    ensures p.rank == n ==> ResultFor(p, n, k, avg, weight, pow10).ratingChange <= 0
  {
    var e := ExpectedScore(p.oldRating as real, avg, pow10);
    if p.rank == 1 {
      assert ActualScore(1, n) == 1.0;
      MulNonNegative(k * weight, 1.0 - e);
    } else if p.rank == n {
      assert ActualScore(n, n) == 0.0;
      MulNonNegative(k * weight, e);
      assert k * weight * (0.0 - e) == -(k * weight * e);
    }
  }

  lemma MulNonNegative(a: real, b: real)
    requires a >= 0.0 && b >= 0.0
    ensures a * b >= 0.0
  {
  }

  /** A lone participant rated 1500 in a competition of weight 1 gains 8:
      K = 16, expected 0.5, actual 1.0. */
  lemma SingleParticipantGainsEight(id: UserId, name: string, log2: real -> real, pow10: real -> Positive)
    requires Pow10Laws(pow10)
    ensures var rs := CompetitionRatings([Participant(id, name, 1500, 1)], 1.0, log2, pow10);
      && rs[0].newRating == 1508 && rs[0].ratingChange == 8
      && rs[0].actualScore == 1.0 && rs[0].expectedScore == 0.5
  {
    var ps := [Participant(id, name, 1500, 1)];
    assert SumOfRatings(ps) == 1500 by {
      assert ps[..0] == [];
    }
    assert AverageRating(ps) == 1500.0;
    assert (1500.0 - 1500.0) / 400.0 == 0.0;
    assert ExpectedScore(1500.0, 1500.0, pow10) == 0.5;
    assert RoundHalfEven(16.0 * 1.0 * (1.0 - 0.5)) == 8;
  }

  /** The floor: a participant at 5 whose weighted change rounds below -5
      ends at 0, not below. */
  lemma FloorAtZero(actual: real, expected: real, k: real, weight: real)
    requires RoundHalfEven(k * weight * (actual - expected)) < -5
    ensures NewRating(5, actual, expected, k, weight) == 0
  {
  }
}
