/**
  The rating exchange of one arena game (CalculateELO in internal/ssh/arena.go),
  over the reals.  The power function is a parameter, pinned down by its laws.
*/
module EloRating {
  const K_FACTOR := 32.0

  // ---- ten to the power of d/400 ----------------------------------------

  predicate Splits(p: int -> real, a: int, b: int) {
    p(a + b) == p(a) * p(b)
  }

  /** The laws that make p(d) ten to the power of d/400. */
  ghost predicate IsPower(p: int -> real) {
    && (forall d :: p(d) > 0.0)
    && p(400) == 10.0
    && (forall a, b :: Splits(p, a, b))
  }

  function Power(x: real, n: nat): real {
    if n == 0 then 1.0 else x * Power(x, n - 1)
  }

  function IntPower(x: int, n: nat): int {
    if n == 0 then 1 else x * IntPower(x, n - 1)
  }

  lemma Sum(p: int -> real, a: int, b: int, c: int)
    requires IsPower(p) && c == a + b
    ensures p(c) == p(a) * p(b)
  {
    assert Splits(p, a, b);
  }

  lemma PowerOfZero(p: int -> real)
    requires IsPower(p)
    ensures p(0) == 1.0
  {
    Sum(p, 0, 0, 0);
    CancelFactor(p(0), p(0));
  }

  lemma CancelFactor(x: real, y: real)
    requires x == x * y && x > 0.0
    ensures y == 1.0
  {
  }

  lemma PowerOfOpposite(p: int -> real, d: int)
    requires IsPower(p)
    ensures p(d) * p(-d) == 1.0
  {
    PowerOfZero(p);
    Sum(p, d, -d, 0);
  }

  lemma {:induction false} PowerOfMultiple(p: int -> real, d: int, n: nat)
    requires IsPower(p)
    ensures p(d * n) == Power(p(d), n)
  {
    if n == 0 {
      PowerOfZero(p);
    } else {
      PowerOfMultiple(p, d, n - 1);
      Sum(p, d, d * (n - 1), d * n);
    }
  }

  lemma Regroup(x: real, y: real, u: real, v: real)
    ensures (x * y) * (u * v) == (x * u) * (y * v)
  {
  }

  lemma {:induction false} PowerOfInteger(x: int, n: nat)
    ensures Power(x as real, n) == IntPower(x, n) as real
  {
    if n > 0 {
      PowerOfInteger(x, n - 1);
    }
  }

  lemma {:induction false} OddPower(x: int, n: nat)
    requires x % 2 == 1
    ensures IntPower(x, n) % 2 == 1
  {
    if n > 0 {
      OddPower(x, n - 1);
      OddTimesOdd(x, IntPower(x, n - 1));
    }
  }

  lemma OddTimesOdd(x: int, y: int)
    requires x % 2 == 1 && y % 2 == 1
    ensures (x * y) % 2 == 1
  {
    var i, j := x / 2, y / 2;
    assert x * y == 2 * (2 * i * j + i + j) + 1;
  }

  lemma EvenTimes(x: int, y: int)
    requires x % 2 == 0
    ensures (x * y) % 2 == 0
  {
    var i := x / 2;
    assert x * y == 2 * (i * y);
  }

  lemma {:induction false} PowerOfTen(p: int -> real, d: nat)
    requires IsPower(p)
    ensures p(400 * d) == IntPower(10, d) as real
  {
    if d == 0 {
      PowerOfZero(p);
    } else {
      PowerOfTen(p, d - 1);
      Sum(p, 400, 400 * (d - 1), 400 * d);
    }
  }

  /** If the power is a ratio, its n-th power is the ratio of the n-th powers. */
  lemma {:induction false} RatioOfPowers(p: int -> real, d: int, a: int, b: int, n: nat)
    requires IsPower(p) && p(d) * b as real == a as real
    ensures p(d * n) * IntPower(b, n) as real == IntPower(a, n) as real
  {
    if n == 0 {
      PowerOfZero(p);
    } else {
      var m := n - 1;
      RatioOfPowers(p, d, a, b, m);
      Sum(p, d, d * m, d * n);
      NextPower(p(d), p(d * m), a, b, IntPower(a, m), IntPower(b, m));
    }
  }

  lemma NextPower(x: real, y: real, a: int, b: int, u: int, v: int)
    requires x * b as real == a as real && y * v as real == u as real
    ensures (x * y) * (b * v) as real == (a * u) as real
  {
    IntegerProduct(a, u);
    IntegerProduct(b, v);
    Regroup(x, y, b as real, v as real);
  }

  lemma IntegerProduct(x: int, y: int)
    ensures (x * y) as real == x as real * y as real
  {
  }

  /** No positive number of rating points makes the power a ratio of odd numbers:
      its 400th power would be, too, but is a power of ten and so even. */
  lemma NoOddRatio(p: int -> real, d: nat, a: int, b: int)
    requires IsPower(p) && d > 0
    requires a % 2 == 1 && b % 2 == 1
    ensures p(d) * b as real != a as real
  {
    if p(d) * b as real == a as real {
      var n := 400;
      RatioOfPowers(p, d, a, b, n);
      PowerOfTen(p, d);
      assert d * n == 400 * d;
      OddPower(a, n);
      EvenTimes(10, IntPower(10, d - 1));
      EvenIsNotOdd(IntPower(10, d), IntPower(b, n), IntPower(a, n));
    }
  }

  lemma EvenIsNotOdd(x: int, y: int, z: int)
    requires x % 2 == 0 && z % 2 == 1
    ensures x as real * y as real != z as real
  {
    EvenTimes(x, y);
    IntegerProduct(x, y);
  }

  // ---- one exchange -----------------------------------------------------

  /** Nearest integer, halves away from zero. */
  function Round(x: real): int {
    if x >= 0.0 then (x + 0.5).Floor else -((0.5 - x).Floor)
  }

  /** What a player `d` points below the opponent is expected to score. */
  function Expected(p: int -> real, d: int): real
    requires p(d) > 0.0
  {
    1.0 / (1.0 + p(d))
  }

  function CalculateELO(p: int -> real, ratingA: int, ratingB: int, result: real): (int, int)
    requires p(ratingB - ratingA) > 0.0 && p(ratingA - ratingB) > 0.0
  {
    var expectedA := Expected(p, ratingB - ratingA);
    var expectedB := Expected(p, ratingA - ratingB);
    var newA := ratingA as real + K_FACTOR * (result - expectedA);
    var newB := ratingB as real + K_FACTOR * ((1.0 - result) - expectedB);
    (Round(newA), Round(newB))
  }

  lemma Reciprocals(x: real, y: real)
    requires x > 0.0 && y > 0.0 && x * y == 1.0
    ensures 1.0 / (1.0 + x) + 1.0 / (1.0 + y) == 1.0
  {
    var u, v := 1.0 / (1.0 + x), 1.0 / (1.0 + y);
    assert u * (1.0 + x) == 1.0 && v * (1.0 + y) == 1.0;
    assert (1.0 + x) * (1.0 + y) == (1.0 + x) + (1.0 + y);
    assert (u + v) * ((1.0 + x) * (1.0 + y)) == (u * (1.0 + x)) * (1.0 + y) + (v * (1.0 + y)) * (1.0 + x);
    CancelRight(u + v, (1.0 + x) * (1.0 + y));
  }

  lemma CancelRight(x: real, y: real)
    requires x * y == y && y > 0.0
    ensures x == 1.0
  {
  }

  /** The two players expect to share exactly one point. */
  lemma ExpectationsShareAPoint(p: int -> real, d: int)
    requires IsPower(p)
    ensures Expected(p, d) + Expected(p, -d) == 1.0
  {
    PowerOfOpposite(p, d);
    Reciprocals(p(d), p(-d));
  }

  /** Halfway between two integers. */
  predicate Half(x: real) {
    (x + 0.5).Floor as real == x + 0.5
  }

  lemma RoundFromInteger(n: int, x: real)
    ensures Round(n as real + x) == n + if n as real + x >= 0.0 then (x + 0.5).Floor else -((0.5 - x).Floor)
  {
    var y := n as real + x;
    assert (y + 0.5).Floor == n + (x + 0.5).Floor;
    assert (0.5 - y).Floor == (0.5 - x).Floor - n;
  }

  lemma FloorOfOpposite(x: real)
    ensures (0.5 - x).Floor == (if Half(x) then 1 else 0) - (x + 0.5).Floor
  {
  }

  /** What rounding does to two ratings that move by the same amount in opposite
      directions: their sum is kept unless the amount lies halfway between
      integers and both end up on the same side of zero; then it is out by one. */
  lemma RoundingDriftIff(a: int, b: int, delta: real)
    ensures var drift := Round(a as real + delta) + Round(b as real - delta) - a - b;
      && -1 <= drift <= 1
      && (drift == 1 <==> Half(delta) && a as real + delta >= 0.0 && b as real - delta >= 0.0)
      && (drift == -1 <==> Half(delta) && a as real + delta < 0.0 && b as real - delta < 0.0)
  {
    var opposite := -delta;
    RoundFromInteger(a, delta);
    RoundFromInteger(b, opposite);
    assert b as real + opposite == b as real - delta;
    assert (opposite + 0.5).Floor == (0.5 - delta).Floor && (0.5 - opposite).Floor == (delta + 0.5).Floor;
    FloorOfOpposite(delta);
  }

  /** A draw, a win or a loss. */
  predicate Outcome(result: real) {
    result == 0.0 || result == 0.5 || result == 1.0
  }

  lemma ClearDenominator(e: real, x: real, c: real)
    requires x > 0.0 && e == 1.0 / (1.0 + x) && 64.0 * e == c
    ensures x * c == 64.0 - c
  {
    var y := 1.0 + x;
    assert e * y == 1.0;
    assert c * y == 64.0 * (e * y);
    assert x * c == c * y - c;
  }

  lemma TwiceAHalf(result: real, e: real) returns (j: int)
    requires Outcome(result) && Half(32.0 * (result - e))
    ensures 64.0 * e == (2 * j + 1) as real
  {
    var whole: int := if result == 0.0 then 0 else if result == 0.5 then 16 else 32;
    j := whole - (32.0 * (result - e) + 0.5).Floor;
  }

  /** A change that lies halfway makes the power a ratio of odd numbers. */
  lemma HalfIsOddRatio(p: int -> real, d: int, result: real) returns (j: int)
    requires p(d) > 0.0 && Outcome(result) && Half(K_FACTOR * (result - Expected(p, d)))
    ensures p(d) * (2 * j + 1) as real == (63 - 2 * j) as real
  {
    j := TwiceAHalf(result, Expected(p, d));
    ClearDenominator(Expected(p, d), p(d), (2 * j + 1) as real);
  }

  /** No change of rating lies halfway between two integers. */
  lemma NeverHalf(p: int -> real, d: int, result: real)
    requires IsPower(p) && Outcome(result)
    ensures !Half(K_FACTOR * (result - Expected(p, d)))
  {
    if Half(K_FACTOR * (result - Expected(p, d))) {
      var j := HalfIsOddRatio(p, d, result);
      if d > 0 {
        NoOddRatio(p, d, 63 - 2 * j, 2 * j + 1);
      } else if d < 0 {
        PowerOfOpposite(p, d);
        OppositeRatio(p(d), p(-d), (2 * j + 1) as real, (63 - 2 * j) as real);
        NoOddRatio(p, -d, 2 * j + 1, 63 - 2 * j);
      } else {
        PowerOfZero(p);
      }
      assert false;
    }
  }

  lemma OppositeRatio(x: real, y: real, b: real, a: real)
    requires x * y == 1.0 && x * b == a
    ensures y * a == b
  {
    assert y * (x * b) == (x * y) * b;
  }

  /** Whatever the ratings and the result, what one player gains the other loses. */
  lemma ExchangeConserves(p: int -> real, ratingA: int, ratingB: int, result: real)
    requires IsPower(p) && Outcome(result)
    ensures var (newA, newB) := CalculateELO(p, ratingA, ratingB, result);
      newA + newB == ratingA + ratingB
  {
    var d := ratingB - ratingA;
    assert ratingA - ratingB == -d;
    ExpectationsShareAPoint(p, d);
    NeverHalf(p, d, result);
    RoundingDriftIff(ratingA, ratingB, K_FACTOR * (result - Expected(p, d)));
  }

  /** What a winner `lead` points ahead of the loser takes from that loser. */
  function Gain(p: int -> real, lead: int): int
    requires p(lead) > 0.0
  {
    Round(K_FACTOR * Expected(p, lead))
  }

  lemma RoundGain(winner: int, expected: real, opposite: real)
    requires expected + opposite == 1.0 && 0.0 < opposite < 1.0 && !Half(K_FACTOR * (1.0 - expected))
    ensures Round(winner as real + K_FACTOR * (1.0 - expected)) == winner + Round(K_FACTOR * opposite)
    ensures 0 <= Round(K_FACTOR * opposite) <= 32
  {
    var delta := K_FACTOR * opposite;
    assert K_FACTOR * (1.0 - expected) == delta;
    RoundFromInteger(winner, delta);
    FloorOfOpposite(delta);
  }

  lemma WinnerGains(p: int -> real, winner: int, loser: int)
    requires IsPower(p)
    ensures 0 <= Gain(p, winner - loser) <= 32
    ensures CalculateELO(p, winner, loser, 1.0).0 == winner + Gain(p, winner - loser)
  {
    var d := loser - winner;
    assert winner - loser == -d;
    ExpectationsShareAPoint(p, d);
    NeverHalf(p, d, 1.0);
    ExpectedInRange(p, -d);
    RoundGain(winner, Expected(p, d), Expected(p, -d));
  }

  /** A win takes between 0 and 32 points from the loser. */
  lemma WinTakes(p: int -> real, winner: int, loser: int)
    requires IsPower(p)
    ensures 0 <= Gain(p, winner - loser) <= 32
    ensures CalculateELO(p, winner, loser, 1.0)
      == (winner + Gain(p, winner - loser), loser - Gain(p, winner - loser))
  {
    WinnerGains(p, winner, loser);
    ExchangeConserves(p, winner, loser, 1.0);
  }

  lemma ExpectedInRange(p: int -> real, d: int)
    requires p(d) > 0.0
    ensures 0.0 < Expected(p, d) < 1.0
  {
  }

  lemma Nearest(rating: int, delta: real)
    requires !Half(delta)
    ensures -0.5 < Round(rating as real + delta) as real - (rating as real + delta) < 0.5
  {
    RoundFromInteger(rating, delta);
    FloorOfOpposite(delta);
  }

  /** Whatever the result, both new ratings are the integers nearest to the rule:
      32 times the result less its expectation, one over one plus ten to the power
      of the opponent's lead over 400. */
  lemma NewRatingsNearest(p: int -> real, ratingA: int, ratingB: int, result: real)
    requires IsPower(p) && Outcome(result)
    ensures var (newA, newB) := CalculateELO(p, ratingA, ratingB, result);
      var exactA := ratingA as real + 32.0 * (result - 1.0 / (1.0 + p(ratingB - ratingA)));
      && -0.5 < newA as real - exactA < 0.5
      && newB == ratingA + ratingB - newA
  {
    NeverHalf(p, ratingB - ratingA, result);
    Nearest(ratingA, K_FACTOR * (result - Expected(p, ratingB - ratingA)));
    ExchangeConserves(p, ratingA, ratingB, result);
  }

  // ---- how much a win is worth ------------------------------------------

  lemma {:induction false} PowerOfSmall(x: real, n: nat)
    requires 0.0 < x <= 1.0
    ensures 0.0 < Power(x, n) <= 1.0
  {
    if n > 0 {
      PowerOfSmall(x, n - 1);
      ProductMonotone(x, 1.0, Power(x, n - 1), 1.0);
    }
  }

  lemma {:induction false} PowerMonotone(x: real, y: real, n: nat)
    requires 0.0 < x <= y
    ensures 0.0 < Power(x, n) <= Power(y, n)
  {
    if n > 0 {
      PowerMonotone(x, y, n - 1);
      ProductMonotone(x, y, Power(x, n - 1), Power(y, n - 1));
    }
  }

  lemma ProductMonotone(x: real, y: real, u: real, v: real)
    requires 0.0 < x <= y && 0.0 < u <= v
    ensures 0.0 < x * u <= y * v
  {
    assert x * u <= y * u <= y * v;
  }

  lemma OneMorePoint(p: int -> real)
    requires IsPower(p)
    ensures p(1) > 1.0
  {
    var n := 400;
    PowerOfMultiple(p, 1, n);
    if p(1) <= 1.0 {
      PowerOfSmall(p(1), n);
    }
  }

  lemma PowerGrows(p: int -> real, d: int, e: int)
    requires IsPower(p) && d <= e
    ensures p(d) <= p(e)
  {
    OneMorePoint(p);
    PowerOfMultiple(p, 1, e - d);
    PowerMonotone(1.0, p(1), e - d);
    PowerOfOne(e - d);
    Sum(p, d, e - d, e);
    ProductMonotone(p(d), p(d), 1.0, p(e - d));
  }

  lemma {:induction false} PowerOfOne(n: nat)
    ensures Power(1.0, n) == 1.0
  {
    if n > 0 {
      PowerOfOne(n - 1);
    }
  }

  /** The further ahead the winner was, the less the win is worth. */
  lemma GainShrinksWithLead(p: int -> real, lead: int, further: int)
    requires IsPower(p) && lead <= further
    ensures Gain(p, further) <= Gain(p, lead)
  {
    PowerGrows(p, lead, further);
    ReciprocalShrinks(1.0 + p(lead), 1.0 + p(further));
  }

  lemma ReciprocalShrinks(x: real, y: real)
    requires 0.0 < x <= y
    ensures 1.0 / y <= 1.0 / x
  {
  }

  /** An even game is worth 16 points, a win by a favourite 400 ahead 3, and an
      upset 400 behind 29. */
  lemma GainAtLandmarks(p: int -> real)
    requires IsPower(p)
    ensures Gain(p, 0) == 16 && Gain(p, 400) == 3 && Gain(p, -400) == 29
  {
    PowerOfZero(p);
    PowerOfOpposite(p, 400);
  }

  lemma PowerOver(p: int -> real, d: int, x: int, n: nat)
    requires IsPower(p) && 0 < x && p(d) >= x as real
    ensures p(d * n) >= IntPower(x, n) as real
  {
    PowerOfMultiple(p, d, n);
    PowerMonotone(x as real, p(d), n);
    PowerOfInteger(x, n);
  }

  lemma PowerOf10000(p: int -> real)
    requires IsPower(p)
    ensures p(10000) == 10000000000000000000000000.0
  {
    var n := 5;
    PowerOfMultiple(p, 400, n);
    assert Power(10.0, 5) == 100000.0;
    PowerOfMultiple(p, 2000, n);
    assert Power(100000.0, 5) == 10000000000000000000000000.0;
  }

  /** Were it 63 or more, its 14th power would exceed 10^25 by a factor over 1.55,
      whose sixth power is over 10. */
  lemma PowerOf719(p: int -> real)
    requires IsPower(p)
    ensures p(719) < 63.0
  {
    if p(719) >= 63.0 {
      PowerOver(p, 719, 63, 7);
      assert IntPower(63, 7) == 3938980639167;
      PowerOver(p, 5033, 3938980639167, 2);
      PowerOf10000(p);
      Sum(p, 10000, 66, 10066);
      assert p(66) > 1.55;
      var n := 6;
      PowerOfMultiple(p, 66, n);
      PowerMonotone(1.55, p(66), n);
      assert Power(1.55, 6) > 10.0;
      PowerGrows(p, 396, 400);
      assert false;
    }
  }

  lemma PowerOf720(p: int -> real)
    requires IsPower(p)
    ensures p(720) > 63.0
  {
    var n, m := 5, 9;
    PowerOfMultiple(p, 720, n);
    PowerOfMultiple(p, 400, m);
    PowerOfInteger(10, m);
    PowerOfInteger(63, n);
    assert IntPower(63, 5) < IntPower(10, 9);
    if p(720) <= 63.0 {
      PowerMonotone(p(720), 63.0, n);
    }
  }

  /** A win is worth nothing exactly when the winner was 720 points ahead or more. */
  lemma GainVanishesIff(p: int -> real, lead: int)
    requires IsPower(p)
    ensures Gain(p, lead) == 0 <==> lead >= 720
  {
    if lead >= 720 {
      PowerOf720(p);
      PowerGrows(p, 720, lead);
    } else {
      PowerOf719(p);
      PowerGrows(p, lead, 719);
    }
    GainVanishesAbove(p(lead));
  }

  lemma GainVanishesAbove(x: real)
    requires x > 0.0
    ensures x < 63.0 ==> K_FACTOR * (1.0 / (1.0 + x)) > 0.5
    ensures x > 63.0 ==> 0.0 < K_FACTOR * (1.0 / (1.0 + x)) < 0.5
  {
  }
}
