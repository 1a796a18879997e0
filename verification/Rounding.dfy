/** Rounding to the nearest whole number with ties to the even neighbour, and what becomes of a
    number of microseconds that is divided by a million in binary floating point (IEEE 754,
    double precision) and rounded to three decimals. */
module Rounding {

  /** The whole number nearest to n / d; a half goes to the even neighbour. */
  function RoundHalfEven(n: nat, d: nat): nat
    requires 0 < d
  {
    var q, r := n / d, n % d;
    if 2 * r < d || (2 * r == d && q % 2 == 0) then q else q + 1
  }

  lemma Product(a: int, b: int, c: int)
    requires a <= b && 0 <= c
    ensures a * c <= b * c
  {
  }

  /** Rounding moves a quotient by at most a half. */
  lemma RoundedNear(n: nat, d: nat)
    requires 0 < d
    ensures var q: int := RoundHalfEven(n, d); -(d as int) <= 2 * (q * d - n) <= d
  {
    var q := n / d;
    assert n == q * d + n % d;
    assert (q + 1) * d == q * d + d;
  }

  /** The rounded quotient stays at or below a limit exactly up to the tie above it, and on the
      tie itself exactly for an even limit. */
  lemma RoundedAtMost(n: nat, d: nat, limit: nat)
    requires 0 < d
    ensures RoundHalfEven(n, d) <= limit <==> 2 * n < (2 * limit + 1) * d || (2 * n == (2 * limit + 1) * d && limit % 2 == 0)
  {
    var q, r := n / d, n % d;
    assert n == q * d + r;
    assert (2 * limit + 1) * d == 2 * (limit * d) + d;
    if q < limit {
      Product(q + 1, limit, d);
      assert (q + 1) * d == q * d + d;
    } else if q > limit {
      Product(limit + 1, q, d);
      assert (limit + 1) * d == limit * d + d;
    }
  }

  // ---------- Doubles ----------

  function Power(k: nat): (p: nat)
    ensures 0 < p
  {
    if k == 0 then 1 else 2 * Power(k - 1)
  }

  const MILLION: nat := 1_000_000

  /** One more than the largest significand. */
  const SIGNIFICANDS: nat := 0x20_0000_0000_0000

  /** The binary places a double has for this many millionths: as many as its significand allows.
      Up to 2^53 seconds the places are not negative, and one millionth needs the most, 72. */
  function Places(millionths: nat, k: nat): nat {
    if k == 0 || millionths * Power(k) < SIGNIFICANDS * MILLION then k else Places(millionths, k - 1)
  }

  const MOST: nat := 72

  /** The nearest double, in units of its last place. */
  function Significand(millionths: nat): nat {
    hide Places, Power;
    RoundHalfEven(millionths * Power(Places(millionths, MOST)), MILLION)
  }

  /** round(millionths / 10**6, 3), in thousandths: the double is rounded, not the quotient. */
  function Thousandths(millionths: nat): nat {
    RoundHalfEven(1000 * Significand(millionths), Power(Places(millionths, MOST)))
  }

  lemma {:induction false} PowerDoubles(a: nat, b: nat)
    requires a <= b
    ensures Power(a) <= Power(b)
  {
    if a < b { PowerDoubles(a, b - 1); }
  }

  /** Where the last place is known to fit there are at least as many places. */
  lemma {:induction false} PlacesAtLeast(millionths: nat, k: nat, low: nat)
    requires low <= k && millionths * Power(low) < SIGNIFICANDS * MILLION
    ensures low <= Places(millionths, k)
  {
    if low < k { PlacesAtLeast(millionths, k - 1, low); }
  }

  /** Places are determined by where the significand ends up. */
  lemma {:induction false} PlacesAre(millionths: nat, k: nat, places: nat)
    requires places <= k
    requires millionths * Power(places) < SIGNIFICANDS * MILLION <= millionths * Power(places + 1)
    ensures Places(millionths, k) == places
  {
    if places < k {
      PowerDoubles(places + 1, k);
      Product(Power(places + 1), Power(k), millionths);
      PlacesAre(millionths, k - 1, places);
    }
  }

  // ---------- Thousandths against a whole limit ----------

  /** The double nearest to half a thousandth above the limit lies below it. Then it is rounded
      down. Whether it does depends on nothing but the places it has. */
  predicate TieDown(limit: nat) {
    Power(Places(limit * MILLION + 500, MOST)) % 2000 < 1000
  }

  /** The most millionths that round to no more than the limit. */
  function Grace(limit: nat): nat {
    limit * MILLION + if TieDown(limit) then 500 else 499
  }

  lemma {:induction false} PowerOfTwoOnly(k: nat)
    ensures Power(k) % 5 != 0
  {
    if k > 0 { PowerOfTwoOnly(k - 1); }
  }

  /** Away from the tie the double errs by less than the distance to it. */
  lemma OffTheTie(millionths: nat, limit: nat, p: nat, m: nat)
    requires var off := millionths - (limit * MILLION + 500); off * p < -500_000 || 500_000 < off * p
    requires 0 < p && m == RoundHalfEven(millionths * p, MILLION)
    ensures RoundHalfEven(1000 * m, p) <= limit * 1000 <==> millionths < limit * MILLION + 500
  {
    hide RoundHalfEven;
    var tie, off := 2000 * limit + 1, millionths - (limit * MILLION + 500);
    RoundedNear(millionths * p, MILLION);
    RoundedAtMost(1000 * m, p, limit * 1000);
    assert millionths * p == 500 * (tie * p) + off * p by { assert millionths == 500 * tie + off; }
    if off < 0 { Product(off, 0, p); } else { Product(0, off, p); }
  }

  lemma SameRemainder(limit: nat, p: nat)
    ensures ((2 * (limit * 1000) + 1) * p) % 2000 == p % 2000
    ensures (limit * MILLION + 500) * p == 500 * ((2 * (limit * 1000) + 1) * p)
  {
    var x := limit * p;
    assert (2 * (limit * 1000) + 1) * p == 2000 * x + p;
  }

  lemma TieRounds(b: nat)
    requires b % 2000 != 1000
    ensures 2000 * RoundHalfEven(500 * b, MILLION) <= b <==> b % 2000 < 1000
  {
    var q, r := b / 2000, b % 2000;
    assert b == 2000 * q + r;
    assert (500 * b) / MILLION == q && (500 * b) % MILLION == 500 * r;
  }

  lemma AgainstTie(limit: nat, p: nat, m: nat, b: nat)
    requires 0 < p && limit % 2 == 0 && b == (2 * limit + 1) * p && b % 2000 != 1000 && m == RoundHalfEven(500 * b, MILLION)
    ensures RoundHalfEven(1000 * m, p) <= limit <==> b % 2000 < 1000
  {
    hide RoundHalfEven;
    TieRounds(b);
    RoundedAtMost(1000 * m, p, limit);
  }

  lemma OnTheTie(limit: nat, p: nat, m: nat)
    requires 0 < p && p % 2000 != 1000 && m == RoundHalfEven((limit * MILLION + 500) * p, MILLION)
    ensures RoundHalfEven(1000 * m, p) <= limit * 1000 <==> p % 2000 < 1000
  {
    hide RoundHalfEven;
    SameRemainder(limit, p);
    AgainstTie(limit * 1000, p, m, (2 * (limit * 1000) + 1) * p);
  }

  /** With a limit below 2^33 the rounded value is at most the limit exactly up to half a
      thousandth beyond it; the half itself goes either way, as the limit has it. */
  lemma ThousandthsAtMost(millionths: nat, limit: nat)
    requires limit < 0x2_0000_0000
    ensures Thousandths(millionths) <= limit * 1000 <==> millionths <= Grace(limit)
  {
    var k := Places(millionths, MOST);
    var p, m, off := Power(k), Significand(millionths), millionths - (limit * MILLION + 500);
    hide RoundHalfEven, Places, Power;
    if off == 0 {
      PowerOfTwoOnly(k);
      OnTheTie(limit, p, m);
    } else {
      if millionths < 0x4_0000_0000 * MILLION { EnoughPlaces(millionths); }
      FarOff(off, p);
      OffTheTie(millionths, limit, p, m);
    }
  }

  lemma EnoughPlaces(millionths: nat)
    requires millionths < 0x4_0000_0000 * MILLION
    ensures Power(Places(millionths, MOST)) > 500_000
  {
    Nineteen();
    PlacesAtLeast(millionths, MOST, 19);
    PowerDoubles(19, Places(millionths, MOST));
  }

  lemma Nineteen()
    ensures Power(19) == 0x8_0000
  {
    assert Power(10) == 0x400;
  }

  lemma FarOff(off: int, p: nat)
    requires off != 0 && 0 < p && (p > 500_000 || off > 500_000)
    ensures off * p < -500_000 || 500_000 < off * p
  {
    if off < 0 { Product(off, -1, p); } else if p > 500_000 { Product(1, off, p); } else { Product(1, p, off); }
  }

  lemma TwiceProduct(a: nat, b: nat)
    ensures a * (2 * b) == 2 * (a * b)
  {
  }

  lemma {:induction false} PowersMultiply(a: nat, b: nat)
    ensures Power(a + b) == Power(a) * Power(b)
  {
    if b > 0 {
      PowersMultiply(a, b - 1);
      TwiceProduct(Power(a), Power(b - 1));
    }
  }

  lemma PowersUsed()
    ensures Power(44) == 0x1000_0000_0000 && Power(45) == 0x2000_0000_0000
    ensures Power(63) == 0x8000_0000_0000_0000 && Power(64) == 0x1_0000_0000_0000_0000
  {
    Nineteen();
    assert Power(6) == 64 && Power(7) == 128 && Power(0) == 1;
    hide Power;
    PowersMultiply(19, 19);
    PowersMultiply(38, 6);
    PowersMultiply(38, 7);
    PowersMultiply(44, 19);
    PowersMultiply(45, 19);
  }
}
