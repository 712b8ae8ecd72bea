/** Shared vocabulary: identifiers, optional values, results and integer rounding. */
module Common {
  /** Row identifiers (uuid / cuid strings in the database) are modelled as naturals. */
  type Id = nat

  /** Points in time, in milliseconds. */
  type Time = int

  datatype Option<+T> = None | Some(value: T)

  datatype Result<+T, +E> = Success(value: T) | Failure(error: E)

  function Max(a: int, b: int): int {
    if a >= b then a else b
  }

  function Min(a: int, b: int): int {
    if a <= b then a else b
  }

  /** `Math.round(n / d)` for a non-negative quotient: halves go up. */
  function RoundDiv(n: nat, d: nat): (r: nat)
    requires d > 0
  {
    (2 * n + d) / (2 * d)
  }

  /** The rounded quotient is within half a unit of the exact one. */
  lemma {:induction false} RoundDivError(n: nat, d: nat)
    requires d > 0
    ensures 2 * n - d < 2 * (RoundDiv(n, d) * d) <= 2 * n + d
  {
    var q := RoundDiv(n, d);
    var m := 2 * n + d;
    assert m == q * (2 * d) + m % (2 * d);
    assert q * (2 * d) == 2 * (q * d);
  }

  lemma {:induction false} MultiplesApart(a: int, b: int, d: nat)
    ensures a > b ==> a * d >= b * d + d
  {
    if a > b {
      var k: nat := a - b - 1;
      assert k * d >= 0;
      assert a * d == (k + b + 1) * d == k * d + b * d + d;
    }
  }

  /** A share n / d with n <= m * d never rounds above m. */
  lemma {:induction false} RoundDivAtMost(n: nat, d: nat, m: nat)
    requires d > 0
    requires n <= m * d
    ensures RoundDiv(n, d) <= m
  {
    RoundDivError(n, d);
    MultiplesApart(RoundDiv(n, d), m, d);
  }

  /** Rounding an exact multiple is exact. */
  lemma {:induction false} RoundDivExact(m: nat, d: nat)
    requires d > 0
    ensures RoundDiv(m * d, d) == m
  {
    var q := RoundDiv(m * d, d);
    RoundDivError(m * d, d);
    MultiplesApart(q, m, d);
    MultiplesApart(m, q, d);
  }
}
