/** Effort figures are decimals with two fractional digits (database columns
 *  `decimal(5,2)` and `decimal(7,2)`). The model holds them as integer
 *  hundredths of a person-day: 999.99 is 99999. A value arriving from a
 *  request may carry more digits; it is a `Decimal` until it is rounded. */
module Hundredths {
  import opened Optional

  /** The decimal `units / 10^scale`, as Ruby's `BigDecimal` holds it. */
  datatype Decimal = Decimal(units: int, scale: nat)

  /** 999.99, the largest value of a `decimal(5,2)` column. */
  const MAX_MAN_DAYS: int := 99999

  function Pow10(n: nat): (p: nat)
    ensures p >= 1
  {
    if n == 0 then 1 else 10 * Pow10(n - 1)
  }

  lemma {:induction false} Pow10Add(a: nat, b: nat)
    ensures Pow10(a + b) == Pow10(a) * Pow10(b)
  {
    if a > 0 {
      Pow10Add(a - 1, b);
    }
  }

  function Abs(x: int): nat
  {
    if x < 0 then -x else x
  }

  /** Rounding a magnitude `m` to a multiple of `p`, half up: the result
   *  `mag` is the nearest count of `p`s, and a tie goes up. */
  function RoundMagnitude(m: nat, p: nat): (mag: nat)
    requires p >= 1
    ensures 2 * Abs(mag * p - m) <= p
    ensures 2 * (m % p) == p ==> mag * p > m
  {
    var q, rem := m / p, m % p;
    assert m == q * p + rem;
    if 2 * rem >= p then
      assert (q + 1) * p == q * p + p;
      q + 1
    else q
  }

  /** `BigDecimal#round(2)`: the nearest hundredth, a tie rounded away from
   *  zero (ROUND_HALF_UP). */
  function Round2(x: Decimal): (r: int)
    ensures x.scale <= 2 ==> r == x.units * Pow10(2 - x.scale)
    ensures x.scale > 2 ==> 2 * Abs(r * Pow10(x.scale - 2) - x.units) <= Pow10(x.scale - 2)
    ensures x.scale > 2 && 2 * (Abs(x.units) % Pow10(x.scale - 2)) == Pow10(x.scale - 2) ==>
              Abs(r) * Pow10(x.scale - 2) > Abs(x.units)
    ensures x.units >= 0 ==> r >= 0
    ensures x.units <= 0 ==> r <= 0
  {
    if x.scale <= 2 then x.units * Pow10(2 - x.scale)
    else
      var p := Pow10(x.scale - 2);
      var mag: int := RoundMagnitude(Abs(x.units), p);
      if x.units < 0 then
        assert (-mag) * p == -(mag * p);
        -mag
      else mag
  }

  /** `x.round(2)`, with `nil` read as zero. */
  function RoundedOrZero(raw: Option<Decimal>): int
  {
    if raw.None? then 0 else Round2(raw.value)
  }

  /** What a `before_validation` normaliser stores: `nil` becomes 0, the value
   *  is rounded to hundredths, a negative result becomes 0 and one above `max`
   *  becomes `max`. */
  ghost predicate Normalized(raw: Option<Decimal>, max: int, v: int)
  {
    var r := RoundedOrZero(raw);
    (r < 0 ==> v == 0) && (0 <= r <= max ==> v == r) && (r > max ==> v == max)
  }

  /** The normalised value is unique and always passes the range validation
   *  `0 <= v <= max`. */
  lemma NormalizedInRange(raw: Option<Decimal>, max: int, v: int)
    requires max >= 0 && Normalized(raw, max, v)
    ensures 0 <= v <= max
    ensures forall w :: Normalized(raw, max, w) ==> w == v
  {
  }

  /** Normalising is idempotent: a stored value read back and saved again is
   *  left as it is. */
  lemma NormalizedStable(v: int, max: int)
    requires 0 <= v <= max
    ensures Normalized(Some(Decimal(v, 2)), max, v)
  {
  }

  /** When the rounded value exceeds the cap, the stored value is strictly
   *  below it: the stored figure under-reports. */
  lemma NormalizedUnderReports(raw: Option<Decimal>, max: int, v: int)
    requires max >= 0 && Normalized(raw, max, v) && RoundedOrZero(raw) > max
    ensures v < RoundedOrZero(raw)
  {
  }
}
