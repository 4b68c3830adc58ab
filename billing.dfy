/** The charge for a completed booking (app.py release_parking):
    `hours = max(1, int(seconds / 3600))` and `total_cost * hours`. */
module Billing {

  const SecondsPerHour: int := 3600

  /** Python's `int(a / b)` for b > 0: the quotient truncated toward zero
      (Dafny's `/` rounds toward minus infinity for negative a). */
  function TruncDiv(a: int, b: int): (q: int)
    requires 0 < b
    ensures 0 <= a ==> q * b <= a < (q + 1) * b
    ensures a < 0 ==> (q - 1) * b < a <= q * b
  {
    if 0 <= a then a / b else -((-a) / b)
  }

  /** The hours billed for a stay of `elapsed` seconds: whole hours, rounded
      down, with a minimum of one. */
  function BilledHours(elapsed: int): (h: int)
    ensures 1 <= h
    ensures SecondsPerHour <= elapsed ==> h * SecondsPerHour <= elapsed < (h + 1) * SecondsPerHour
    ensures elapsed < 2 * SecondsPerHour ==> h == 1
  {
    var t := TruncDiv(elapsed, SecondsPerHour);
    if t < 1 then 1 else t
  }

  /** A longer stay is never billed fewer hours. */
  lemma BilledHoursMonotone(a: int, b: int)
    requires a <= b
    ensures BilledHours(a) <= BilledHours(b)
  {
    if SecondsPerHour <= a {
      assert BilledHours(a) * SecondsPerHour <= a <= b < (BilledHours(b) + 1) * SecondsPerHour;
    }
  }

  /** Each further hour of stay adds exactly one billed hour once the first hour is over. */
  lemma BilledHoursStep(elapsed: int)
    requires SecondsPerHour <= elapsed
    ensures BilledHours(elapsed + SecondsPerHour) == BilledHours(elapsed) + 1
  {
    var h := BilledHours(elapsed);
    var h' := BilledHours(elapsed + SecondsPerHour);
    assert h * SecondsPerHour <= elapsed < (h + 1) * SecondsPerHour;
    assert h' * SecondsPerHour <= elapsed + SecondsPerHour < (h' + 1) * SecondsPerHour;
  }
}
