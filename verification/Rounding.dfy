/** Exact counterparts of the numeric helpers of the gameplay analyzer. */
module Rounding {
  function Max(x: real, y: real): real {
    if x > y then x else y
  }

  function Min(x: real, y: real): real {
    if x < y then x else y
  }

  function Abs(x: real): real {
    if x < 0.0 then -x else x
  }

  function Clamp01(x: real): real {
    if x < 0.0 then 0.0 else if x > 1.0 then 1.0 else x
  }

  /** The nearest integer, halves away from zero. */
  function Nearest(x: real): int {
    if x >= 0.0 then (x + 0.5).Floor else -(-x + 0.5).Floor
  }

  /** Seconds rounded to whole milliseconds. */
  function Round3(x: real): real {
    Nearest(x * 1000.0) as real / 1000.0
  }

  function Round4(x: real): real {
    Nearest(x * 10000.0) as real / 10000.0
  }

  ghost predicate WholeMilliseconds(x: real) {
    Round3(x) == x
  }

  lemma NearestIsMonotone(x: real, y: real)
    requires x <= y
    ensures Nearest(x) <= Nearest(y)
    ensures Abs(Nearest(x) as real - x) <= 0.5
  {
  }

  /** Halves go away from zero. */
  lemma NearestOfHalf(n: nat)
    ensures Nearest(n as real + 0.5) == n + 1 && Nearest(-(n as real + 0.5)) == -(n + 1)
  {
  }

  lemma NearestOfInteger(n: int)
    ensures Nearest(n as real) == n
  {
  }

  lemma Round3Laws(x: real, y: real)
    ensures x <= y ==> Round3(x) <= Round3(y)
    ensures Abs(Round3(x) - x) <= 0.0005
    ensures WholeMilliseconds(Round3(x))
    ensures 0.0 <= x ==> 0.0 <= Round3(x)
  {
    if x <= y {
      NearestIsMonotone(x * 1000.0, y * 1000.0);
    }
    NearestIsMonotone(x * 1000.0, x * 1000.0);
    assert Round3(x) * 1000.0 == Nearest(x * 1000.0) as real;
    NearestOfInteger(Nearest(x * 1000.0));
  }

  /** Rounding to four digits keeps order and the unit range. */
  lemma Round4Laws(x: real, y: real)
    ensures x <= y ==> Round4(x) <= Round4(y)
    ensures Abs(Round4(x) - x) <= 0.00005
    ensures Round4(0.0) == 0.0 && Round4(1.0) == 1.0
  {
    if x <= y {
      NearestIsMonotone(x * 10000.0, y * 10000.0);
    }
    NearestIsMonotone(x * 10000.0, x * 10000.0);
    NearestOfInteger(0);
    NearestOfInteger(10000);
  }

  /** Whole milliseconds stay whole when shifted by whole seconds. */
  lemma WholeMillisecondsShift(x: real, n: int)
    requires WholeMilliseconds(x)
    ensures WholeMilliseconds(x + n as real)
    ensures WholeMilliseconds(0.0)
  {
    var k := Nearest(x * 1000.0);
    assert x * 1000.0 == k as real;
    assert (x + n as real) * 1000.0 == (k + 1000 * n) as real;
    NearestOfInteger(k + 1000 * n);
    NearestOfInteger(0);
  }
}
