/** Rounding timestamps down to an interval, shared by snapshots and blobs. */
module Rounding {
  ghost predicate IsMultiple(n: int, unit: nat) {
    exists q :: n == q * unit
  }

  /** The greatest multiple of `multiple` that is not above `number`. */
  function RoundDown(number: nat, multiple: nat): (r: nat)
    requires multiple > 0
    ensures r <= number < r + multiple && IsMultiple(r, multiple)
  {
    assert number - number % multiple == (number / multiple) * multiple;
    number - number % multiple
  }

  lemma RoundDownUnique(number: nat, multiple: nat, r: nat)
    requires multiple > 0 && r <= number < r + multiple && IsMultiple(r, multiple)
    ensures r == RoundDown(number, multiple)
  {
    var s := RoundDown(number, multiple);
    var a :| r == a * multiple;
    var b :| s == b * multiple;
    if a < b {
      MultiplesApart(a, b, multiple);
    } else if b < a {
      MultiplesApart(b, a, multiple);
    }
  }

  /** Distinct multiples are at least one unit apart. */
  lemma MultiplesApart(a: int, b: int, unit: nat)
    requires a < b
    ensures a * unit + unit <= b * unit
  {
    var n := b - a - 1;
    assert b * unit == (a + 1 + n) * unit == a * unit + unit + n * unit;
  }

  lemma RoundDownMonotone(a: nat, b: nat, multiple: nat)
    requires multiple > 0 && a <= b
    ensures RoundDown(a, multiple) <= RoundDown(b, multiple)
  {
    var x :| RoundDown(a, multiple) == x * multiple;
    var y :| RoundDown(b, multiple) == y * multiple;
    if y < x {
      MultiplesApart(y, x, multiple);
    }
  }
}
