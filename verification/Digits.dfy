/** The digits of written numbers. */
module Digits {
  import opened ByteCodec

  lemma OnlyZero(d: nat, x: int)
    requires 0 - d < d * x < d
    ensures x == 0
  {
  }

  lemma QuotientUnique(n: nat, d: nat, q: nat, r: nat)
    requires 0 <= r < d && n == d * q + r
    ensures n / d == q
  {
    var e, f := n / d, n % d;
    assert d * (e - q) == r - f;
    assert 0 - d < d * (e - q) < d;
    OnlyZero(d, e - q);
  }

  lemma NestedQuotient(n: nat, p: nat)
    requires p > 0
    ensures n / 256 / p == n / (256 * p)
  {
    var m, q := n / 256, n / 256 / p;
    var r := n - 256 * p * q;
    assert m == p * q + m % p && n == 256 * m + n % 256;
    assert r == 256 * (m % p) + n % 256;
    assert 0 <= r < 256 * p;
    QuotientUnique(n, 256 * p, q, r);
  }

  /** The digits of the written number, most significant first. */
  lemma {:induction false} BigEndianDigits(n: nat, width: nat, i: nat)
    requires i < width
    ensures BigEndian(n, width)[i] == n / Pow256(width - 1 - i) % 256
  {
    if i < width - 1 {
      BigEndianDigits(n / 256, width - 1, i);
      NestedQuotient(n, Pow256(width - 2 - i));
    }
  }
}
