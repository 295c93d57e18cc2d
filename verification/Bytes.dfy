/** Bytes and little-endian integers. */
module Bytes {
  type Byte = n: nat | n < 256

  function Power256(width: nat): (p: nat)
    ensures p > 0
  {
    if width == 0 then 1 else 256 * Power256(width - 1)
  }

  /** `to_le_bytes`. */
  function Le(n: nat, width: nat): (bytes: seq<Byte>)
    ensures |bytes| == width
  {
    if width == 0 then [] else [n % 256] + Le(n / 256, width - 1)
  }

  /** `from_le_bytes`. */
  function FromLe(bytes: seq<Byte>): nat {
    if bytes == [] then 0 else bytes[0] + 256 * FromLe(bytes[1..])
  }

  lemma {:induction false} LeRoundTrip(n: nat, width: nat)
    requires n < Power256(width)
    ensures FromLe(Le(n, width)) == n
  {
    if width > 0 {
      LeRoundTrip(n / 256, width - 1);
      assert Le(n, width)[1..] == Le(n / 256, width - 1);
    }
  }

  /** The bytes are the digits to the base 256, the lowest first. */
  lemma {:induction false} LeDigit(n: nat, width: nat, k: nat)
    requires k < width
    ensures Le(n, width)[k] == n / Power256(k) % 256
  {
    if k > 0 {
      LeDigit(n / 256, width - 1, k - 1);
      DivideTwice(n, Power256(k - 1));
    }
  }

  lemma DivideTwice(n: nat, b: nat)
    requires b > 0
    ensures n / 256 / b == n / (256 * b)
  {
    var q, r := n / 256 / b, n / 256 % b;
    assert n / 256 == q * b + r;
    assert n == 256 * (q * b + r) + n % 256;
    assert n == q * (256 * b) + (256 * r + n % 256);
    QuotientIs(n, 256 * b, q, 256 * r + n % 256);
  }

  lemma QuotientIs(n: nat, b: nat, q: nat, r: nat)
    requires b > 0 && n == q * b + r && r < b
    ensures n / b == q
  {
    var p := n / b;
    assert n == p * b + n % b;
    assert (q - p) * b == q * b - p * b == n % b - r;
    assert (p - q) * b == p * b - q * b == r - n % b;
    if p < q {
      Multiple(q - p, b);
    } else if q < p {
      Multiple(p - q, b);
    }
  }

  lemma Multiple(a: nat, b: nat)
    requires a >= 1
    ensures a * b >= b
  {
    assert a * b == b + (a - 1) * b;
  }
}
