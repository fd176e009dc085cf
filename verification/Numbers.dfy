/** Bytes, powers and sums that several modules share. */
module Numbers {

  type Byte = x: int | 0 <= x < 256

  function Zeros(n: nat): (z: seq<Byte>)
    ensures |z| == n && forall i :: 0 <= i < n ==> z[i] == 0
  {
    seq(n, _ => 0)
  }

  function Pow2(n: nat): (p: nat)
    ensures p > 0
  {
    if n == 0 then 1 else 2 * Pow2(n - 1)
  }

  function Pow256(n: nat): (p: nat)
    ensures p > 0
  {
    if n == 0 then 1 else 256 * Pow256(n - 1)
  }

  function ByteSum(s: seq<Byte>): nat {
    if s == [] then 0 else ByteSum(s[..|s| - 1]) + s[|s| - 1]
  }

  lemma MulStep(il: int, q: int, q': int)
    requires 0 < il && q < q'
    ensures il * q + il <= il * q'
  {
    assert il * (q + 1) <= il * q';
  }

  /** Quotient and remainder are determined by the number. */
  lemma EuclidUnique(il: int, q: int, m: int, q': int, m': int)
    requires 0 <= m < il && 0 <= m' < il && il * q + m == il * q' + m'
    ensures q == q' && m == m'
  {
    if q < q' {
      MulStep(il, q, q');
    } else if q' < q {
      MulStep(il, q', q);
    }
  }
}
