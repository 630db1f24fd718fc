/** Unsigned 64-bit arithmetic and sums over phase-time vectors.

    The program keeps every time in a `uint64`, whose addition wraps modulo
    2^64. The model keeps values as `nat` below `Modulus` and writes each
    wrapping addition out with `Add64`; exact (unbounded) sums are stated
    with `Sum` and `VecAdd` and related to the wrapped ones by the lemmas
    at the end of this module.
 */
module Arith {

  /** 2^64: `uint64` addition wraps modulo this value. */
  const Modulus: nat := 0x1_0000_0000_0000_0000

  /** 2^63: two values below it never wrap when added. */
  const Half: nat := 0x8000_0000_0000_0000

  predicate IsU64(x: nat) {
    x < Modulus
  }

  predicate AllU64(s: seq<nat>) {
    forall i :: 0 <= i < |s| ==> s[i] < Modulus
  }

  /** Go's `a + b` on two `uint64` operands. */
  function Add64(a: nat, b: nat): (r: nat)
    ensures r < Modulus
    ensures a + b < Modulus ==> r == a + b
  {
    (a + b) % Modulus
  }

  /** The exact sum of a vector. */
  function Sum(s: seq<nat>): nat
  {
    if |s| == 0 then 0 else s[0] + Sum(s[1..])
  }

  function Zeros(n: nat): (z: seq<nat>)
    ensures |z| == n
    ensures forall i :: 0 <= i < n ==> z[i] == 0
  {
    seq(n, _ => 0)
  }

  /** `p` padded with zeros up to length `width`. */
  function Pad(p: seq<nat>, width: nat): (q: seq<nat>)
    requires |p| <= width
    ensures |q| == width && q[..|p|] == p
    ensures forall i :: |p| <= i < width ==> q[i] == 0
  {
    p + Zeros(width - |p|)
  }

  /** Element-wise exact sum of two vectors of equal length. */
  function VecAdd(u: seq<nat>, v: seq<nat>): (w: seq<nat>)
    requires |u| == |v|
    ensures |w| == |u|
    ensures forall i :: 0 <= i < |w| ==> w[i] == u[i] + v[i]
  {
    seq(|u|, i requires 0 <= i < |u| => u[i] + v[i])
  }

  /** Every element reduced modulo 2^64. */
  function Wrap(s: seq<nat>): (w: seq<nat>)
    ensures |w| == |s| && AllU64(w)
    ensures forall i :: 0 <= i < |s| ==> w[i] == s[i] % Modulus
  {
    seq(|s|, i requires 0 <= i < |s| => s[i] % Modulus)
  }

  lemma {:induction false} SumAppend(a: seq<nat>, b: seq<nat>)
    ensures Sum(a + b) == Sum(a) + Sum(b)
  {
    if |a| == 0 {
      assert a + b == b;
    } else {
      assert (a + b)[1..] == a[1..] + b;
      SumAppend(a[1..], b);
    }
  }

  lemma {:induction false} SumZeros(n: nat)
    ensures Sum(Zeros(n)) == 0
  {
    if n > 0 {
      assert Zeros(n)[1..] == Zeros(n - 1);
      SumZeros(n - 1);
    }
  }

  lemma SumPad(p: seq<nat>, width: nat)
    requires |p| <= width
    ensures Sum(Pad(p, width)) == Sum(p)
  {
    SumAppend(p, Zeros(width - |p|));
    SumZeros(width - |p|);
  }

  /** Replacing one element changes the sum by exactly the difference. */
  lemma {:induction false} SumUpdate(s: seq<nat>, i: nat, v: nat)
    requires i < |s|
    ensures Sum(s[i := v]) + s[i] == Sum(s) + v
  {
    if i > 0 {
      assert s[i := v][1..] == s[1..][i - 1 := v];
      SumUpdate(s[1..], i - 1, v);
    }
  }

  lemma {:induction false} SumVecAdd(u: seq<nat>, v: seq<nat>)
    requires |u| == |v|
    ensures Sum(VecAdd(u, v)) == Sum(u) + Sum(v)
  {
    if |u| > 0 {
      assert VecAdd(u, v)[1..] == VecAdd(u[1..], v[1..]);
      SumVecAdd(u[1..], v[1..]);
    }
  }

  /** Adding a multiple of 2^64 does not change a value modulo 2^64. */
  lemma {:induction false} ModAddMultiple(a: nat, q: nat)
    ensures (a + q * Modulus) % Modulus == a % Modulus
  {
    if q > 0 {
      assert a + q * Modulus == (a + (q - 1) * Modulus) + Modulus;
      ModAddMultiple(a, q - 1);
    }
  }

  /** Reducing an operand first does not change a wrapped sum. */
  lemma ModAddCongruence(x: nat, y: nat)
    ensures (x % Modulus + y) % Modulus == (x + y) % Modulus
  {
    var q := x / Modulus;
    assert x == x % Modulus + q * Modulus;
    ModAddMultiple(x % Modulus + y, q);
  }

  /** Summing wrapped values and wrapping the result equals wrapping the exact sum. */
  lemma {:induction false} SumWrap(s: seq<nat>)
    ensures Sum(Wrap(s)) % Modulus == Sum(s) % Modulus
  {
    if |s| > 0 {
      assert Wrap(s)[1..] == Wrap(s[1..]);
      SumWrap(s[1..]);
      calc {
        Sum(Wrap(s)) % Modulus;
        (s[0] % Modulus + Sum(Wrap(s[1..]))) % Modulus;
        { ModAddCongruence(s[0], Sum(Wrap(s[1..]))); }
        (s[0] + Sum(Wrap(s[1..]))) % Modulus;
        { ModAddCongruence(Sum(Wrap(s[1..])), s[0]); }
        (Sum(Wrap(s[1..])) % Modulus + s[0]) % Modulus;
        (Sum(s[1..]) % Modulus + s[0]) % Modulus;
        { ModAddCongruence(Sum(s[1..]), s[0]); }
        Sum(s) % Modulus;
      }
    }
  }
}
