/**
  Fixed-length bit vectors, and sums over all of them.  A vector of length n
  labels a basis state of n modes; one of length 2n labels a Majorana monomial.
*/
module Bits {
  import Linear

  type Bits = seq<bool>

  function Xor(a: Bits, b: Bits): (r: Bits)
    requires |a| == |b|
    ensures |r| == |a| && forall i | 0 <= i < |a| :: r[i] == (a[i] != b[i])
  {
    seq(|a|, i requires 0 <= i < |a| => a[i] != b[i])
  }

  function Zero(n: nat): (r: Bits)
    ensures |r| == n && forall i | 0 <= i < n :: !r[i]
  {
    seq(n, _ => false)
  }

  lemma XorTwice(a: Bits, b: Bits)
    requires |a| == |b|
    ensures Xor(Xor(a, b), b) == a && Xor(b, Xor(b, a)) == a
    ensures Xor(a, b) == Xor(b, a)
  {
  }

  lemma XorAssociative(a: Bits, b: Bits, c: Bits)
    requires |a| == |b| == |c|
    ensures Xor(Xor(a, b), c) == Xor(a, Xor(b, c))
  {
  }

  /** The number of set bits among the first `k`. */
  function Ones(a: Bits, k: nat): (r: nat)
    requires k <= |a|
    ensures r <= k
  {
    if k == 0 then 0 else Ones(a, k - 1) + if a[k - 1] then 1 else 0
  }

  /** The number of common set bits among the first `k`. */
  function Shared(a: Bits, b: Bits, k: nat): (r: nat)
    requires k <= |a| && k <= |b|
    ensures r <= Ones(a, k) && r <= Ones(b, k)
  {
    if k == 0 then 0 else Shared(a, b, k - 1) + if a[k - 1] && b[k - 1] then 1 else 0
  }

  lemma {:induction false} OnesOfXor(a: Bits, b: Bits, k: nat)
    requires |a| == |b| && k <= |a|
    ensures Ones(Xor(a, b), k) + 2 * Shared(a, b, k) == Ones(a, k) + Ones(b, k)
  {
    if k == 0 {
    } else {
      OnesOfXor(a, b, k - 1);
    }
  }

  // ---- sums over all vectors of length n

  /** The sum of f over all extensions of `p` to length n. */
  ghost function SumFrom(p: Bits, n: nat, f: Bits -> real): real
    requires |p| <= n
    decreases n - |p|
  {
    if |p| == n then f(p) else SumFrom(p + [false], n, f) + SumFrom(p + [true], n, f)
  }

  ghost function SumAll(n: nat, f: Bits -> real): real {
    SumFrom([], n, f)
  }

  lemma {:induction false} SumSame(p: Bits, n: nat, f: Bits -> real, g: Bits -> real)
    requires |p| <= n && forall x | |x| == n :: f(x) == g(x)
    ensures SumFrom(p, n, f) == SumFrom(p, n, g)
    decreases n - |p|
  {
    if |p| == n {
    } else {
      SumSame(p + [false], n, f, g);
      SumSame(p + [true], n, f, g);
    }
  }

  lemma {:induction false} SumPlus(p: Bits, n: nat, h: Bits -> real, f: Bits -> real, g: Bits -> real)
    requires |p| <= n && forall x | |x| == n :: h(x) == f(x) + g(x)
    ensures SumFrom(p, n, h) == SumFrom(p, n, f) + SumFrom(p, n, g)
    decreases n - |p|
  {
    if |p| == n {
    } else {
      SumPlus(p + [false], n, h, f, g);
      SumPlus(p + [true], n, h, f, g);
    }
  }

  lemma {:induction false} SumScaled(p: Bits, n: nat, h: Bits -> real, a: real, f: Bits -> real)
    requires |p| <= n && forall x | |x| == n :: h(x) == a * f(x)
    ensures SumFrom(p, n, h) == a * SumFrom(p, n, f)
    decreases n - |p|
  {
    if |p| == n {
    } else {
      SumScaled(p + [false], n, h, a, f);
      SumScaled(p + [true], n, h, a, f);
      Linear.Distribute(a, SumFrom(p + [false], n, f), SumFrom(p + [true], n, f));
    }
  }

  lemma {:induction false} SumAtMost(p: Bits, n: nat, f: Bits -> real, g: Bits -> real)
    requires |p| <= n && forall x | |x| == n :: f(x) <= g(x)
    ensures SumFrom(p, n, f) <= SumFrom(p, n, g)
    decreases n - |p|
  {
    if |p| == n {
    } else {
      SumAtMost(p + [false], n, f, g);
      SumAtMost(p + [true], n, f, g);
    }
  }

  lemma {:induction false} SumOfZero(p: Bits, n: nat, f: Bits -> real)
    requires |p| <= n && forall x | |x| == n && p <= x :: f(x) == 0.0
    ensures SumFrom(p, n, f) == 0.0
    decreases n - |p|
  {
    if |p| == n {
    } else {
      SumOfZero(p + [false], n, f);
      SumOfZero(p + [true], n, f);
    }
  }

  /** Relabelling every vector by a fixed Xor permutes the summands. */
  lemma {:induction false} SumFromXor(p: Bits, n: nat, f: Bits -> real, g: Bits -> real, c: Bits)
    requires |p| <= n == |c| && forall x | |x| == n :: g(x) == f(Xor(x, c))
    ensures SumFrom(p, n, g) == SumFrom(Xor(p, c[..|p|]), n, f)
    decreases n - |p|
  {
    hide Xor;
    var k := |p|;
    var p' := Xor(p, c[..k]);
    if k == n {
      assert c[..k] == c;
    } else {
      SumFromXor(p + [false], n, f, g, c);
      SumFromXor(p + [true], n, f, g, c);
      XorAppend(p, false, c);
      XorAppend(p, true, c);
    }
  }

  lemma XorAppend(p: Bits, v: bool, c: Bits)
    requires |p| < |c|
    ensures Xor(p + [v], c[..|p| + 1]) == Xor(p, c[..|p|]) + [v != c[|p|]]
  {
  }

  lemma SumXor(n: nat, f: Bits -> real, g: Bits -> real, c: Bits)
    requires |c| == n && forall x | |x| == n :: g(x) == f(Xor(x, c))
    ensures SumAll(n, g) == SumAll(n, f)
  {
    SumFromXor([], n, f, g, c);
    assert Xor([], c[..0]) == [];
  }

  /** Changing one summand changes the sum by as much. */
  lemma {:induction false} SumFromChange(p: Bits, n: nat, f: Bits -> real, g: Bits -> real, x: Bits)
    requires |p| <= n == |x| && forall y | |y| == n && y != x :: g(y) == f(y)
    ensures SumFrom(p, n, g) == SumFrom(p, n, f) + if p <= x then g(x) - f(x) else 0.0
    decreases n - |p|
  {
    if |p| == n {
      assert p <= x <==> p == x;
    } else {
      SumFromChange(p + [false], n, f, g, x);
      SumFromChange(p + [true], n, f, g, x);
      if p <= x {
        assert p + [x[|p|]] <= x && !(p + [!x[|p|]] <= x);
      }
    }
  }

  lemma SumChange(n: nat, f: Bits -> real, g: Bits -> real, x: Bits)
    requires |x| == n && forall y | |y| == n && y != x :: g(y) == f(y)
    ensures SumAll(n, g) == SumAll(n, f) + g(x) - f(x)
  {
    SumFromChange([], n, f, g, x);
  }

  // ---- the same facts for sums over everything, with the combined summand named

  ghost function PlusOf(f: Bits -> real, g: Bits -> real): Bits -> real { x => f(x) + g(x) }

  ghost function ScaledBy(a: real, f: Bits -> real): Bits -> real { x => a * f(x) }

  lemma TotalSame(n: nat, f: Bits -> real, g: Bits -> real)
    requires forall x | |x| == n :: f(x) == g(x)
    ensures SumAll(n, f) == SumAll(n, g)
  {
    SumSame([], n, f, g);
  }

  lemma TotalPlus(n: nat, f: Bits -> real, g: Bits -> real)
    ensures SumAll(n, PlusOf(f, g)) == SumAll(n, f) + SumAll(n, g)
  {
    SumPlus([], n, PlusOf(f, g), f, g);
  }

  lemma TotalScaled(n: nat, a: real, f: Bits -> real)
    ensures SumAll(n, ScaledBy(a, f)) == a * SumAll(n, f)
  {
    SumScaled([], n, ScaledBy(a, f), a, f);
  }

  lemma PlusScaledAt(s: real, f: Bits -> real, t: real, g: Bits -> real, x: Bits)
    ensures PlusOf(ScaledBy(s, f), ScaledBy(t, g))(x) == s * f(x) + t * g(x)
  {
  }
}
