/**
  Linear maps that mix the amplitudes of a state vector in pairs, the members of a
  pair differing by a fixed mask, and equality of state vectors up to a phase.  What
  the gate tables of two engines do is compared in these terms.
*/
module PairMaps {
  import opened Linear
  import opened Bits
  import opened ComplexNumbers
  import opened Majorana
  import opened MajoranaFock
  import opened Statevector

  // ---- two-by-two matrices

  const SAME := Kernel(ONE, ZERO, ZERO, ONE)

  function Composed(k: Kernel, l: Kernel): Kernel {
    Kernel(k.Upper(l.m00, l.m10), k.Upper(l.m01, l.m11), k.Lower(l.m00, l.m10), k.Lower(l.m01, l.m11))
  }

  function Rephased(p: Complex, k: Kernel): Kernel {
    Kernel(Mul(p, k.m00), Mul(p, k.m01), Mul(p, k.m10), Mul(p, k.m11))
  }

  /** One row of a product of matrices applied to a pair. */
  lemma RowOfProduct(x: Complex, y: Complex, a: Complex, b: Complex, c: Complex, d: Complex, u: Complex, v: Complex)
    ensures Add(Mul(x, Add(Mul(a, u), Mul(b, v))), Mul(y, Add(Mul(c, u), Mul(d, v)))) ==
      Add(Mul(Add(Mul(x, a), Mul(y, c)), u), Mul(Add(Mul(x, b), Mul(y, d)), v))
  {
    hide Mul, Add;
    SpreadPair(x, a, u, b, v);
    SpreadPair(y, c, u, d, v);
    GatherPair(Mul(x, a), Mul(y, c), u);
    GatherPair(Mul(x, b), Mul(y, d), v);
    AddSwap(Mul(Mul(x, a), u), Mul(Mul(x, b), v), Mul(Mul(y, c), u), Mul(Mul(y, d), v));
  }

  lemma SpreadPair(x: Complex, a: Complex, u: Complex, b: Complex, v: Complex)
    ensures Mul(x, Add(Mul(a, u), Mul(b, v))) == Add(Mul(Mul(x, a), u), Mul(Mul(x, b), v))
  {
    hide Mul, Add;
    MulOverAdd(x, Mul(a, u), Mul(b, v));
    MulAssociative(x, a, u);
    MulAssociative(x, b, v);
  }

  lemma GatherPair(p: Complex, q: Complex, u: Complex)
    ensures Mul(Add(p, q), u) == Add(Mul(p, u), Mul(q, u))
  {
    hide Mul, Add;
    MulCommutes(Add(p, q), u);
    MulOverAdd(u, p, q);
    MulCommutes(u, p);
    MulCommutes(u, q);
  }

  lemma AddSwap(a: Complex, b: Complex, c: Complex, d: Complex)
    ensures Add(Add(a, b), Add(c, d)) == Add(Add(a, c), Add(b, d))
  {
  }

  lemma ComposedActs(k: Kernel, l: Kernel, u: Complex, v: Complex)
    ensures Composed(k, l).Upper(u, v) == k.Upper(l.Upper(u, v), l.Lower(u, v))
    ensures Composed(k, l).Lower(u, v) == k.Lower(l.Upper(u, v), l.Lower(u, v))
  {
    hide Mul, Add;
    RowOfProduct(k.m00, k.m01, l.m00, l.m01, l.m10, l.m11, u, v);
    RowOfProduct(k.m10, k.m11, l.m00, l.m01, l.m10, l.m11, u, v);
  }

  lemma RephasedActs(p: Complex, k: Kernel, u: Complex, v: Complex)
    ensures Rephased(p, k).Upper(u, v) == Mul(p, k.Upper(u, v))
    ensures Rephased(p, k).Lower(u, v) == Mul(p, k.Lower(u, v))
  {
    hide Mul, Add;
    SpreadPair(p, k.m00, u, k.m01, v);
    SpreadPair(p, k.m10, u, k.m11, v);
  }

  lemma SameActs(u: Complex, v: Complex)
    ensures SAME.Upper(u, v) == u && SAME.Lower(u, v) == v
  {
    hide Mul;
    MulOne(u);
    MulOne(v);
    MulZero(u);
    MulZero(v);
  }

  // ---- maps of state vectors

  /** For each basis state the matrix by which its pair is mixed. */
  type Family = Bits -> Kernel

  ghost function Constant(k: Kernel): Family { _ => k }

  ghost function ComposedFamily(f: Family, g: Family): Family { o => Composed(f(o), g(o)) }

  /** Both members of a pair are given the same matrix. */
  ghost predicate Steady(n: nat, mask: Bits, fam: Family)
    requires |mask| == n
  {
    forall o | |o| == n :: fam(Xor(o, mask)) == fam(o)
  }

  /** Mix the pairs; the second member of a pair is the one with bit q set. */
  ghost function Mixed(n: nat, mask: Bits, q: nat, fam: Family, psi: Vector): Vector
    requires |mask| == n && q < n
  {
    o => if |o| != n then ZERO else
      if !o[q] then fam(o).Upper(psi(o), psi(Xor(o, mask))) else fam(o).Lower(psi(Xor(o, mask)), psi(o))
  }

  /** Mixing twice is mixing by the products. */
  lemma MixedTwice(n: nat, mask: Bits, q: nat, f: Family, g: Family, psi: Vector)
    requires |mask| == n && q < n && mask[q] && Steady(n, mask, g)
    ensures SameVector(n, Mixed(n, mask, q, f, Mixed(n, mask, q, g, psi)), Mixed(n, mask, q, ComposedFamily(f, g), psi))
  {
    hide Composed, Kernel.Upper, Kernel.Lower;
    forall o | |o| == n
      ensures Mixed(n, mask, q, f, Mixed(n, mask, q, g, psi))(o) == Mixed(n, mask, q, ComposedFamily(f, g), psi)(o)
    {
      var p := Xor(o, mask);
      XorTwice(o, mask);
      assert g(p) == g(o);
      ComposedActs(f(o), g(o), psi(if o[q] then p else o), psi(if o[q] then o else p));
    }
  }

  /** Families that agree mix alike. */
  lemma MixedSame(n: nat, mask: Bits, q: nat, f: Family, g: Family, psi: Vector, phi: Vector)
    requires |mask| == n && q < n && SameVector(n, psi, phi) && forall o | |o| == n :: f(o) == g(o)
    ensures SameVector(n, Mixed(n, mask, q, f, psi), Mixed(n, mask, q, g, phi))
  {
    hide Kernel.Upper, Kernel.Lower;
    forall o | |o| == n ensures Mixed(n, mask, q, f, psi)(o) == Mixed(n, mask, q, g, phi)(o) {
      var p := Xor(o, mask);
      assert psi(o) == phi(o) && psi(p) == phi(p);
    }
  }

  // ---- equality up to a phase

  ghost function Multiplied(p: Complex, psi: Vector): Vector { o => Mul(p, psi(o)) }

  ghost predicate AlikeBy(n: nat, p: Complex, psi: Vector, phi: Vector) {
    NormSq(p) == 1.0 && SameVector(n, psi, Multiplied(p, phi))
  }

  /** The same state up to a global phase. */
  ghost predicate Alike(n: nat, psi: Vector, phi: Vector) {
    exists p :: AlikeBy(n, p, psi, phi)
  }

  lemma SameIsAlike(n: nat, psi: Vector, phi: Vector)
    requires SameVector(n, psi, phi)
    ensures Alike(n, psi, phi)
  {
    forall o | |o| == n ensures psi(o) == Multiplied(ONE, phi)(o) { MulOne(phi(o)); }
    assert AlikeBy(n, ONE, psi, phi);
  }

  lemma AlikeChain(n: nat, a: Vector, b: Vector, c: Vector)
    requires Alike(n, a, b) && Alike(n, b, c)
    ensures Alike(n, a, c)
  {
    hide Mul, NormSq;
    var p :| AlikeBy(n, p, a, b);
    var q :| AlikeBy(n, q, b, c);
    NormOfProduct(p, q);
    forall o | |o| == n ensures a(o) == Multiplied(Mul(p, q), c)(o) {
      assert a(o) == Mul(p, b(o)) && b(o) == Mul(q, c(o));
      MulAssociative(p, q, c(o));
    }
    assert AlikeBy(n, Mul(p, q), a, c);
  }

  /** Mixing by matrices that differ by one phase gives states that do. */
  lemma MixedAlike(n: nat, mask: Bits, q: nat, p: Complex, f: Family, g: Family, psi: Vector)
    requires |mask| == n && q < n && NormSq(p) == 1.0 && forall o | |o| == n :: f(o) == Rephased(p, g(o))
    ensures Alike(n, Mixed(n, mask, q, f, psi), Mixed(n, mask, q, g, psi))
  {
    hide Mul, NormSq, Rephased, Kernel.Upper, Kernel.Lower;
    forall o | |o| == n ensures Mixed(n, mask, q, f, psi)(o) == Multiplied(p, Mixed(n, mask, q, g, psi))(o) {
      var r := Xor(o, mask);
      RephasedActs(p, g(o), psi(if o[q] then r else o), psi(if o[q] then o else r));
    }
    assert AlikeBy(n, p, Mixed(n, mask, q, f, psi), Mixed(n, mask, q, g, psi));
  }

  /** Mixing respects equality up to a phase. */
  lemma MixedRespects(n: nat, mask: Bits, q: nat, f: Family, psi: Vector, phi: Vector)
    requires |mask| == n && q < n && Alike(n, psi, phi)
    ensures Alike(n, Mixed(n, mask, q, f, psi), Mixed(n, mask, q, f, phi))
  {
    hide Mul, NormSq, Kernel.Upper, Kernel.Lower;
    var p :| AlikeBy(n, p, psi, phi);
    forall o | |o| == n ensures Mixed(n, mask, q, f, psi)(o) == Multiplied(p, Mixed(n, mask, q, f, phi))(o) {
      var r := Xor(o, mask);
      assert psi(o) == Mul(p, phi(o)) && psi(r) == Mul(p, phi(r));
      KernelLinear(p, f(o), phi(if o[q] then r else o), phi(if o[q] then o else r));
    }
    assert AlikeBy(n, p, Mixed(n, mask, q, f, psi), Mixed(n, mask, q, f, phi));
  }

  lemma KernelLinear(p: Complex, k: Kernel, u: Complex, v: Complex)
    ensures k.Upper(Mul(p, u), Mul(p, v)) == Mul(p, k.Upper(u, v))
    ensures k.Lower(Mul(p, u), Mul(p, v)) == Mul(p, k.Lower(u, v))
  {
    hide Mul, Add;
    MoveFactor(p, k.m00, u);
    MoveFactor(p, k.m01, v);
    MoveFactor(p, k.m10, u);
    MoveFactor(p, k.m11, v);
    MulOverAdd(p, Mul(k.m00, u), Mul(k.m01, v));
    MulOverAdd(p, Mul(k.m10, u), Mul(k.m11, v));
  }

  lemma MoveFactor(p: Complex, a: Complex, u: Complex)
    ensures Mul(a, Mul(p, u)) == Mul(p, Mul(a, u))
  {
    hide Mul;
    MulAssociative(a, p, u);
    MulCommutes(a, p);
    MulAssociative(p, a, u);
  }
}
