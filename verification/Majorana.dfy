/**
  The Majorana monomial algebra.  A monomial on n modes is labelled by a vector
  of 2n bits; products of monomials are monomials up to a power of i.
*/
module Majorana {
  import opened Bits

  function Length(b: Bits): nat { Ones(b, |b|) }

  /** Whether two monomials commute. */
  predicate Commutes(b: Bits, c: Bits)
    requires |b| == |c|
  {
    (Length(b) * Length(c) - Shared(b, c, |b|)) % 2 == 0
  }

  /** The exponent of i that makes a monomial of length m Hermitian. */
  function HermitianPhase(m: nat): (r: nat)
    ensures r < 4
  {
    (m * (m - 1) / 2) % 4
  }

  /** For the first `k` set bits j of b, how many set bits of c lie strictly above j. */
  function InversionCount(c: Bits, b: Bits, k: nat): int
    requires |c| == |b| && k <= |b|
  {
    if k == 0 then 0 else
      InversionCount(c, b, k - 1) + if b[k - 1] then Ones(c, |c|) - Ones(c, k) else 0
  }

  /** The exponent e with M_c M_b = i^e M_(c xor b). */
  function MulPhase(c: Bits, b: Bits): (e: nat)
    requires |c| == |b|
    ensures e < 4
  {
    var t := InversionCount(c, b, |b|) % 2;
    (HermitianPhase(Length(c)) + HermitianPhase(Length(b)) + 4 - HermitianPhase(Length(Xor(c, b))) + 2 * t) % 4
  }

  /** The image of M_b under a rotation by M_c that it anticommutes with: the other monomial and its sign. */
  function RotateBy(b: Bits, c: Bits): (Bits, real)
    requires |b| == |c|
  {
    (Xor(c, b), if (MulPhase(c, b) + 1) % 4 == 0 then 1.0 else -1.0)
  }

  // ---- triangular numbers

  function Tri(m: nat): nat {
    if m == 0 then 0 else Tri(m - 1) + (m - 1)
  }

  lemma {:induction false} TriClosed(m: nat)
    ensures m * (m - 1) == 2 * Tri(m) && m * (m - 1) / 2 == Tri(m)
  {
    if m == 0 {
    } else {
      TriClosed(m - 1);
      assert m * (m - 1) == (m - 1) * (m - 2) + 2 * (m - 1);
    }
  }

  lemma {:induction false} TriSum(a: nat, b: nat)
    ensures Tri(a + b) == Tri(a) + Tri(b) + a * b
  {
    if b == 0 {
    } else {
      TriSum(a, b - 1);
      assert a * b == a * (b - 1) + a;
    }
  }

  lemma PhaseIsTri(m: nat)
    ensures HermitianPhase(m) == Tri(m) % 4
  {
    TriClosed(m);
  }

  // ---- the inversion count, pair by pair from the other side

  /** For the first `k` set bits i of c, how many set bits of b lie strictly below i. */
  ghost function Inversions(c: Bits, b: Bits, k: nat): nat
    requires |c| == |b| && k <= |b|
  {
    if k == 0 then 0 else Inversions(c, b, k - 1) + if c[k - 1] then Ones(b, k - 1) else 0
  }

  ghost function CountBelow(c: Bits, b: Bits, m: nat, k: nat): int
    requires |c| == |b| && m <= k <= |b|
  {
    if m == 0 then 0 else CountBelow(c, b, m - 1, k) + if b[m - 1] then Ones(c, k) - Ones(c, m) else 0
  }

  lemma {:induction false} CountBelowWidens(c: Bits, b: Bits, m: nat, k: nat)
    requires |c| == |b| && m <= k < |b|
    ensures CountBelow(c, b, m, k + 1) == CountBelow(c, b, m, k) + if c[k] then Ones(b, m) else 0
  {
    if m == 0 {
    } else {
      CountBelowWidens(c, b, m - 1, k);
    }
  }

  lemma {:induction false} CountBelowIsInversions(c: Bits, b: Bits, k: nat)
    requires |c| == |b| && k <= |b|
    ensures CountBelow(c, b, k, k) == Inversions(c, b, k)
  {
    if k == 0 {
    } else {
      CountBelowIsInversions(c, b, k - 1);
      CountBelowWidens(c, b, k - 1, k - 1);
    }
  }

  lemma {:induction false} InversionCountIsBelow(c: Bits, b: Bits, m: nat)
    requires |c| == |b| && m <= |b|
    ensures InversionCount(c, b, m) == CountBelow(c, b, m, |b|)
  {
    if m == 0 {
    } else {
      InversionCountIsBelow(c, b, m - 1);
    }
  }

  lemma CountIsInversions(c: Bits, b: Bits)
    requires |c| == |b|
    ensures InversionCount(c, b, |b|) == Inversions(c, b, |b|)
  {
    InversionCountIsBelow(c, b, |b|);
    CountBelowIsInversions(c, b, |b|);
  }

  lemma {:induction false} InversionsOfSelf(c: Bits, k: nat)
    requires k <= |c|
    ensures Inversions(c, c, k) == Tri(Ones(c, k))
  {
    if k == 0 {
    } else {
      InversionsOfSelf(c, k - 1);
    }
  }

  /** Inversions are additive in the second argument, modulo two. */
  lemma {:induction false} InversionsOfXor(c: Bits, a: Bits, b: Bits, k: nat)
    requires |c| == |a| == |b| && k <= |b|
    ensures (Inversions(c, Xor(a, b), k) + Inversions(c, a, k) + Inversions(c, b, k)) % 2 == 0
  {
    hide Xor, Ones, Shared;
    if k == 0 {
    } else {
      InversionsOfXor(c, a, b, k - 1);
      OnesOfXor(a, b, k - 1);
      if c[k - 1] {
        ParityStep(Inversions(c, Xor(a, b), k - 1) + Inversions(c, a, k - 1) + Inversions(c, b, k - 1),
                   Ones(Xor(a, b), k - 1), Ones(a, k - 1), Ones(b, k - 1), Shared(a, b, k - 1));
        assert Inversions(c, Xor(a, b), k) + Inversions(c, a, k) + Inversions(c, b, k) ==
          Inversions(c, Xor(a, b), k - 1) + Inversions(c, a, k - 1) + Inversions(c, b, k - 1) +
          Ones(Xor(a, b), k - 1) + Ones(a, k - 1) + Ones(b, k - 1);
      }
    }
  }

  lemma ParityStep(t: int, x: int, y: int, z: int, s: int)
    requires t % 2 == 0 && x + 2 * s == y + z
    ensures (t + x + y + z) % 2 == 0
  {
    assert t + x + y + z == t + 2 * (y + z - s);
  }

  // ---- what the phase rule means

  /** The exponent is odd exactly for anticommuting monomials. */
  lemma PhaseParity(c: Bits, b: Bits)
    requires |c| == |b|
    ensures MulPhase(c, b) % 2 == 1 <==> !Commutes(b, c)
  {
    hide Tri, HermitianPhase, InversionCount, Ones, Shared, Xor;
    var n := |b|;
    SharedCommutes(b, c, n);
    OnesOfXor(c, b, n);
    var s := Shared(c, b, n);
    var x, y := Length(c) - s, Length(b) - s;
    PhaseIsTri(x + s);
    PhaseIsTri(y + s);
    PhaseIsTri(x + y);
    OverlapParity(x, y, s);
    ExponentParity(Tri(x + s), Tri(y + s), Tri(x + y), InversionCount(c, b, n) % 2);
    assert y + s == Length(b) && x + s == Length(c) && x + y == Length(Xor(c, b));
    SameParities(MulPhase(c, b), Tri(x + s) + Tri(y + s) - Tri(x + y), (y + s) * (x + s) - s);
  }

  lemma SameParities(e: nat, t: int, w: int)
    requires e % 2 == t % 2 == w % 2
    ensures e % 2 == 1 <==> w % 2 != 0
  {
  }

  lemma OverlapParity(x: nat, y: nat, s: nat)
    ensures (Tri(x + s) + Tri(y + s) - Tri(x + y)) % 2 == ((y + s) * (x + s) - s) % 2
  {
    TriSum(x, s);
    TriSum(y, s);
    TriSum(x, y);
    TriClosed(s);
    hide Tri;
    ExpandProduct(x, y, s);
    EvenGap(s * (s - 1) + x * s + y * s - x * y, x * y);
  }

  lemma ExpandProduct(x: int, y: int, s: int)
    ensures (y + s) * (x + s) - s == x * y + x * s + y * s + s * (s - 1)
  {
  }

  lemma EvenGap(a: int, b: int)
    ensures a % 2 == (a + 2 * b) % 2
  {
  }

  lemma ExponentParity(p: nat, q: nat, r: nat, t: nat)
    ensures ((p % 4 + q % 4 + 4 - r % 4 + 2 * t) % 4) % 2 == (p + q - r) % 2
  {
    var k := p % 4 + q % 4 + 4 - r % 4 + 2 * t;
    assert k == (p + q - r) + 2 * (2 - 2 * (p / 4) - 2 * (q / 4) + 2 * (r / 4) + t);
    EvenGap(p + q - r, 2 - 2 * (p / 4) - 2 * (q / 4) + 2 * (r / 4) + t);
    EvenGap(k, -2 * (k / 4));
  }

  lemma {:induction false} SharedCommutes(a: Bits, b: Bits, k: nat)
    requires k <= |a| && k <= |b|
    ensures Shared(a, b, k) == Shared(b, a, k)
  {
    if k == 0 {
    } else {
      SharedCommutes(a, b, k - 1);
    }
  }

  /** Multiplying by the same monomial twice undoes it: the two exponents cancel. */
  lemma PhaseCancels(c: Bits, b: Bits)
    requires |c| == |b|
    ensures (MulPhase(c, b) + MulPhase(c, Xor(c, b))) % 4 == 0
  {
    var n, d := |b|, Xor(c, b);
    XorTwice(b, c);
    CountIsInversions(c, b);
    CountIsInversions(c, d);
    InversionsOfXor(c, c, b, n);
    InversionsOfSelf(c, n);
    PhaseIsTri(Length(c));
    CancelMod4(Tri(Length(c)), HermitianPhase(Length(b)), HermitianPhase(Length(d)), Inversions(c, b, n), Inversions(c, d, n));
  }

  lemma CancelMod4(w: nat, p: nat, q: nat, t: nat, u: nat)
    requires p < 4 && q < 4 && (u + w + t) % 2 == 0
    ensures ((w % 4 + p + 4 - q + 2 * (t % 2)) % 4 + (w % 4 + q + 4 - p + 2 * (u % 2)) % 4) % 4 == 0
  {
    var k := u % 2 + w % 4 + t % 2;
    assert u + w + t == k + 2 * (u / 2 + 2 * (w / 4) + t / 2);
    EvenGap(k, u / 2 + 2 * (w / 4) + t / 2);
    CancelResidues(w % 4, p, q, t % 2, u % 2);
  }

  lemma CancelResidues(w: nat, p: nat, q: nat, t: nat, u: nat)
    requires w < 4 && p < 4 && q < 4 && t < 2 && u < 2 && (u + w + t) % 2 == 0
    ensures ((w + p + 4 - q + 2 * t) % 4 + (w + q + 4 - p + 2 * u) % 4) % 4 == 0
  {
  }

  /**
    Rotating the image back gives the monomial with the opposite sign, which is
    what makes a rotation orthogonal.
  */
  lemma RotateBack(b: Bits, c: Bits)
    requires |b| == |c| && !Commutes(b, c)
    ensures var (k, s) := RotateBy(b, c);
      |k| == |b| && !Commutes(k, c) && RotateBy(k, c) == (b, -s) && (s == 1.0 || s == -1.0)
  {
    hide MulPhase, Commutes, Xor;
    var k := Xor(c, b);
    PhaseCancels(c, b);
    PhaseParity(c, b);
    PhaseParity(c, k);
    XorTwice(b, c);
    OppositeSigns(MulPhase(c, b), MulPhase(c, k));
  }

  lemma OppositeSigns(e: nat, f: nat)
    requires e < 4 && f < 4 && (e + f) % 4 == 0 && e % 2 == 1
    ensures f % 2 == 1 && ((e + 1) % 4 == 0 <==> (f + 1) % 4 != 0)
  {
  }

  /** Whether a monomial commutes with the generator does not change when it is multiplied by it. */
  lemma CommutesWithImage(b: Bits, c: Bits)
    requires |b| == |c|
    ensures Commutes(Xor(b, c), c) <==> Commutes(b, c)
  {
    hide MulPhase, Commutes, Xor;
    PhaseCancels(c, b);
    PhaseParity(c, b);
    XorTwice(b, c);
    PhaseParity(c, Xor(c, b));
    EqualParities(MulPhase(c, b), MulPhase(c, Xor(c, b)));
  }

  lemma EqualParities(e: nat, f: nat)
    requires e < 4 && f < 4 && (e + f) % 4 == 0
    ensures e % 2 == f % 2
  {
  }

  // ---- lengths

  /** A rotation by a generator of length two keeps every length; by one of length four it changes it by two. */
  lemma RotationLength(b: Bits, c: Bits)
    requires |b| == |c| && !Commutes(b, c)
    ensures Length(c) == 2 ==> Length(Xor(c, b)) == Length(b)
    ensures Length(c) == 4 ==> Length(Xor(c, b)) == Length(b) + 2 || Length(Xor(c, b)) == Length(b) - 2
  {
    hide Ones, Shared, Xor;
    OnesOfXor(c, b, |b|);
    SharedCommutes(b, c, |b|);
    var s := Shared(c, b, |b|);
    if Length(c) == 2 || Length(c) == 4 {
      OddOverlap(Length(b), Length(c) / 2, s);
    }
  }

  lemma OddOverlap(m: nat, half: nat, s: nat)
    requires (m * (2 * half) - s) % 2 != 0
    ensures s % 2 == 1
  {
    assert m * (2 * half) == 2 * (m * half);
  }

  // ---- swapping the factors

  lemma {:induction false} InversionsBothWays(c: Bits, b: Bits, k: nat)
    requires |c| == |b| && k <= |b|
    ensures Inversions(c, b, k) + Inversions(b, c, k) + Shared(b, c, k) == Ones(b, k) * Ones(c, k)
  {
    if k == 0 {
    } else {
      InversionsBothWays(c, b, k - 1);
      StepProduct(Ones(b, k - 1), Ones(c, k - 1), if b[k - 1] then 1 else 0, if c[k - 1] then 1 else 0);
    }
  }

  lemma StepProduct(x: nat, y: nat, p: nat, q: nat)
    requires p <= 1 && q <= 1
    ensures (x + p) * (y + q) == x * y + (if q == 1 then x else 0) + (if p == 1 then y else 0) + (if p == 1 && q == 1 then 1 else 0)
  {
  }

  /** The two orders of a product differ by i^0 or i^2, as the factors commute or not. */
  lemma PhaseSwap(c: Bits, b: Bits)
    requires |c| == |b|
    ensures (MulPhase(b, c) - MulPhase(c, b) - if Commutes(b, c) then 0 else 2) % 4 == 0
  {
    XorTwice(b, c);
    CountIsInversions(c, b);
    CountIsInversions(b, c);
    InversionsBothWays(c, b, |b|);
    SwapMod4(HermitianPhase(Length(b)) + HermitianPhase(Length(c)) - HermitianPhase(Length(Xor(c, b))),
             Inversions(c, b, |b|), Inversions(b, c, |b|));
  }

  lemma SwapMod4(w: int, t: nat, u: nat)
    ensures ((w + 4 + 2 * (u % 2)) % 4 - (w + 4 + 2 * (t % 2)) % 4 - if (t + u) % 2 == 0 then 0 else 2) % 4 == 0
  {
  }

  /** A monomial is its own inverse. */
  lemma SelfPhase(c: Bits)
    ensures MulPhase(c, c) == 0 && Xor(c, c) == Zero(|c|)
  {
    CountIsInversions(c, c);
    InversionsOfSelf(c, |c|);
    PhaseIsTri(Length(c));
    NoOnes(|c|, |c|);
    assert Xor(c, c) == Zero(|c|);
    DoubleMod4(Tri(Length(c)));
  }

  lemma DoubleMod4(w: nat)
    ensures (w % 4 + w % 4 + 4 + 2 * (w % 2)) % 4 == 0
  {
  }

  lemma {:induction false} NoOnes(n: nat, k: nat)
    requires k <= n
    ensures Ones(Zero(n), k) == 0
  {
    if k == 0 {
    } else {
      NoOnes(n, k - 1);
    }
  }
}
