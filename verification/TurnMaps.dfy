/** Pauli rotations on one, two and three qubits as maps that mix pairs of amplitudes. */
module TurnMaps {
  import opened Linear
  import opened Bits
  import opened ComplexNumbers
  import opened Majorana
  import opened MajoranaFock
  import opened MajoranaPauli
  import opened PauliTerms
  import opened MajoranaDoor
  import opened MajoranaGates
  import opened PairMaps
  import S = Statevector

  // ---- the bits and the phase of a short Pauli string

  lemma OneSite(n: nat, a: nat, p: Pauli)
    requires a < n
    ensures InRange(n, [(a, p)])
    ensures forall j | 0 <= j < n :: XBits(n, [(a, p)])[j] == (j == a && FlipsBit(p))
    ensures forall j | 0 <= j < n :: ZBits(n, [(a, p)])[j] == (j == a && MarksBit(p))
  {
    var s: Sites := [(a, p)];
    assert Marked(n, s, 0, true) == Zero(n) && Marked(n, s, 0, false) == Zero(n);
  }

  lemma TwoSites(n: nat, a: nat, p: Pauli, b: nat, q: Pauli)
    requires a < n && b < n && a != b
    ensures InRange(n, [(a, p), (b, q)])
    ensures forall j | 0 <= j < n :: XBits(n, [(a, p), (b, q)])[j] == ((j == a && FlipsBit(p)) || (j == b && FlipsBit(q)))
    ensures forall j | 0 <= j < n :: ZBits(n, [(a, p), (b, q)])[j] == ((j == a && MarksBit(p)) || (j == b && MarksBit(q)))
  {
    var s, t: Sites := [(a, p), (b, q)], [(a, p)];
    OneSite(n, a, p);
    MarkedPrefix(n, s, t, 1, true);
    MarkedPrefix(n, s, t, 1, false);
  }

  lemma ThreeSites(n: nat, a: nat, b: nat, c: nat)
    requires a < n && b < n && c < n && a != b && a != c && b != c
    ensures InRange(n, [(a, Z), (b, Z), (c, Z)])
    ensures XBits(n, [(a, Z), (b, Z), (c, Z)]) == Zero(n)
    ensures forall j | 0 <= j < n :: ZBits(n, [(a, Z), (b, Z), (c, Z)])[j] == (j == a || j == b || j == c)
  {
    var s, t: Sites := [(a, Z), (b, Z), (c, Z)], [(a, Z), (b, Z)];
    TwoSites(n, a, Z, b, Z);
    assert s[..2] == t[..2] && InRange(n, s);
    MarkedPrefix(n, s, t, 2, true);
    MarkedPrefix(n, s, t, 2, false);
    assert XBits(n, s) == Marked(n, s, 2, true) == XBits(n, t);
    assert ZBits(n, s) == ZBits(n, t)[c := true];
  }

  predicate Silent(x: Bits, z: Bits, j: nat)
    requires |x| == |z| && j < |x|
  {
    !x[j] && !z[j]
  }

  function ActionAt(x: Bits, z: Bits, o: Bits, j: nat): nat
    requires |x| == |z| == |o| && j < |o|
  {
    SiteAction(x[j], z[j], o[j])
  }

  lemma {:induction false} PhaseOfOne(x: Bits, z: Bits, o: Bits, k: nat, a: nat)
    requires |x| == |z| == |o| && k <= |o| && a < |o| && forall j | 0 <= j < |o| && j != a :: Silent(x, z, j)
    ensures PauliPhase(x, z, o, k) == if a < k then ActionAt(x, z, o, a) else 0
  {
    if k > 0 {
      PhaseOfOne(x, z, o, k - 1, a);
      assert k - 1 != a ==> Silent(x, z, k - 1);
    }
  }

  lemma {:induction false} PhaseOfTwo(x: Bits, z: Bits, o: Bits, k: nat, a: nat, b: nat)
    requires |x| == |z| == |o| && k <= |o| && a < |o| && b < |o| && a != b
    requires forall j | 0 <= j < |o| && j != a && j != b :: Silent(x, z, j)
    ensures PauliPhase(x, z, o, k) == (if a < k then ActionAt(x, z, o, a) else 0) + (if b < k then ActionAt(x, z, o, b) else 0)
  {
    if k > 0 {
      PhaseOfTwo(x, z, o, k - 1, a, b);
      assert k - 1 != a && k - 1 != b ==> Silent(x, z, k - 1);
    }
  }

  lemma {:induction false} PhaseOfThree(x: Bits, z: Bits, o: Bits, k: nat, a: nat, b: nat, c: nat)
    requires |x| == |z| == |o| && k <= |o| && a < |o| && b < |o| && c < |o| && a != b && a != c && b != c
    requires forall j | 0 <= j < |o| && j != a && j != b && j != c :: Silent(x, z, j)
    ensures PauliPhase(x, z, o, k) == (if a < k then ActionAt(x, z, o, a) else 0) +
      (if b < k then ActionAt(x, z, o, b) else 0) + (if c < k then ActionAt(x, z, o, c) else 0)
  {
    if k > 0 {
      PhaseOfThree(x, z, o, k - 1, a, b, c);
      assert k - 1 != a && k - 1 != b && k - 1 != c ==> Silent(x, z, k - 1);
    }
  }

  // ---- a rotation by a string without flips

  /** exp(i t / 2) and exp(-i t / 2). */
  function Half(trig: Trig, t: real): Complex { C(trig.cosHalf(t), trig.sinHalf(t)) }

  function Back(trig: Trig, t: real): Complex { C(trig.cosHalf(t), -trig.sinHalf(t)) }

  /** The factor of a rotation by a string of Z: it depends on the parity of the marked bits. */
  ghost function ZFactor(trig: Trig, t: real, odd: bool): Complex {
    if odd then Half(trig, t) else Back(trig, t)
  }

  lemma ShadedTurnAt(n: nat, trig: Trig, turn: PauliTurn, psi: Vector, o: Bits)
    requires TurnInRange(n, turn) && |o| == n && XBits(n, turn.0) == Zero(n)
    requires var e := PauliPhase(Zero(n), ZBits(n, turn.0), o, n); e % 4 == 0 || e % 4 == 2
    ensures PauliTurned(n, trig, turn, psi)(o) ==
      Mul(ZFactor(trig, turn.1, PauliPhase(Zero(n), ZBits(n, turn.0), o, n) % 4 == 2), psi(o))
  {
    hide PauliPhase, Mul, Scale, Add, Half, Back;
    var e := PauliPhase(Zero(n), ZBits(n, turn.0), o, n);
    assert Xor(o, Zero(n)) == o;
    FactorOfTurn(trig.cosHalf(turn.1), trig.sinHalf(turn.1), e, psi(o));
    assert Half(trig, turn.1) == C(trig.cosHalf(turn.1), trig.sinHalf(turn.1)) by { HalfIs(trig, turn.1); }
    assert Back(trig, turn.1) == C(trig.cosHalf(turn.1), -trig.sinHalf(turn.1)) by { HalfIs(trig, turn.1); }
  }

  lemma HalfIs(trig: Trig, t: real)
    ensures Half(trig, t) == C(trig.cosHalf(t), trig.sinHalf(t)) && Back(trig, t) == C(trig.cosHalf(t), -trig.sinHalf(t))
  {
  }

  lemma FactorOfTurn(c: real, s: real, e: nat, a: Complex)
    requires e % 4 == 0 || e % 4 == 2
    ensures Add(Scale(c, a), Scale(-s, TimesI(1, TimesI(e, a)))) == Mul(if e % 4 == 2 then C(c, s) else C(c, -s), a)
  {
    if e % 4 == 2 {
      assert TimesI(1, TimesI(e, a)) == C(a.im, -a.re);
    } else {
      assert TimesI(1, TimesI(e, a)) == C(-a.im, a.re);
    }
  }

  lemma ZTurn(n: nat, trig: Trig, a: nat, t: real, psi: Vector)
    requires a < n
    ensures TurnInRange(n, One(a, Z, t))
    ensures forall o | |o| == n :: PauliTurned(n, trig, One(a, Z, t), psi)(o) == Mul(ZFactor(trig, t, o[a]), psi(o))
  {
    hide Mul, ZFactor, PauliTurned;
    OneSite(n, a, Z);
    var turn := One(a, Z, t);
    var x, z := XBits(n, turn.0), ZBits(n, turn.0);
    assert x == Zero(n);
    forall o | |o| == n ensures PauliTurned(n, trig, turn, psi)(o) == Mul(ZFactor(trig, t, o[a]), psi(o)) {
      PhaseOfOne(x, z, o, n, a);
      ShadedTurnAt(n, trig, turn, psi, o);
    }
  }

  lemma ZZTurn(n: nat, trig: Trig, a: nat, b: nat, t: real, psi: Vector)
    requires a < n && b < n && a != b
    ensures TurnInRange(n, Two(a, Z, b, Z, t))
    ensures forall o | |o| == n :: PauliTurned(n, trig, Two(a, Z, b, Z, t), psi)(o) == Mul(ZFactor(trig, t, o[a] != o[b]), psi(o))
  {
    hide Mul, ZFactor, PauliTurned;
    TwoSites(n, a, Z, b, Z);
    var turn := Two(a, Z, b, Z, t);
    var x, z := XBits(n, turn.0), ZBits(n, turn.0);
    assert x == Zero(n);
    forall o | |o| == n ensures PauliTurned(n, trig, turn, psi)(o) == Mul(ZFactor(trig, t, o[a] != o[b]), psi(o)) {
      PhaseOfTwo(x, z, o, n, a, b);
      ShadedTurnAt(n, trig, turn, psi, o);
    }
  }

  lemma ZZZTurn(n: nat, trig: Trig, a: nat, b: nat, c: nat, t: real, psi: Vector)
    requires a < n && b < n && c < n && a != b && a != c && b != c
    ensures TurnInRange(n, ([(a, Z), (b, Z), (c, Z)], t))
    ensures forall o | |o| == n ::
      PauliTurned(n, trig, ([(a, Z), (b, Z), (c, Z)], t), psi)(o) == Mul(ZFactor(trig, t, (o[a] != o[b]) != o[c]), psi(o))
  {
    hide Mul, ZFactor, PauliTurned;
    ThreeSites(n, a, b, c);
    var turn: PauliTurn := ([(a, Z), (b, Z), (c, Z)], t);
    var x, z := XBits(n, turn.0), ZBits(n, turn.0);
    forall o | |o| == n ensures PauliTurned(n, trig, turn, psi)(o) == Mul(ZFactor(trig, t, (o[a] != o[b]) != o[c]), psi(o)) {
      PhaseOfThree(x, z, o, n, a, b, c);
      ShadedTurnAt(n, trig, turn, psi, o);
    }
  }

  // ---- a rotation by a string with flips

  /** The matrix of a rotation: the cosine, and the sine with the phases the two members pick up. */
  function FlipKernel(c: real, s: real, first: nat, second: nat): S.Kernel {
    S.Kernel(C(c, 0.0), Scale(-s, TimesI(1 + second, ONE)), Scale(-s, TimesI(1 + first, ONE)), C(c, 0.0))
  }

  lemma FlipRow(c: real, s: real, e: nat, a: Complex, b: Complex)
    ensures Add(Scale(c, a), Scale(-s, TimesI(1, TimesI(e, b)))) == Add(Mul(C(c, 0.0), a), Mul(Scale(-s, TimesI(1 + e, ONE)), b))
    ensures Add(Scale(c, a), Scale(-s, TimesI(1, TimesI(e, b)))) == Add(Mul(Scale(-s, TimesI(1 + e, ONE)), b), Mul(C(c, 0.0), a))
  {
    hide TimesI;
    TimesITwice(1, e, b);
    PowerTimes(1 + e, b);
    ScaleOfProduct(-s, TimesI(1 + e, ONE), b);
    RealTimes(c, a);
  }

  lemma PowerTimes(e: nat, b: Complex)
    ensures TimesI(e, b) == Mul(TimesI(e, ONE), b)
  {
  }

  lemma ScaleOfProduct(t: real, p: Complex, b: Complex)
    ensures Scale(t, Mul(p, b)) == Mul(Scale(t, p), b)
  {
    assert t * (p.re * b.re - p.im * b.im) == (t * p.re) * b.re - (t * p.im) * b.im;
    assert t * (p.re * b.im + p.im * b.re) == (t * p.re) * b.im + (t * p.im) * b.re;
  }

  lemma RealTimes(c: real, a: Complex)
    ensures Scale(c, a) == Mul(C(c, 0.0), a)
  {
  }

  /** The rotation at one basis state, in terms of its pair. */
  lemma FlipTurnAt(n: nat, trig: Trig, turn: PauliTurn, q: nat, psi: Vector, o: Bits, first: nat, second: nat)
    requires TurnInRange(n, turn) && |o| == n && q < n && XBits(n, turn.0)[q]
    requires var p := Xor(o, XBits(n, turn.0));
      PauliPhase(XBits(n, turn.0), ZBits(n, turn.0), p, n) == if o[q] then first else second
    ensures var p := Xor(o, XBits(n, turn.0));
      var k := FlipKernel(trig.cosHalf(turn.1), trig.sinHalf(turn.1), first, second);
      PauliTurned(n, trig, turn, psi)(o) == if !o[q] then k.Upper(psi(o), psi(p)) else k.Lower(psi(p), psi(o))
  {
    hide PauliPhase, Mul, Scale, Add, TimesI;
    var p := Xor(o, XBits(n, turn.0));
    FlipRow(trig.cosHalf(turn.1), trig.sinHalf(turn.1), if o[q] then first else second, psi(o), psi(p));
  }

  /** The mask of one bit, and of two. */
  function Unit(n: nat, a: nat): (m: Bits)
    ensures |m| == n && forall j | 0 <= j < n :: m[j] == (j == a)
  {
    seq(n, j => j == a)
  }

  function UnitPair(n: nat, a: nat, b: nat): (m: Bits)
    ensures |m| == n && forall j | 0 <= j < n :: m[j] == (j == a || j == b)
  {
    seq(n, j => j == a || j == b)
  }

  lemma OneFlipTurn(n: nat, trig: Trig, a: nat, p: Pauli, t: real, psi: Vector)
    requires a < n && FlipsBit(p)
    ensures TurnInRange(n, One(a, p, t))
    ensures var k := FlipKernel(trig.cosHalf(t), trig.sinHalf(t), if p == Y then 1 else 0, if p == Y then 3 else 0);
      SameVector(n, PauliTurned(n, trig, One(a, p, t), psi), Mixed(n, Unit(n, a), a, Constant(k), psi))
  {
    hide FlipKernel, PauliTurned, S.Kernel.Upper, S.Kernel.Lower;
    OneSite(n, a, p);
    var turn := One(a, p, t);
    var x, z := XBits(n, turn.0), ZBits(n, turn.0);
    var k := FlipKernel(trig.cosHalf(t), trig.sinHalf(t), if p == Y then 1 else 0, if p == Y then 3 else 0);
    assert x == Unit(n, a);
    forall o | |o| == n ensures PauliTurned(n, trig, turn, psi)(o) == Mixed(n, Unit(n, a), a, Constant(k), psi)(o) {
      var r := Xor(o, x);
      PhaseOfOne(x, z, r, n, a);
      FlipTurnAt(n, trig, turn, a, psi, o, if p == Y then 1 else 0, if p == Y then 3 else 0);
    }
  }

  /** The phase a member of a pair picks up under two flips, by the bits it has on the two qubits. */
  function PairPhase(p: Pauli, q: Pauli, u: bool, v: bool): nat {
    SiteAction(FlipsBit(p), MarksBit(p), u) + SiteAction(FlipsBit(q), MarksBit(q), v)
  }

  /** The matrices of a rotation by two flips: they depend on whether the two bits agree. */
  ghost function PairFamily(trig: Trig, a: nat, p: Pauli, b: nat, q: Pauli, t: real): Family {
    o => if a < |o| && b < |o| then
      var odd := o[a] != o[b];
      FlipKernel(trig.cosHalf(t), trig.sinHalf(t), PairPhase(p, q, odd, false), PairPhase(p, q, !odd, true))
      else SAME
  }

  lemma PairFamilySteady(n: nat, trig: Trig, a: nat, p: Pauli, b: nat, q: Pauli, t: real)
    requires a < n && b < n && a != b
    ensures Steady(n, UnitPair(n, a, b), PairFamily(trig, a, p, b, q, t))
  {
    hide FlipKernel, PairPhase;
    forall o | |o| == n ensures PairFamily(trig, a, p, b, q, t)(Xor(o, UnitPair(n, a, b))) == PairFamily(trig, a, p, b, q, t)(o) {
      var r := Xor(o, UnitPair(n, a, b));
      assert r[a] == !o[a] && r[b] == !o[b];
    }
  }

  lemma TwoFlipTurnAt(n: nat, trig: Trig, a: nat, p: Pauli, b: nat, q: Pauli, t: real, psi: Vector, o: Bits)
    requires a < n && b < n && a != b && FlipsBit(p) && FlipsBit(q) && |o| == n
    ensures TurnInRange(n, Two(a, p, b, q, t))
    ensures PauliTurned(n, trig, Two(a, p, b, q, t), psi)(o) ==
      Mixed(n, UnitPair(n, a, b), b, PairFamily(trig, a, p, b, q, t), psi)(o)
  {
    hide FlipKernel, PauliTurned, S.Kernel.Upper, S.Kernel.Lower, SiteAction, PauliPhase;
    TwoSites(n, a, p, b, q);
    var turn := Two(a, p, b, q, t);
    var x, z := XBits(n, turn.0), ZBits(n, turn.0);
    assert x == UnitPair(n, a, b);
    var r, odd := Xor(o, x), o[a] != o[b];
    assert r[a] == !o[a] && r[b] == !o[b];
    assert PauliPhase(x, z, r, n) == PairPhase(p, q, r[a], r[b]) by {
      forall j | 0 <= j < n && j != a && j != b ensures Silent(x, z, j) {
      }
      PhaseOfTwo(x, z, r, n, a, b);
    }
    FlipTurnAt(n, trig, turn, b, psi, o, PairPhase(p, q, odd, false), PairPhase(p, q, !odd, true));
  }

  lemma TwoFlipTurn(n: nat, trig: Trig, a: nat, p: Pauli, b: nat, q: Pauli, t: real, psi: Vector)
    requires a < n && b < n && a != b && FlipsBit(p) && FlipsBit(q)
    ensures TurnInRange(n, Two(a, p, b, q, t)) && Steady(n, UnitPair(n, a, b), PairFamily(trig, a, p, b, q, t))
    ensures SameVector(n, PauliTurned(n, trig, Two(a, p, b, q, t), psi),
                       Mixed(n, UnitPair(n, a, b), b, PairFamily(trig, a, p, b, q, t), psi))
  {
    hide FlipKernel, PauliTurned, Mixed, Steady, PairFamily;
    TwoSites(n, a, p, b, q);
    PairFamilySteady(n, trig, a, p, b, q, t);
    forall o | |o| == n
      ensures PauliTurned(n, trig, Two(a, p, b, q, t), psi)(o) ==
        Mixed(n, UnitPair(n, a, b), b, PairFamily(trig, a, p, b, q, t), psi)(o)
    {
      TwoFlipTurnAt(n, trig, a, p, b, q, t, psi, o);
    }
  }
}
