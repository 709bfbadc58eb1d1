/**
  Pauli strings as Majorana monomials under the Jordan-Wigner encoding, and an
  observable given as a sum of Pauli strings carried into the engine's basis.
*/
module MajoranaPauli {
  import opened Bits
  import opened Majorana
  import opened MajoranaFock

  // ---- Pauli strings as operators

  /** The power of i that one site of a Pauli string picks up on one bit: I, X, Z or Y. */
  function SiteAction(x: bool, z: bool, bit: bool): nat {
    if x && z then (if bit then 3 else 1) else if z && bit then 2 else 0
  }

  /** The power of i the first `k` sites of the string pick up on the basis state o, which they send to o xor x. */
  function PauliPhase(x: Bits, z: Bits, o: Bits, k: nat): nat
    requires |x| == |z| == |o| && k <= |o|
  {
    if k == 0 then 0 else PauliPhase(x, z, o, k - 1) + SiteAction(x[k - 1], z[k - 1], o[k - 1])
  }

  /** The string is i^e times the monomial b, as operators. */
  ghost predicate Represents(n: nat, b: Bits, e: int, x: Bits, z: Bits)
    requires |b| == 2 * n && |x| == |z| == n
  {
    forall o | |o| == n :: RepresentsAt(n, b, e, x, z, o)
  }

  ghost predicate RepresentsAt(n: nat, b: Bits, e: int, x: Bits, z: Bits, o: Bits)
    requires |b| == 2 * n && |x| == |z| == |o| == n
  {
    Target(b, 0, o) == Xor(o, x) && (MonomialPhase(b, o) + e - PauliPhase(x, z, o, n)) % 4 == 0
  }

  // ---- one site as an ascending product of generators

  /** The generators of one X, Y or Z. */
  function SiteKey(n: nat, j: nat, x: bool, z: bool): (b: Bits)
    requires j < n
    ensures |b| == 2 * n
  {
    seq(2 * n, k => (x && k < 2 * j) || (k == 2 * j && !(x && z)) || (k == 2 * j + 1 && z))
  }

  /** The power of i in front of the product. */
  function SiteFactor(j: nat, x: bool): nat {
    if x then (4 - j % 4) % 4 else 3
  }

  lemma {:induction false} NothingAbove(b: Bits, k: nat, o: Bits)
    requires Fits(b, o) && k <= |b| && forall i | k <= i < |b| :: !b[i]
    ensures Target(b, k, o) == o && ProductPhase(b, k, o) == 0
    decreases |b| - k
  {
    if k < |b| {
      NothingAbove(b, k + 1, o);
    }
  }

  lemma {:induction false} NothingBelow(b: Bits, k: nat, m: nat, o: Bits)
    requires Fits(b, o) && k <= m <= |b| && forall i | k <= i < m :: !b[i]
    ensures Target(b, k, o) == Target(b, m, o) && ProductPhase(b, k, o) == ProductPhase(b, m, o)
    decreases m - k
  {
    if k < m {
      NothingBelow(b, k + 1, m, o);
    }
  }

  /** Full pairs of generators below mode j multiply to a string of Z, up to a power of i. */
  lemma {:induction false} FullBelow(b: Bits, k: nat, m: nat, kj: nat, j: nat, o: Bits)
    requires Fits(b, o) && m <= j <= |o| && k == 2 * m && kj == 2 * j && forall i | k <= i < kj :: b[i]
    ensures Target(b, k, o) == Target(b, kj, o)
    ensures var p := Target(b, kj, o);
      (ProductPhase(b, k, o) - ProductPhase(b, kj, o) - (j - m) - 2 * (Ones(p, j) - Ones(p, m))) % 4 == 0
    decreases j - m
  {
    hide Target, ProductPhase, Ones;
    if m == j {
    } else {
      FullBelow(b, k + 2, m + 1, kj, j, o);
      var p := Target(b, kj, o);
      PairAt(b, k, m, o);
      OnesStep(p, m);
      PhasesAdd(ProductPhase(b, k, o), ProductPhase(b, k + 2, o), ProductPhase(b, kj, o), j, m, Ones(p, j), Ones(p, m), p[m]);
    }
  }

  lemma PhasesAdd(p0: int, p1: int, pj: int, j: nat, m: nat, onesJ: nat, onesM: nat, bit: bool)
    requires (p1 - pj - (j - (m + 1)) - 2 * (onesJ - (onesM + if bit then 1 else 0))) % 4 == 0
    requires (p0 - p1 - 1 - if bit then 2 else 0) % 4 == 0
    ensures (p0 - pj - (j - m) - 2 * (onesJ - onesM)) % 4 == 0
  {
    CombineMod4(p1 - pj - (j - (m + 1)) - 2 * (onesJ - (onesM + if bit then 1 else 0)), p0 - p1 - 1 - if bit then 2 else 0);
  }

  lemma CombineMod4(a: int, b: int)
    requires a % 4 == 0 && b % 4 == 0
    ensures (a + b) % 4 == 0
  {
  }

  lemma StepDown(b: Bits, k: nat, o: Bits)
    requires Fits(b, o) && k < |b|
    ensures Target(b, k, o) == if b[k] then Flip(Target(b, k + 1, o), k / 2) else Target(b, k + 1, o)
    ensures ProductPhase(b, k, o) == ProductPhase(b, k + 1, o) + if b[k] then GammaPhase(k, Target(b, k + 1, o)) else 0
  {
  }

  lemma GammaOfMode(k: nat, m: nat, p: Bits)
    requires m < |p| && (k == 2 * m || k == 2 * m + 1)
    ensures k / 2 == m
    ensures GammaPhase(k, p) == 2 * Ones(p, m) + if k == 2 * m then 0 else if p[m] then 3 else 1
  {
    hide Ones;
    assert k / 2 == m;
    assert k % 2 == k - 2 * m;
  }

  lemma FlipTwice(p: Bits, m: nat)
    requires m < |p|
    ensures Ones(Flip(p, m), m) == Ones(p, m) && Flip(Flip(p, m), m) == p
  {
    OnesOfFlip(p, m, m);
  }

  /** One full pair of generators is i times Z on its mode. */
  lemma PairAt(b: Bits, k: nat, m: nat, o: Bits)
    requires Fits(b, o) && m < |o| && k == 2 * m && b[k] && b[k + 1]
    ensures Target(b, k, o) == Target(b, k + 2, o)
    ensures (ProductPhase(b, k, o) - ProductPhase(b, k + 2, o) - 1 - if Target(b, k + 2, o)[m] then 2 else 0) % 4 == 0
  {
    hide ProductPhase, Target, Ones, GammaPhase, Flip;
    var p := Target(b, k + 2, o);
    GammaOfMode(k + 1, m, p);
    GammaOfMode(k, m, Flip(p, m));
    FlipTwice(p, m);
    StepDown(b, k + 1, o);
    StepDown(b, k, o);
    PairMod4(ProductPhase(b, k, o), ProductPhase(b, k + 2, o), Ones(p, m), p[m]);
  }

  lemma PairMod4(a: int, b: int, ones: nat, bit: bool)
    requires a - b == 2 * ones + 2 * ones + if bit then 3 else 1
    ensures (a - b - 1 - if bit then 2 else 0) % 4 == 0
  {
    assert a - b - 1 - (if bit then 2 else 0) == 4 * ones;
  }

  /** One site is its ascending product of generators, up to the power of i in front. */
  lemma SiteIsProduct(n: nat, j: nat, x: bool, z: bool, o: Bits)
    requires j < n == |o| && (x || z)
    ensures var b := SiteKey(n, j, x, z);
      && Target(b, 0, o) == (if x then Flip(o, j) else o)
      && (ProductPhase(b, 0, o) + SiteFactor(j, x) - SiteAction(x, z, o[j])) % 4 == 0
  {
    SiteAt(n, 2 * j, j, x, z, o);
  }

  lemma SiteAt(n: nat, kj: nat, j: nat, x: bool, z: bool, o: Bits)
    requires j < n == |o| && (x || z) && kj == 2 * j
    ensures var b := SiteKey(n, j, x, z);
      && Target(b, 0, o) == (if x then Flip(o, j) else o)
      && (ProductPhase(b, 0, o) + SiteFactor(j, x) - SiteAction(x, z, o[j])) % 4 == 0
  {
    hide Target, ProductPhase, Ones, GammaPhase, Flip;
    var b := SiteKey(n, j, x, z);
    if x {
      var k := if z then kj + 1 else kj;
      NothingAbove(b, k + 1, o);
      StepDown(b, k, o);
      NothingBelow(b, kj, k, o);
      FullBelow(b, 0, 0, kj, j, o);
      GammaOfMode(k, j, o);
      FlipTwice(o, j);
      NoneBefore(Flip(o, j));
      FactorSum(ProductPhase(b, 0, o), ProductPhase(b, kj, o), j, Ones(Flip(o, j), j), Ones(Flip(o, j), 0),
                if z then (if o[j] then 3 else 1) else 0);
    } else {
      NothingAbove(b, kj + 2, o);
      PairAt(b, kj, j, o);
      NothingBelow(b, 0, kj, o);
      ZSite(ProductPhase(b, 0, o), o[j]);
    }
  }

  lemma ZSite(total: int, bit: bool)
    requires (total - 1 - if bit then 2 else 0) % 4 == 0
    ensures (total + 3 - if bit then 2 else 0) % 4 == 0
  {
  }

  lemma NoneBefore(o: Bits)
    ensures Ones(o, 0) == 0
  {
  }

  lemma FactorSum(total: int, top: int, j: nat, ones: nat, none: nat, act: nat)
    requires (total - top - j - 2 * (ones - none)) % 4 == 0 && none == 0 && top == 2 * ones + act
    ensures (total + (4 - j % 4) % 4 - act) % 4 == 0
  {
    var d := total - top - j - 2 * (ones - none);
    assert (4 - j % 4) % 4 == (if j % 4 == 0 then 0 else 4 - j % 4);
    assert total + (4 - j % 4) % 4 - act == d + 4 * ones + (j + (4 - j % 4) % 4);
  }

  // ---- the whole string

  /** The string with every site from j on replaced by the identity. */
  function Head(x: Bits, j: nat): (r: Bits)
    ensures |r| == |x|
  {
    seq(|x|, i requires 0 <= i < |x| => i < j && x[i])
  }

  lemma {:induction false} PhaseOfHead(x: Bits, z: Bits, o: Bits, j: nat, k: nat)
    requires |x| == |z| == |o| && j <= k <= |o|
    ensures PauliPhase(Head(x, j), Head(z, j), o, k) == PauliPhase(x, z, o, j)
    decreases k
  {
    if k == 0 {
    } else if k == j {
      PhaseOfSame(Head(x, j), Head(z, j), x, z, o, o, j);
    } else {
      PhaseOfHead(x, z, o, j, k - 1);
    }
  }

  lemma {:induction false} PhaseOfSame(x: Bits, z: Bits, x': Bits, z': Bits, o: Bits, o': Bits, k: nat)
    requires |x| == |z| == |o| == |x'| == |z'| == |o'| && k <= |o|
    requires forall i | 0 <= i < k :: x[i] == x'[i] && z[i] == z'[i] && o[i] == o'[i]
    ensures PauliPhase(x, z, o, k) == PauliPhase(x', z', o', k)
  {
    if k == 0 {
    } else {
      PhaseOfSame(x, z, x', z', o, o', k - 1);
    }
  }

  lemma SkipSite(n: nat, b: Bits, e: int, x: Bits, z: Bits, j: nat)
    requires |b| == 2 * n && |x| == |z| == n && j < n && !x[j] && !z[j]
    requires Represents(n, b, e, Head(x, j), Head(z, j))
    ensures Represents(n, b, e, Head(x, j + 1), Head(z, j + 1))
  {
    hide Represents;
    assert Head(x, j + 1) == Head(x, j) && Head(z, j + 1) == Head(z, j);
  }

  /** Multiplying by one more site. */
  lemma NextSite(n: nat, b: Bits, e: nat, x: Bits, z: Bits, j: nat)
    requires |b| == 2 * n && |x| == |z| == n && j < n && (x[j] || z[j])
    requires Represents(n, b, e, Head(x, j), Head(z, j))
    ensures var s := SiteKey(n, j, x[j], z[j]);
      Represents(n, Xor(b, s), NextExponent(e, SiteFactor(j, x[j]), HermitianPhase(Length(s)), MulPhase(b, s)),
                 Head(x, j + 1), Head(z, j + 1))
  {
    hide Represents;
    var s := SiteKey(n, j, x[j], z[j]);
    var e' := NextExponent(e, SiteFactor(j, x[j]), HermitianPhase(Length(s)), MulPhase(b, s));
    forall o | |o| == n ensures RepresentsAt(n, Xor(b, s), e', Head(x, j + 1), Head(z, j + 1), o) {
      NextSiteAt(n, b, e, x, z, j, o);
    }
    RepresentsAll(n, Xor(b, s), e', Head(x, j + 1), Head(z, j + 1));
  }

  lemma RepresentsAll(n: nat, b: Bits, e: int, x: Bits, z: Bits)
    requires |b| == 2 * n && |x| == |z| == n && forall o | |o| == n :: RepresentsAt(n, b, e, x, z, o)
    ensures Represents(n, b, e, x, z)
  {
  }

  lemma ReadAt(n: nat, b: Bits, e: int, x: Bits, z: Bits, o: Bits)
    requires |b| == 2 * n && |x| == |z| == |o| == n && Represents(n, b, e, x, z)
    ensures Fits(b, o) && Target(b, 0, o) == Xor(o, x) && (MonomialPhase(b, o) + e - PauliPhase(x, z, o, n)) % 4 == 0
  {
    assert RepresentsAt(n, b, e, x, z, o);
  }

  function NextExponent(e: nat, ph: nat, r: nat, me: nat): nat
    requires r < 4
  {
    (e + (ph + 4 - r) % 4 + me) % 4
  }

  lemma NextSiteAt(n: nat, b: Bits, e: nat, x: Bits, z: Bits, j: nat, o: Bits)
    requires |b| == 2 * n && |x| == |z| == |o| == n && j < n && (x[j] || z[j])
    requires Represents(n, b, e, Head(x, j), Head(z, j))
    ensures var s := SiteKey(n, j, x[j], z[j]);
      RepresentsAt(n, Xor(b, s), NextExponent(e, SiteFactor(j, x[j]), HermitianPhase(Length(s)), MulPhase(b, s)),
                   Head(x, j + 1), Head(z, j + 1), o)
  {
    hide *;
    var s := SiteKey(n, j, x[j], z[j]);
    var o' := if x[j] then Flip(o, j) else o;
    ReadAt(n, b, e, Head(x, j), Head(z, j), o');
    HeadStep(x, z, j, o, o');
    SiteIsProduct(n, j, x[j], z[j], o);
    Fitting(b, o);
    Fitting(s, o);
    Fitting(b, o');
    Fitting(Xor(b, s), o);
    MonomialProduct(b, s, o);
    MonomialParts(s, o);
    ExponentSum(e, SiteFactor(j, x[j]), HermitianPhase(Length(s)), MulPhase(b, s), ProductPhase(s, 0, o),
                MonomialPhase(b, o'), MonomialPhase(Xor(b, s), o), SiteAction(x[j], z[j], o[j]), PauliPhase(x, z, o, j));
    MakeAt(n, Xor(b, s), NextExponent(e, SiteFactor(j, x[j]), HermitianPhase(Length(s)), MulPhase(b, s)), Head(x, j + 1), Head(z, j + 1), o);
  }

  lemma Fitting(b: Bits, o: Bits)
    requires |b| == 2 * |o|
    ensures Fits(b, o)
  {
  }

  lemma MonomialParts(b: Bits, o: Bits)
    requires Fits(b, o)
    ensures MonomialPhase(b, o) == HermitianPhase(Length(b)) + ProductPhase(b, 0, o) && HermitianPhase(Length(b)) < 4
  {
  }

  lemma MakeAt(n: nat, b: Bits, e: int, x: Bits, z: Bits, o: Bits)
    requires |b| == 2 * n && |x| == |z| == |o| == n && Fits(b, o)
    requires Target(b, 0, o) == Xor(o, x) && (MonomialPhase(b, o) + e - PauliPhase(x, z, o, n)) % 4 == 0
    ensures RepresentsAt(n, b, e, x, z, o)
  {
  }

  lemma HeadStep(x: Bits, z: Bits, j: nat, o: Bits, o': Bits)
    requires |x| == |z| == |o| && j < |o| && o' == if x[j] then Flip(o, j) else o
    ensures Xor(o', Head(x, j)) == Xor(o, Head(x, j + 1))
    ensures PauliPhase(Head(x, j), Head(z, j), o', |o|) == PauliPhase(x, z, o, j)
    ensures PauliPhase(Head(x, j + 1), Head(z, j + 1), o, |o|) == PauliPhase(x, z, o, j) + SiteAction(x[j], z[j], o[j])
  {
    PhaseOfHead(x, z, o', j, |o|);
    PhaseOfHead(x, z, o, j + 1, |o|);
    PhaseOfSame(x, z, x, z, o, o', j);
  }

  lemma ExponentSum(e: nat, ph: nat, r: nat, me: nat, pp: int, mb: int, mn: int, act: int, pauli: int)
    requires r < 4 && (pp + ph - act) % 4 == 0 && (r + pp + mb - mn - me) % 4 == 0 && (mb + e - pauli) % 4 == 0
    ensures (mn + NextExponent(e, ph, r, me) - (pauli + act)) % 4 == 0
  {
    var f := ph + 4 - r;
    var g := e + f % 4 + me;
    var a, b, c := pp + ph - act, r + pp + mb - mn - me, mb + e - pauli;
    assert mn + g % 4 - (pauli + act) == a - b + c + 4 - 4 * (f / 4) - 4 * (g / 4);
  }

  lemma StartSite(n: nat, x: Bits, z: Bits)
    requires |x| == |z| == n
    ensures Represents(n, Zero(2 * n), 0, Head(x, 0), Head(z, 0))
  {
    NoOnes(2 * n, 2 * n);
    forall o | |o| == n ensures RepresentsAt(n, Zero(2 * n), 0, Head(x, 0), Head(z, 0), o) {
      ZeroTarget(n, 0, o);
      PhaseOfHead(x, z, o, 0, n);
      assert Xor(o, Head(x, 0)) == o;
    }
  }

  // ---- which generators appear

  /** Whether an odd number of the sites i with j < i < m flip their bit: their Z strings reach site j. */
  function Strings(x: Bits, j: nat, m: nat): bool
    requires m <= |x|
  {
    if m <= j + 1 then false else Strings(x, j, m - 1) != x[m - 1]
  }

  /** The monomial of the first m sites, bit by bit. */
  ghost predicate KeyUpTo(n: nat, b: Bits, x: Bits, z: Bits, m: nat)
    requires |b| == 2 * n && |x| == |z| == n && m <= n
  {
    forall j | 0 <= j < n :: KeyAt(n, b, x, z, m, j)
  }

  ghost predicate KeyAt(n: nat, b: Bits, x: Bits, z: Bits, m: nat, j: nat)
    requires |b| == 2 * n && |x| == |z| == n && m <= n && j < n
  {
    && b[2 * j] == ((j < m && x[j] != z[j]) != Strings(x, j, m))
    && b[2 * j + 1] == ((j < m && z[j]) != Strings(x, j, m))
  }

  /** The monomial of a whole string. */
  function KeyOf(x: Bits, z: Bits): (b: Bits)
    requires |x| == |z|
    ensures |b| == 2 * |x|
  {
    seq(2 * |x|, i requires 0 <= i < 2 * |x| => (if i % 2 == 0 then x[i / 2] != z[i / 2] else z[i / 2]) != Strings(x, i / 2, |x|))
  }

  lemma KeyIsKeyOf(n: nat, b: Bits, x: Bits, z: Bits)
    requires |b| == 2 * n && |x| == |z| == n && KeyUpTo(n, b, x, z, n)
    ensures b == KeyOf(x, z)
  {
    hide Strings;
    forall i | 0 <= i < 2 * n ensures b[i] == KeyOf(x, z)[i] {
      assert KeyAt(n, b, x, z, n, i / 2);
      assert i == 2 * (i / 2) || i == 2 * (i / 2) + 1;
    }
  }

  lemma KeyNext(n: nat, b: Bits, x: Bits, z: Bits, m: nat)
    requires |b| == 2 * n && |x| == |z| == n && m < n && KeyUpTo(n, b, x, z, m)
    ensures x[m] || z[m] ==> KeyUpTo(n, Xor(b, SiteKey(n, m, x[m], z[m])), x, z, m + 1)
    ensures !x[m] && !z[m] ==> KeyUpTo(n, b, x, z, m + 1)
  {
    var s := SiteKey(n, m, x[m], z[m]);
    var b' := if x[m] || z[m] then Xor(b, s) else b;
    forall j {:trigger KeyAt(n, b', x, z, m + 1, j)} | 0 <= j < n ensures KeyAt(n, b', x, z, m + 1, j) {
      assert KeyAt(n, b, x, z, m, j);
    }
  }

  /** The product of what has been multiplied up so far with one more site. */
  function TimesSite(n: nat, key: Bits, e: nat, j: nat, x: bool, z: bool): (Bits, nat)
    requires |key| == 2 * n && j < n
  {
    var s := SiteKey(n, j, x, z);
    (Xor(key, s), NextExponent(e, SiteFactor(j, x), HermitianPhase(Length(s)), MulPhase(key, s)))
  }

  /** The first j sites have been multiplied up. */
  ghost predicate Condensed(x: Bits, z: Bits, key: Bits, e: nat, steps: nat, j: nat)
    requires |x| == |z| && j <= |x|
  {
    && |key| == 2 * |x| && e < 4
    && Represents(|x|, key, e, Head(x, j), Head(z, j))
    && KeyUpTo(|x|, key, x, z, j)
    && steps == Touched(x, z, j)
  }

  lemma CondensedStart(x: Bits, z: Bits)
    requires |x| == |z|
    ensures Condensed(x, z, Zero(2 * |x|), 0, 0, 0)
  {
    StartSite(|x|, x, z);
    KeyStart(|x|, x, z);
  }

  lemma CondensedNext(x: Bits, z: Bits, key: Bits, e: nat, steps: nat, j: nat)
    requires |x| == |z| && j < |x| && Condensed(x, z, key, e, steps, j)
    ensures |key| == 2 * |x|
    ensures !x[j] && !z[j] ==> Condensed(x, z, key, e, steps, j + 1)
    ensures x[j] || z[j] ==>
      var (key', e') := TimesSite(|x|, key, e, j, x[j], z[j]);
      Condensed(x, z, key', e', steps + 1, j + 1)
  {
    hide Represents, Xor, SiteKey, KeyUpTo, MulPhase, Length, SiteFactor, Head;
    KeyNext(|x|, key, x, z, j);
    if !x[j] && !z[j] {
      SkipSite(|x|, key, e, x, z, j);
    } else {
      NextSite(|x|, key, e, x, z, j);
    }
  }

  lemma CondensedEnd(x: Bits, z: Bits, key: Bits, e: nat, steps: nat)
    requires |x| == |z| && Condensed(x, z, key, e, steps, |x|)
    ensures |key| == 2 * |x| && Represents(|x|, key, e, x, z) && (e == 0 || e == 2)
    ensures KeyUpTo(|x|, key, x, z, |x|) && steps == Touched(x, z, |x|)
  {
    hide Represents, KeyUpTo, Head, Xor, Touched;
    WholeHead(x);
    WholeHead(z);
    ExponentIsEven(|x|, key, e, x, z);
  }

  /** The monomial a Pauli string is, and the power of i between them, which is always a sign. */
  method FromPauli(x: Bits, z: Bits) returns (key: Bits, e: nat, steps: nat)
    requires |x| == |z|
    ensures |key| == 2 * |x| && Represents(|x|, key, e, x, z)
    ensures e == 0 || e == 2
    ensures KeyUpTo(|x|, key, x, z, |x|)
    ensures steps == Touched(x, z, |x|)
  {
    hide *;
    var n, j := |x|, 0;
    key, e, steps := Zero(2 * n), 0, 0;
    CondensedStart(x, z);
    while j < n
      invariant j <= n && Condensed(x, z, key, e, steps, j)
    {
      CondensedNext(x, z, key, e, steps, j);
      if x[j] || z[j] {
        var (key', e') := TimesSite(n, key, e, j, x[j], z[j]);
        key, e, steps := key', e', steps + 1;
      }
      j := j + 1;
    }
    CondensedEnd(x, z, key, e, steps);
  }

  /** How many sites are not the identity. */
  function Touched(x: Bits, z: Bits, k: nat): nat
    requires |x| == |z| && k <= |x|
  {
    if k == 0 then 0 else Touched(x, z, k - 1) + if x[k - 1] || z[k - 1] then 1 else 0
  }

  lemma WholeHead(x: Bits)
    ensures Head(x, |x|) == x
  {
  }

  lemma KeyStart(n: nat, x: Bits, z: Bits)
    requires |x| == |z| == n
    ensures KeyUpTo(n, Zero(2 * n), x, z, 0)
  {
  }

  /** Both the string and the monomial square to one, so the power of i between them is a sign. */
  lemma ExponentIsEven(n: nat, b: Bits, e: int, x: Bits, z: Bits)
    requires |b| == 2 * n && |x| == |z| == n && Represents(n, b, e, x, z)
    ensures e % 2 == 0
  {
    hide *;
    var o := Zero(n);
    var p := Xor(o, x);
    ReadAt(n, b, e, x, z, o);
    ReadAt(n, b, e, x, z, p);
    PauliSquares(x, z, o, n);
    SquarePhase(n, b, o);
    EvenFromSquares(MonomialPhase(b, o), MonomialPhase(b, p), PauliPhase(x, z, o, n), PauliPhase(x, z, p, n), e);
  }

  lemma SquarePhase(n: nat, b: Bits, o: Bits)
    requires |b| == 2 * n && |o| == n
    ensures (MonomialPhase(b, o) + MonomialPhase(b, Target(b, 0, o))) % 4 == 0
  {
    hide MulPhase, Xor, Target, ProductPhase, Ones;
    MonomialProduct(b, b, o);
    SelfPhase(b);
    ZeroTarget(n, 0, o);
    NoOnes(2 * n, 2 * n);
  }

  lemma EvenFromSquares(m: int, m': int, q: int, q': int, e: int)
    requires (m + e - q) % 4 == 0 && (m' + e - q') % 4 == 0 && (q + q') % 4 == 0 && (m + m') % 4 == 0
    ensures e % 2 == 0
  {
    var a, b, c, d := m + e - q, m' + e - q', q + q', m + m';
    assert 2 * e == a + b + c - d;
  }

  lemma {:induction false} PauliSquares(x: Bits, z: Bits, o: Bits, k: nat)
    requires |x| == |z| == |o| && k <= |o|
    ensures (PauliPhase(x, z, o, k) + PauliPhase(x, z, Xor(o, x), k)) % 4 == 0
  {
    if k == 0 {
    } else {
      PauliSquares(x, z, o, k - 1);
      assert Xor(o, x)[k - 1] == (o[k - 1] != x[k - 1]);
      CombineMod4(PauliPhase(x, z, o, k - 1) + PauliPhase(x, z, Xor(o, x), k - 1),
                  SiteAction(x[k - 1], z[k - 1], o[k - 1]) + SiteAction(x[k - 1], z[k - 1], Xor(o, x)[k - 1]));
    }
  }
}
