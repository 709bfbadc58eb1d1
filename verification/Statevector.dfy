/**
  The dense statevector oracle: gate loops that update an array of 2^n amplitudes
  in place.  Every gate mixes disjoint pairs of amplitudes by a two-by-two matrix;
  the loops are proved to update each pair exactly once, and unitary gates to keep
  every weight that their pairs share.
*/
module Statevector {
  import opened Wrappers
  import opened Linear
  import opened ComplexNumbers

  // ---- basis indices, bit by bit

  function Pow2(n: nat): (r: nat)
    ensures r > 0
  {
    if n == 0 then 1 else 2 * Pow2(n - 1)
  }

  /** Bit q of index i. */
  predicate Bit(i: nat, q: nat) {
    if q == 0 then i % 2 == 1 else Bit(i / 2, q - 1)
  }

  /** The index with bit q set to v. */
  function With(i: nat, q: nat, v: bool): nat {
    if q == 0 then i - i % 2 + (if v then 1 else 0) else 2 * With(i / 2, q - 1, v) + i % 2
  }

  lemma {:induction false} WithBits(i: nat, q: nat, v: bool, p: nat)
    ensures Bit(With(i, q, v), p) == if p == q then v else Bit(i, p)
  {
    var j := With(i, q, v);
    if q == 0 {
      assert j / 2 == i / 2;
    } else {
      assert j / 2 == With(i / 2, q - 1, v) && j % 2 == i % 2;
      if p > 0 {
        WithBits(i / 2, q - 1, v, p - 1);
      }
    }
  }

  lemma {:induction false} WithInRange(i: nat, q: nat, v: bool, n: nat)
    requires i < Pow2(n) && q < n
    ensures With(i, q, v) < Pow2(n)
  {
    var half := Pow2(n - 1);
    assert Pow2(n) == 2 * half && i / 2 < half;
    if q > 0 {
      WithInRange(i / 2, q - 1, v, n - 1);
    }
  }

  lemma {:induction false} SameBits(i: nat, j: nat, n: nat)
    requires i < Pow2(n) && j < Pow2(n) && forall p | 0 <= p < n :: Bit(i, p) == Bit(j, p)
    ensures i == j
  {
    if n == 0 {
    } else {
      assert Bit(i, 0) == Bit(j, 0);
      forall p | 0 <= p < n - 1 ensures Bit(i / 2, p) == Bit(j / 2, p) {
        assert Bit(i, p + 1) == Bit(j, p + 1);
      }
      SameBits(i / 2, j / 2, n - 1);
    }
  }

  /** Setting a bit is adding its power of two when it was clear. */
  lemma {:induction false} WithAdds(i: nat, q: nat)
    ensures Bit(i, q) ==> With(i, q, true) == i && With(i, q, false) == i - Pow2(q)
    ensures !Bit(i, q) ==> With(i, q, true) == i + Pow2(q) && With(i, q, false) == i
  {
    if q == 0 {
    } else {
      WithAdds(i / 2, q - 1);
    }
  }

  /** The number of set bits. */
  function Hamming(i: nat): nat {
    if i == 0 then 0 else Hamming(i / 2) + i % 2
  }

  lemma {:induction false} HammingWith(i: nat, q: nat)
    ensures Hamming(With(i, q, true)) == Hamming(With(i, q, false)) + 1
  {
    var a, b := With(i, q, true), With(i, q, false);
    if q == 0 {
      assert a / 2 == b / 2 == i / 2;
    } else {
      HammingWith(i / 2, q - 1);
      assert a / 2 == With(i / 2, q - 1, true) && b / 2 == With(i / 2, q - 1, false);
      assert a % 2 == b % 2 == i % 2;
    }
  }

  // ---- which pairs of amplitudes a gate mixes

  datatype Wires =
    | Single(q: nat)
    | Controlled(ctrl: nat, q: nat)
    | Exchange(a: nat, b: nat)
    | Toffoli(c0: nat, c1: nat, q: nat)
    | ControlledExchange(ctrl: nat, a: nat, b: nat)
  {
    /** Distinct wires among n. */
    predicate Valid(n: nat) {
      match this
      case Single(q) => q < n
      case Controlled(ctrl, q) => ctrl < n && q < n && ctrl != q
      case Exchange(a, b) => a < n && b < n && a != b
      case Toffoli(c0, c1, q) => c0 < n && c1 < n && q < n && c0 != q && c1 != q && c0 != c1
      case ControlledExchange(ctrl, a, b) => ctrl < n && a < n && b < n && a != b && ctrl != a && ctrl != b
    }

    /** Whether the gate touches amplitude k. */
    predicate Acts(k: nat) {
      match this
      case Single(_) => true
      case Controlled(ctrl, _) => Bit(k, ctrl)
      case Exchange(a, b) => Bit(k, a) != Bit(k, b)
      case Toffoli(c0, c1, _) => Bit(k, c0) && Bit(k, c1)
      case ControlledExchange(ctrl, a, b) => Bit(k, ctrl) && Bit(k, a) != Bit(k, b)
    }

    /** Whether k is the second member of its pair. */
    predicate Second(k: nat) {
      match this
      case Single(q) => Bit(k, q)
      case Controlled(_, q) => Bit(k, q)
      case Exchange(a, _) => !Bit(k, a)
      case Toffoli(_, _, q) => Bit(k, q)
      case ControlledExchange(_, a, _) => !Bit(k, a)
    }

    /** The other member. */
    function Partner(k: nat): nat {
      match this
      case Single(q) => With(k, q, !Bit(k, q))
      case Controlled(_, q) => With(k, q, !Bit(k, q))
      case Exchange(a, b) => With(With(k, a, !Bit(k, a)), b, !Bit(k, b))
      case Toffoli(_, _, q) => With(k, q, !Bit(k, q))
      case ControlledExchange(_, a, b) => With(With(k, a, !Bit(k, a)), b, !Bit(k, b))
    }

    predicate Flips(p: nat) {
      match this
      case Single(q) => p == q
      case Controlled(_, q) => p == q
      case Exchange(a, b) => p == a || p == b
      case Toffoli(_, _, q) => p == q
      case ControlledExchange(_, a, b) => p == a || p == b
    }
  }

  lemma PartnerBit(w: Wires, n: nat, k: nat, p: nat)
    requires w.Valid(n)
    ensures Bit(w.Partner(k), p) == (Bit(k, p) != w.Flips(p))
  {
    hide Bit, With;
    match w {
      case Single(q) => WithBits(k, q, !Bit(k, q), p);
      case Controlled(_, q) => WithBits(k, q, !Bit(k, q), p);
      case Toffoli(_, _, q) => WithBits(k, q, !Bit(k, q), p);
      case Exchange(a, b) =>
        WithBits(With(k, a, !Bit(k, a)), b, !Bit(k, b), p);
        WithBits(k, a, !Bit(k, a), p);
      case ControlledExchange(_, a, b) =>
        WithBits(With(k, a, !Bit(k, a)), b, !Bit(k, b), p);
        WithBits(k, a, !Bit(k, a), p);
    }
  }

  lemma PartnerInRange(w: Wires, n: nat, k: nat)
    requires w.Valid(n) && k < Pow2(n)
    ensures w.Partner(k) < Pow2(n)
  {
    hide Bit, With;
    match w {
      case Single(q) => WithInRange(k, q, !Bit(k, q), n);
      case Controlled(_, q) => WithInRange(k, q, !Bit(k, q), n);
      case Toffoli(_, _, q) => WithInRange(k, q, !Bit(k, q), n);
      case Exchange(a, b) =>
        WithInRange(k, a, !Bit(k, a), n);
        WithInRange(With(k, a, !Bit(k, a)), b, !Bit(k, b), n);
      case ControlledExchange(_, a, b) =>
        WithInRange(k, a, !Bit(k, a), n);
        WithInRange(With(k, a, !Bit(k, a)), b, !Bit(k, b), n);
    }
  }

  /** The gate pairs the amplitudes up: partners are mutual, on opposite sides, and touched together. */
  lemma Pairing(w: Wires, n: nat, k: nat)
    requires w.Valid(n) && k < Pow2(n)
    ensures var p := w.Partner(k);
      p < Pow2(n) && w.Partner(p) == k && p != k && w.Acts(p) == w.Acts(k) && (w.Acts(k) ==> w.Second(p) != w.Second(k))
  {
    hide Bit, With;
    var p := w.Partner(k);
    PartnerInRange(w, n, k);
    PartnerInRange(w, n, p);
    forall j | 0 <= j < n
      ensures Bit(w.Partner(p), j) == Bit(k, j)
      ensures Bit(p, j) == (Bit(k, j) != w.Flips(j))
    {
      PartnerBit(w, n, k, j);
      PartnerBit(w, n, p, j);
    }
    SameBits(w.Partner(p), k, n);
  }

  // ---- the linear map of a gate

  datatype Kernel = Kernel(m00: Complex, m01: Complex, m10: Complex, m11: Complex) {
    function Upper(a: Complex, b: Complex): Complex { Add(Mul(m00, a), Mul(m01, b)) }

    function Lower(a: Complex, b: Complex): Complex { Add(Mul(m10, a), Mul(m11, b)) }
  }

  type State = seq<Complex>

  ghost function ActedAt(w: Wires, m: Kernel, n: nat, s: State, k: nat): Complex
    requires w.Valid(n) && |s| == Pow2(n) && k < |s|
  {
    Pairing(w, n, k);
    if !w.Acts(k) then s[k]
    else if !w.Second(k) then m.Upper(s[k], s[w.Partner(k)])
    else m.Lower(s[w.Partner(k)], s[k])
  }

  /** The state after the gate. */
  ghost function Acted(w: Wires, m: Kernel, n: nat, s: State): (r: State)
    requires w.Valid(n) && |s| == Pow2(n)
    ensures |r| == |s| && forall k | 0 <= k < |s| :: r[k] == ActedAt(w, m, n, s, k)
  {
    seq(|s|, k requires 0 <= k < |s| => ActedAt(w, m, n, s, k))
  }

  // ---- the loops

  /** The index at which the loop treats the pair of k. */
  ghost function Turn(w: Wires, k: nat): nat {
    if w.Second(k) then w.Partner(k) else k
  }

  /** The pairs whose turn came before i are done, the others are untouched. */
  ghost predicate Partial(w: Wires, m: Kernel, n: nat, s: State, now: State, i: nat)
    requires w.Valid(n) && |s| == Pow2(n)
  {
    |now| == |s| && forall k | 0 <= k < |s| :: PartialAt(w, m, n, s, now, i, k)
  }

  ghost predicate PartialAt(w: Wires, m: Kernel, n: nat, s: State, now: State, i: nat, k: nat)
    requires w.Valid(n) && |s| == |now| == Pow2(n) && k < |s|
  {
    now[k] == if w.Acts(k) && Turn(w, k) < i then ActedAt(w, m, n, s, k) else s[k]
  }

  lemma PartialStart(w: Wires, m: Kernel, n: nat, s: State)
    requires w.Valid(n) && |s| == Pow2(n)
    ensures Partial(w, m, n, s, s, 0)
  {
  }

  /** One turn of the loop: the pair met at its first member is treated, anything else is passed over. */
  lemma PartialStep(w: Wires, m: Kernel, n: nat, s: State, now: State, i: nat)
    requires w.Valid(n) && |s| == |now| == Pow2(n) && i < |s| && Partial(w, m, n, s, now, i)
    ensures var p := w.Partner(i);
      p < |s| && p != i &&
      Partial(w, m, n, s, if w.Acts(i) && !w.Second(i) then now[i := m.Upper(now[i], now[p])][p := m.Lower(now[i], now[p])] else now, i + 1)
  {
    hide Wires.Acts, Wires.Second, Wires.Partner, Wires.Valid, Kernel.Upper, Kernel.Lower, Partial;
    Pairing(w, n, i);
    var p := w.Partner(i);
    PartialRead(w, m, n, s, now, i, i);
    PartialRead(w, m, n, s, now, i, p);
    var next := if w.Acts(i) && !w.Second(i) then now[i := m.Upper(now[i], now[p])][p := m.Lower(now[i], now[p])] else now;
    var i' := i + 1;
    forall k | 0 <= k < |s| ensures PartialAt(w, m, n, s, next, i', k) {
      Pairing(w, n, k);
      PartialRead(w, m, n, s, now, i, k);
    }
    PartialAll(w, m, n, s, next, i');
  }

  lemma PartialRead(w: Wires, m: Kernel, n: nat, s: State, now: State, i: nat, k: nat)
    requires w.Valid(n) && |s| == Pow2(n) && k < |s| && Partial(w, m, n, s, now, i)
    ensures |now| == |s| && PartialAt(w, m, n, s, now, i, k)
  {
  }

  lemma PartialAll(w: Wires, m: Kernel, n: nat, s: State, now: State, i: nat)
    requires w.Valid(n) && |s| == |now| == Pow2(n) && forall k | 0 <= k < |s| :: PartialAt(w, m, n, s, now, i, k)
    ensures Partial(w, m, n, s, now, i)
  {
  }

  lemma PartialEnd(w: Wires, m: Kernel, n: nat, s: State, now: State)
    requires w.Valid(n) && |s| == |now| == Pow2(n) && Partial(w, m, n, s, now, |s|)
    ensures now == Acted(w, m, n, s)
  {
    hide Wires.Acts, Wires.Second, Wires.Partner;
    forall k | 0 <= k < |s| ensures now[k] == ActedAt(w, m, n, s, k) {
      Pairing(w, n, k);
      assert PartialAt(w, m, n, s, now, |s|, k);
    }
  }

  const NOT := Kernel(ZERO, ONE, ONE, ZERO)

  /** A two-by-two matrix on one qubit. */
  method Apply1Q(ghost n: nat, sv: array<Complex>, q: nat, m: Kernel)
    requires sv.Length == Pow2(n) && q < n
    modifies sv
    ensures sv[..] == Acted(Single(q), m, n, old(sv[..]))
  {
    ghost var w, s := Single(q), sv[..];
    hide Partial, Acted, Bit, With, Kernel.Upper, Kernel.Lower, Pow2;
    PartialStart(w, m, n, s);
    var i := 0;
    while i < sv.Length
      invariant i <= sv.Length && Partial(w, m, n, s, sv[..], i)
    {
      PartialStep(w, m, n, s, sv[..], i);
      if !Bit(i, q) {
        var j := With(i, q, true);
        var a0, a1 := sv[i], sv[j];
        sv[i] := Add(Mul(m.m00, a0), Mul(m.m01, a1));
        sv[j] := Add(Mul(m.m10, a0), Mul(m.m11, a1));
      }
      i := i + 1;
    }
    PartialEnd(w, m, n, s, sv[..]);
  }

  /** A two-by-two matrix on `tgt`, where `ctrl` is set. */
  method ApplyControlled1Q(ghost n: nat, sv: array<Complex>, ctrl: nat, tgt: nat, m: Kernel)
    requires sv.Length == Pow2(n) && Controlled(ctrl, tgt).Valid(n)
    modifies sv
    ensures sv[..] == Acted(Controlled(ctrl, tgt), m, n, old(sv[..]))
  {
    ghost var w, s := Controlled(ctrl, tgt), sv[..];
    hide Partial, Acted, Bit, With, Kernel.Upper, Kernel.Lower, Pow2;
    PartialStart(w, m, n, s);
    var i := 0;
    while i < sv.Length
      invariant i <= sv.Length && Partial(w, m, n, s, sv[..], i)
    {
      PartialStep(w, m, n, s, sv[..], i);
      if Bit(i, ctrl) && !Bit(i, tgt) {
        var j := With(i, tgt, true);
        var a0, a1 := sv[i], sv[j];
        sv[i] := Add(Mul(m.m00, a0), Mul(m.m01, a1));
        sv[j] := Add(Mul(m.m10, a0), Mul(m.m11, a1));
      }
      i := i + 1;
    }
    PartialEnd(w, m, n, s, sv[..]);
  }

  lemma NotSwaps(a: Complex, b: Complex)
    ensures NOT.Upper(a, b) == b && NOT.Lower(a, b) == a
  {
  }

  lemma WithTwice(i: nat, a: nat, v: bool, b: nat, u: bool, n: nat)
    requires a != b && a < n && b < n && i < Pow2(n)
    ensures With(With(i, a, v), b, u) == With(With(i, b, u), a, v)
  {
    hide Bit, With;
    WithInRange(i, a, v, n);
    WithInRange(With(i, a, v), b, u, n);
    WithInRange(i, b, u, n);
    WithInRange(With(i, b, u), a, v, n);
    forall p | 0 <= p < n ensures Bit(With(With(i, a, v), b, u), p) == Bit(With(With(i, b, u), a, v), p) {
      WithBits(i, a, v, p);
      WithBits(With(i, a, v), b, u, p);
      WithBits(i, b, u, p);
      WithBits(With(i, b, u), a, v, p);
    }
    SameBits(With(With(i, a, v), b, u), With(With(i, b, u), a, v), n);
  }

  /** Exchange the amplitudes whose bits a and b differ. */
  method SwapWires(ghost n: nat, sv: array<Complex>, a: nat, b: nat)
    requires sv.Length == Pow2(n) && Exchange(a, b).Valid(n)
    modifies sv
    ensures sv[..] == Acted(Exchange(a, b), NOT, n, old(sv[..]))
  {
    ghost var w, s := Exchange(a, b), sv[..];
    hide Partial, Acted, Bit, With, Kernel.Upper, Kernel.Lower, Pow2, NOT;
    PartialStart(w, NOT, n, s);
    var i := 0;
    while i < sv.Length
      invariant i <= sv.Length && Partial(w, NOT, n, s, sv[..], i)
    {
      PartialStep(w, NOT, n, s, sv[..], i);
      if Bit(i, a) && !Bit(i, b) {
        var j := With(With(i, a, false), b, true);
        NotSwaps(sv[i], sv[j]);
        sv[i], sv[j] := sv[j], sv[i];
      }
      i := i + 1;
    }
    PartialEnd(w, NOT, n, s, sv[..]);
  }

  function Givens(cos: real, sin: real): Kernel { Kernel(C(cos, 0.0), C(-sin, 0.0), C(sin, 0.0), C(cos, 0.0)) }

  lemma GivensRow(cos: real, sin: real, a: Complex, b: Complex)
    ensures Givens(cos, sin).Upper(a, b) == Minus(Mul(C(cos, 0.0), a), Mul(C(sin, 0.0), b))
    ensures Givens(cos, sin).Lower(a, b) == Add(Mul(C(sin, 0.0), a), Mul(C(cos, 0.0), b))
  {
  }

  function Minus(a: Complex, b: Complex): Complex { C(a.re - b.re, a.im - b.im) }

  /** The Givens rotation of the amplitudes whose bits q0 and q1 differ. */
  method RotateGivens(ghost n: nat, sv: array<Complex>, q0: nat, q1: nat, cos: real, sin: real)
    requires sv.Length == Pow2(n) && Exchange(q1, q0).Valid(n)
    modifies sv
    ensures sv[..] == Acted(Exchange(q1, q0), Givens(cos, sin), n, old(sv[..]))
  {
    ghost var w, m, s := Exchange(q1, q0), Givens(cos, sin), sv[..];
    hide Partial, Acted, Bit, With, Kernel.Upper, Kernel.Lower, Pow2, Givens, Mul, Add, Minus;
    PartialStart(w, m, n, s);
    var i := 0;
    while i < sv.Length
      invariant i <= sv.Length && Partial(w, m, n, s, sv[..], i)
    {
      PartialStep(w, m, n, s, sv[..], i);
      if !Bit(i, q0) && Bit(i, q1) {
        var j := With(With(i, q0, true), q1, false);
        WithTwice(i, q1, false, q0, true, n);
        var a01, a10 := sv[i], sv[j];
        GivensRow(cos, sin, a01, a10);
        sv[i] := Minus(Mul(C(cos, 0.0), a01), Mul(C(sin, 0.0), a10));
        sv[j] := Add(Mul(C(sin, 0.0), a01), Mul(C(cos, 0.0), a10));
      }
      i := i + 1;
    }
    PartialEnd(w, m, n, s, sv[..]);
  }

  /** X on `t` where both controls are set. */
  method ApplyToffoli(ghost n: nat, sv: array<Complex>, c0: nat, c1: nat, t: nat)
    requires sv.Length == Pow2(n) && Toffoli(c0, c1, t).Valid(n)
    modifies sv
    ensures sv[..] == Acted(Toffoli(c0, c1, t), NOT, n, old(sv[..]))
  {
    ghost var w, s := Toffoli(c0, c1, t), sv[..];
    hide Partial, Acted, Bit, With, Kernel.Upper, Kernel.Lower, Pow2, NOT;
    PartialStart(w, NOT, n, s);
    var i := 0;
    while i < sv.Length
      invariant i <= sv.Length && Partial(w, NOT, n, s, sv[..], i)
    {
      PartialStep(w, NOT, n, s, sv[..], i);
      if Bit(i, c0) && Bit(i, c1) && !Bit(i, t) {
        var j := With(i, t, true);
        NotSwaps(sv[i], sv[j]);
        sv[i], sv[j] := sv[j], sv[i];
      }
      i := i + 1;
    }
    PartialEnd(w, NOT, n, s, sv[..]);
  }

  /** Exchange a and b where the control is set. */
  method ApplyControlledSwap(ghost n: nat, sv: array<Complex>, ctrl: nat, a: nat, b: nat)
    requires sv.Length == Pow2(n) && ControlledExchange(ctrl, a, b).Valid(n)
    modifies sv
    ensures sv[..] == Acted(ControlledExchange(ctrl, a, b), NOT, n, old(sv[..]))
  {
    ghost var w, s := ControlledExchange(ctrl, a, b), sv[..];
    hide Partial, Acted, Bit, With, Kernel.Upper, Kernel.Lower, Pow2, NOT;
    PartialStart(w, NOT, n, s);
    var i := 0;
    while i < sv.Length
      invariant i <= sv.Length && Partial(w, NOT, n, s, sv[..], i)
    {
      PartialStep(w, NOT, n, s, sv[..], i);
      if Bit(i, ctrl) && Bit(i, a) && !Bit(i, b) {
        var j := With(With(i, a, false), b, true);
        NotSwaps(sv[i], sv[j]);
        sv[i], sv[j] := sv[j], sv[i];
      }
      i := i + 1;
    }
    PartialEnd(w, NOT, n, s, sv[..]);
  }

  // ---- what gates conserve

  ghost function SumOver(s: set<nat>, f: nat -> real): real {
    if s == {} then 0.0 else
      var x :| x in s;
      f(x) + SumOver(s - {x}, f)
  }

  lemma {:induction false} SumOverSplit(s: set<nat>, f: nat -> real, x: nat)
    requires x in s
    ensures SumOver(s, f) == f(x) + SumOver(s - {x}, f)
  {
    var y :| y in s && SumOver(s, f) == f(y) + SumOver(s - {y}, f);
    if y != x {
      SumOverSplit(s - {y}, f, x);
      SumOverSplit(s - {x}, f, y);
      assert s - {y} - {x} == s - {x} - {y};
    }
  }

  /** Pairing the summands up in another way gives the same sum. */
  lemma {:induction false} SumOverPairs(s: set<nat>, f: nat -> real, g: nat -> real, w: Wires, n: nat)
    requires w.Valid(n) && forall k | k in s :: k < Pow2(n) && w.Partner(k) in s
    requires forall k | k in s :: f(k) + f(w.Partner(k)) == g(k) + g(w.Partner(k))
    ensures SumOver(s, f) == SumOver(s, g)
  {
    hide Wires.Partner, Pow2;
    if s == {} {
    } else {
      var x :| x in s;
      var y := w.Partner(x);
      Pairing(w, n, x);
      forall k | k in s - {x} - {y} ensures w.Partner(k) in s - {x} - {y} {
        Pairing(w, n, k);
      }
      SumOverSplit(s, f, x);
      SumOverSplit(s - {x}, f, y);
      SumOverSplit(s, g, x);
      SumOverSplit(s - {x}, g, y);
      SumOverPairs(s - {x} - {y}, f, g, w, n);
    }
  }

  /** The squared amplitudes, each weighted. */
  ghost function Weighted(s: State, weight: nat -> real): nat -> real {
    (k: nat) => if k < |s| then Times(weight(k), NormSq(s[k])) else 0.0
  }

  ghost function Below(n: nat): (r: set<nat>)
    ensures forall k: nat :: k in r <==> k < n
  {
    if n == 0 then {} else Below(n - 1) + {n - 1}
  }

  ghost function Indices(s: State): set<nat> { Below(|s|) }

  /** The weighted mass of a state. */
  ghost function MassOf(s: State, weight: nat -> real): real {
    SumOver(Indices(s), Weighted(s, weight))
  }

  /** The matrix is unitary. */
  ghost predicate Unitary(m: Kernel) {
    && NormSq(m.m00) + NormSq(m.m10) == 1.0
    && NormSq(m.m01) + NormSq(m.m11) == 1.0
    && Add(Mul(Conj(m.m00), m.m01), Mul(Conj(m.m10), m.m11)) == ZERO
  }

  /** The squared length of a combination of two numbers. */
  lemma NormOfCombination(p: Complex, q: Complex, a: Complex, b: Complex)
    ensures NormSq(Add(Mul(p, a), Mul(q, b))) ==
      NormSq(p) * NormSq(a) + NormSq(q) * NormSq(b) + 2.0 * Mul(Mul(Conj(p), q), Mul(Conj(a), b)).re
  {
    var x, y := Mul(p, a), Mul(q, b);
    NormOfSum(x, y);
    NormOfProduct(p, a);
    NormOfProduct(q, b);
    RearrangeProduct(p, a, q, b);
  }

  lemma NormOfSum(x: Complex, y: Complex)
    ensures NormSq(Add(x, y)) == NormSq(x) + NormSq(y) + 2.0 * Mul(Conj(x), y).re
  {
  }

  lemma NormOfProduct(p: Complex, a: Complex)
    ensures NormSq(Mul(p, a)) == NormSq(p) * NormSq(a)
  {
    var r, i, c, d := p.re, p.im, a.re, a.im;
    assert (r * c - i * d) * (r * c - i * d) == (r * r) * (c * c) - 2.0 * ((r * i) * (c * d)) + (i * i) * (d * d);
    assert (r * d + i * c) * (r * d + i * c) == (r * r) * (d * d) + 2.0 * ((r * i) * (c * d)) + (i * i) * (c * c);
  }

  lemma RearrangeProduct(p: Complex, a: Complex, q: Complex, b: Complex)
    ensures Mul(Conj(Mul(p, a)), Mul(q, b)) == Mul(Mul(Conj(p), q), Mul(Conj(a), b))
  {
    ConjOfProduct(p, a);
    hide Mul, Conj;
    var x, y := Conj(p), Conj(a);
    MulAssociative(Mul(x, y), q, b);
    MulAssociative(x, y, q);
    MulCommutes(y, q);
    MulAssociative(x, q, y);
    MulAssociative(Mul(x, q), y, b);
  }

  /** A unitary matrix keeps the squared length of a pair. */
  lemma UnitaryKeepsPair(m: Kernel, a: Complex, b: Complex)
    requires Unitary(m)
    ensures NormSq(m.Upper(a, b)) + NormSq(m.Lower(a, b)) == NormSq(a) + NormSq(b)
  {
    NormOfCombination(m.m00, m.m01, a, b);
    NormOfCombination(m.m10, m.m11, a, b);
    var t := Mul(Conj(a), b);
    MulSum(Mul(Conj(m.m00), m.m01), Mul(Conj(m.m10), m.m11), t);
    hide Mul, Conj, NormSq;
    assert Mul(ZERO, t).re == 0.0 by { MulZero(t); }
    UnitRows(NormSq(m.m00), NormSq(m.m10), NormSq(a));
    UnitRows(NormSq(m.m01), NormSq(m.m11), NormSq(b));
  }

  lemma UnitRows(p: real, q: real, x: real)
    requires p + q == 1.0
    ensures p * x + q * x == x
  {
    assert p * x + q * x == (p + q) * x;
  }

  lemma MulSum(x: Complex, y: Complex, t: Complex)
    ensures Mul(x, t).re + Mul(y, t).re == Mul(Add(x, y), t).re
  {
  }

  /** A weight that every mixed pair shares. */
  ghost predicate Shared(w: Wires, n: nat, weight: nat -> real)
    requires w.Valid(n)
  {
    forall k: nat | k < Pow2(n) && w.Acts(k) :: weight(w.Partner(k)) == weight(k)
  }

  lemma ActedPair(w: Wires, m: Kernel, n: nat, s: State, k: nat)
    requires w.Valid(n) && |s| == Pow2(n) && k < |s| && Unitary(m)
    ensures var r, p := Acted(w, m, n, s), w.Partner(k);
      p < |s| && (!w.Acts(k) ==> r[k] == s[k] && r[p] == s[p]) &&
      (w.Acts(k) ==> NormSq(r[k]) + NormSq(r[p]) == NormSq(s[k]) + NormSq(s[p]))
  {
    hide Wires.Acts, Wires.Second, Wires.Partner, Kernel.Upper, Kernel.Lower, NormSq, Unitary;
    Pairing(w, n, k);
    var p := w.Partner(k);
    assert Acted(w, m, n, s)[k] == ActedAt(w, m, n, s, k) && Acted(w, m, n, s)[p] == ActedAt(w, m, n, s, p);
    UnitaryKeepsPair(m, s[k], s[p]);
    UnitaryKeepsPair(m, s[p], s[k]);
  }

  /** A unitary gate keeps the mass under every weight that its pairs share. */
  lemma UnitaryKeepsMass(w: Wires, m: Kernel, n: nat, s: State, weight: nat -> real)
    requires w.Valid(n) && |s| == Pow2(n) && Unitary(m) && Shared(w, n, weight)
    ensures MassOf(Acted(w, m, n, s), weight) == MassOf(s, weight)
  {
    hide Wires.Acts, Wires.Second, Wires.Partner, NormSq, Unitary, Acted, Times;
    var r := Acted(w, m, n, s);
    var f, g := Weighted(s, weight), Weighted(r, weight);
    assert Indices(r) == Indices(s);
    forall k | k in Indices(s)
      ensures k < Pow2(n) && w.Partner(k) in Indices(s)
      ensures g(k) + g(w.Partner(k)) == f(k) + f(w.Partner(k))
    {
      var p := w.Partner(k);
      ActedPair(w, m, n, s, k);
      if w.Acts(k) {
        assert weight(p) == weight(k);
        SpreadWeight(weight(k), NormSq(r[k]), NormSq(r[p]));
        SpreadWeight(weight(k), NormSq(s[k]), NormSq(s[p]));
      }
    }
    SumOverPairs(Indices(s), g, f, w, n);
  }

  lemma SpreadWeight(w: real, x: real, y: real)
    ensures Times(w, x) + Times(w, y) == Times(w, x + y)
  {
  }

  ghost function Everything(): nat -> real { (k: nat) => 1.0 }

  /** The sector of h excitations. */
  ghost function Sector(h: nat): nat -> real { (k: nat) => if Hamming(k) == h then 1.0 else 0.0 }

  /** Exchanging two differing bits keeps the Hamming weight. */
  lemma ExchangeKeepsHamming(w: Wires, n: nat, k: nat)
    requires w.Valid(n) && (w.Exchange? || w.ControlledExchange?) && w.Acts(k)
    ensures Hamming(w.Partner(k)) == Hamming(k)
  {
    var a, b := w.a, w.b;
    hide Hamming, Bit, With;
    var k1 := With(k, a, !Bit(k, a));
    WithBits(k, a, !Bit(k, a), b);
    HammingWith(k, a);
    HammingWith(k1, b);
    WithOwn(k, a);
    WithOwn(k1, b);
  }

  lemma WithOwn(k: nat, q: nat)
    ensures With(k, q, Bit(k, q)) == k
  {
    WithAdds(k, q);
  }

  /** A diagonal matrix of unit phases keeps every squared amplitude. */
  lemma DiagonalKeepsAmplitudes(w: Wires, m: Kernel, n: nat, s: State, k: nat)
    requires w.Valid(n) && |s| == Pow2(n) && k < |s| && m.m01 == ZERO && m.m10 == ZERO
    requires NormSq(m.m00) == 1.0 && NormSq(m.m11) == 1.0
    ensures NormSq(Acted(w, m, n, s)[k]) == NormSq(s[k])
  {
    hide Wires.Acts, Wires.Second, Wires.Partner;
    Pairing(w, n, k);
    assert Acted(w, m, n, s)[k] == ActedAt(w, m, n, s, k);
    DiagonalRow(m.m00, s[k], s[w.Partner(k)]);
    DiagonalRow(m.m11, s[k], s[w.Partner(k)]);
  }

  lemma DiagonalRow(d: Complex, a: Complex, b: Complex)
    requires NormSq(d) == 1.0
    ensures NormSq(Add(Mul(d, a), Mul(ZERO, b))) == NormSq(a) && NormSq(Add(Mul(ZERO, b), Mul(d, a))) == NormSq(a)
  {
    MulZero(b);
    NormOfProduct(d, a);
  }

  lemma SameMass(s: State, r: State, weight: nat -> real)
    requires |r| == |s| && forall k | 0 <= k < |s| :: NormSq(r[k]) == NormSq(s[k])
    ensures MassOf(r, weight) == MassOf(s, weight)
  {
    hide NormSq;
    assert Indices(r) == Indices(s);
    SumOverSame(Indices(s), Weighted(r, weight), Weighted(s, weight));
  }

  lemma {:induction false} SumOverSame(s: set<nat>, f: nat -> real, g: nat -> real)
    requires forall k | k in s :: f(k) == g(k)
    ensures SumOver(s, f) == SumOver(s, g)
  {
    if s == {} {
    } else {
      var x :| x in s && SumOver(s, f) == f(x) + SumOver(s - {x}, f);
      SumOverSplit(s, g, x);
      SumOverSame(s - {x}, f, g);
    }
  }

  // ---- gates as linear maps and as relabellings

  /** A combination of two states. */
  ghost function Combination(p: Complex, s: State, q: Complex, t: State): (r: State)
    requires |s| == |t|
    ensures |r| == |s|
  {
    seq(|s|, k requires 0 <= k < |s| => Add(Mul(p, s[k]), Mul(q, t[k])))
  }

  lemma RowLinear(x: Complex, y: Complex, p: Complex, a: Complex, b: Complex, q: Complex, c: Complex, d: Complex)
    ensures Add(Mul(x, Add(Mul(p, a), Mul(q, c))), Mul(y, Add(Mul(p, b), Mul(q, d)))) ==
      Add(Mul(p, Add(Mul(x, a), Mul(y, b))), Mul(q, Add(Mul(x, c), Mul(y, d))))
  {
    PullOut(x, p, a, q, c);
    PullOut(y, p, b, q, d);
    PullOut(p, x, a, y, b);
    PullOut(q, x, c, y, d);
    hide Mul;
    MulCommutes(x, p);
    MulCommutes(x, q);
    MulCommutes(y, p);
    MulCommutes(y, q);
  }

  lemma PullOut(x: Complex, p: Complex, a: Complex, q: Complex, c: Complex)
    ensures Mul(x, Add(Mul(p, a), Mul(q, c))) == Add(Mul(Mul(x, p), a), Mul(Mul(x, q), c))
  {
    MulOverAdd(x, Mul(p, a), Mul(q, c));
    MulAssociative(x, p, a);
    MulAssociative(x, q, c);
  }

  /** Every gate is a linear map. */
  lemma GateIsLinear(w: Wires, m: Kernel, n: nat, p: Complex, s: State, q: Complex, t: State)
    requires w.Valid(n) && |s| == |t| == Pow2(n)
    ensures Acted(w, m, n, Combination(p, s, q, t)) == Combination(p, Acted(w, m, n, s), q, Acted(w, m, n, t))
  {
    hide Wires.Acts, Wires.Second, Wires.Partner, Mul, Add, Acted;
    var u := Combination(p, s, q, t);
    forall k | 0 <= k < |s|
      ensures Acted(w, m, n, u)[k] == Combination(p, Acted(w, m, n, s), q, Acted(w, m, n, t))[k]
    {
      Pairing(w, n, k);
      var j := w.Partner(k);
      RowLinear(m.m00, m.m01, p, s[k], s[j], q, t[k], t[j]);
      RowLinear(m.m10, m.m11, p, s[j], s[k], q, t[j], t[k]);
      assert Acted(w, m, n, u)[k] == ActedAt(w, m, n, u, k);
      assert Acted(w, m, n, s)[k] == ActedAt(w, m, n, s, k) && Acted(w, m, n, t)[k] == ActedAt(w, m, n, t, k);
    }
  }

  /** The X-like gates relabel the basis: the amplitude at k is the one at its image, and doing it twice changes nothing. */
  lemma NotRelabels(w: Wires, n: nat, s: State, k: nat)
    requires w.Valid(n) && |s| == Pow2(n) && k < |s|
    ensures var image := if w.Acts(k) then w.Partner(k) else k;
      image < |s| && Acted(w, NOT, n, s)[k] == s[image]
    ensures Acted(w, NOT, n, Acted(w, NOT, n, s))[k] == s[k]
  {
    hide Wires.Acts, Wires.Second, Wires.Partner, Kernel.Upper, Kernel.Lower, NOT, Acted;
    Pairing(w, n, k);
    var r, j := Acted(w, NOT, n, s), w.Partner(k);
    NotSwaps(s[k], s[j]);
    NotSwaps(s[j], s[k]);
    NotSwaps(r[k], r[j]);
    NotSwaps(r[j], r[k]);
    assert r[k] == ActedAt(w, NOT, n, s, k) && r[j] == ActedAt(w, NOT, n, s, j);
    assert Acted(w, NOT, n, r)[k] == ActedAt(w, NOT, n, r, k);
  }
}
