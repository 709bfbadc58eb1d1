/**
  Parameter expressions of the source language and of the executed circuit, and
  the translation between them that allocates symbol ids as it walks.
*/
module Expressions {
  import opened Wrappers
  import opened Linear

  datatype Expr =
    | Concrete(value: real)
    | Symbol(name: string)
    | Pi
    | Neg(a: Expr)
    | Add(a: Expr, b: Expr)
    | Mul(a: Expr, b: Expr)
    | Div(a: Expr, b: Expr)
    | FnCall(fn: string, args: seq<Expr>)

  /** The executed form: no division, no function call, and ids for names. */
  datatype Lowered =
    | Value(value: real)
    | Id(id: nat)
    | Negate(a: Lowered)
    | Plus(a: Lowered, b: Lowered)
    | Product(a: Lowered, b: Lowered)

  datatype EvalError = Unbound(name: string) | UnboundId(id: nat) | ZeroDivision | UnknownFunction(fn: string)

  /** The constant and the functions expressions may call. */
  datatype Maths = Maths(pi: real, call: (string, real) -> real)

  function Quotient(x: real, d: real): real
    requires d != 0.0
  {
    x / d
  }

  const FUNCTIONS := {"sin", "cos", "tan", "exp", "log", "sqrt", "abs", "asin", "acos", "atan"}

  predicate IsConcrete(p: Expr) {
    match p
    case Concrete(_) => true
    case Pi => true
    case Symbol(_) => false
    case Neg(a) => IsConcrete(a)
    case Add(a, b) => IsConcrete(a) && IsConcrete(b)
    case Mul(a, b) => IsConcrete(a) && IsConcrete(b)
    case Div(a, b) => IsConcrete(a) && IsConcrete(b)
    case FnCall(_, args) => forall i | 0 <= i < |args| :: IsConcrete(args[i])
  }

  function Size(p: Expr): nat {
    if p.FnCall? then |p.args| + 1 else 0
  }

  /** The value of an expression; arguments and operands are evaluated left to right, a divisor first. */
  function Eval(maths: Maths, p: Expr, b: map<string, real>): Result<real, EvalError>
    decreases p, Size(p)
  {
    match p
    case Concrete(v) => Ok(v)
    case Pi => Ok(maths.pi)
    case Symbol(name) => if name in b then Ok(b[name]) else Err(Unbound(name))
    case Neg(x) =>
      var r := Eval(maths, x, b);
      if r.Err? then r else Ok(-r.value)
    case Add(x, y) =>
      var r := Eval(maths, x, b);
      if r.Err? then r else
        var s := Eval(maths, y, b);
        if s.Err? then s else Ok(r.value + s.value)
    case Mul(x, y) =>
      var r := Eval(maths, x, b);
      if r.Err? then r else
        var s := Eval(maths, y, b);
        if s.Err? then s else Ok(Times(r.value, s.value))
    case Div(x, y) =>
      var s := Eval(maths, y, b);
      if s.Err? then s else if s.value == 0.0 then Err(ZeroDivision) else
        var r := Eval(maths, x, b);
        if r.Err? then r else Ok(Quotient(r.value, s.value))
    case FnCall(fn, args) =>
      var failed := FirstFailure(maths, p, 0, b);
      if failed.Some? then Err(failed.value)
      else if |args| == 1 && fn in FUNCTIONS then
        var r := Eval(maths, args[0], b);
        if r.Err? then r else Ok(maths.call(fn, r.value))
      else Err(UnknownFunction(fn))
  }

  /** The error of the first argument from index i on that has none. */
  function FirstFailure(maths: Maths, p: Expr, i: nat, b: map<string, real>): Option<EvalError>
    requires p.FnCall? && i <= |p.args|
    decreases p, |p.args| - i
  {
    if i == |p.args| then None else
      var r := Eval(maths, p.args[i], b);
      if r.Err? then Some(r.error) else FirstFailure(maths, p, i + 1, b)
  }

  /** The value of an executed expression. */
  function Resolve(e: Lowered, v: map<nat, real>): Result<real, EvalError> {
    match e
    case Value(x) => Ok(x)
    case Id(id) => if id in v then Ok(v[id]) else Err(UnboundId(id))
    case Negate(a) =>
      var r := Resolve(a, v);
      if r.Err? then r else Ok(-r.value)
    case Plus(a, b) =>
      var r := Resolve(a, v);
      if r.Err? then r else
        var s := Resolve(b, v);
        if s.Err? then s else Ok(r.value + s.value)
    case Product(a, b) =>
      var r := Resolve(a, v);
      if r.Err? then r else
        var s := Resolve(b, v);
        if s.Err? then s else Ok(Times(r.value, s.value))
  }

  /** Concrete expressions do not look at the binding. */
  lemma {:induction false} ConcreteEval(maths: Maths, p: Expr, b: map<string, real>, c: map<string, real>)
    requires IsConcrete(p)
    ensures Eval(maths, p, b) == Eval(maths, p, c)
    decreases p, Size(p)
  {
    match p
    case Concrete(_) =>
    case Pi =>
    case Neg(x) => ConcreteEval(maths, x, b, c);
    case Add(x, y) =>
      ConcreteEval(maths, x, b, c);
      ConcreteEval(maths, y, b, c);
    case Mul(x, y) =>
      ConcreteEval(maths, x, b, c);
      ConcreteEval(maths, y, b, c);
    case Div(x, y) =>
      ConcreteEval(maths, x, b, c);
      ConcreteEval(maths, y, b, c);
    case FnCall(_, args) =>
      ConcreteArguments(maths, p, 0, b, c);
      if |args| == 1 {
        ConcreteEval(maths, args[0], b, c);
      }
  }

  lemma {:induction false} ConcreteArguments(maths: Maths, p: Expr, i: nat, b: map<string, real>, c: map<string, real>)
    requires p.FnCall? && i <= |p.args| && IsConcrete(p)
    ensures FirstFailure(maths, p, i, b) == FirstFailure(maths, p, i, c)
    decreases p, |p.args| - i
  {
    if i < |p.args| {
      ConcreteEval(maths, p.args[i], b, c);
      ConcreteArguments(maths, p, i + 1, b, c);
    }
  }

  // ---- what can be translated, and to what

  datatype ConvError = NotEvaluable | BadDivisor | ZeroDivisor | NotRepresentable

  /** The value of a concrete expression, if it has one. */
  function TryValue(maths: Maths, p: Expr): Option<real> {
    var r := Eval(maths, p, map[]);
    if r.Ok? then Some(r.value) else None
  }

  /** Exactly the expressions the translation accepts. */
  predicate Convertible(maths: Maths, p: Expr) {
    if IsConcrete(p) then TryValue(maths, p).Some? else
      match p
      case Symbol(_) => true
      case Neg(a) => Convertible(maths, a)
      case Add(a, b) => Convertible(maths, a) && Convertible(maths, b)
      case Mul(a, b) => Convertible(maths, a) && Convertible(maths, b)
      case Div(a, b) => IsConcrete(b) && TryValue(maths, b).Some? && TryValue(maths, b).value != 0.0 && Convertible(maths, a)
      case FnCall(_, _) => false
      case _ => true
  }

  /** The symbols the translation meets, in the order in which it meets them. */
  function Symbols(p: Expr): seq<string> {
    if IsConcrete(p) then [] else
      match p
      case Symbol(name) => [name]
      case Neg(a) => Symbols(a)
      case Add(a, b) => Symbols(a) + Symbols(b)
      case Mul(a, b) => Symbols(a) + Symbols(b)
      case Div(a, b) => Symbols(a)
      case _ => []
  }

  /** The translation of an expression under a table of ids. */
  function Image(maths: Maths, p: Expr, ids: map<string, nat>): Lowered {
    if IsConcrete(p) then Value(ValueOr(TryValue(maths, p))) else
      match p
      case Symbol(name) => Id(if name in ids then ids[name] else 0)
      case Neg(a) => Negate(Image(maths, a, ids))
      case Add(a, b) => Plus(Image(maths, a, ids), Image(maths, b, ids))
      case Mul(a, b) => Product(Image(maths, a, ids), Image(maths, b, ids))
      case Div(a, b) => Product(Image(maths, a, ids), Value(Inverse(ValueOr(TryValue(maths, b)))))
      case _ => Value(0.0)
  }

  function ValueOr(v: Option<real>): real { if v.Some? then v.value else 0.0 }

  function Inverse(d: real): real { if d == 0.0 then 0.0 else 1.0 / d }

  ghost predicate Extends(more: map<string, nat>, ids: map<string, nat>) {
    forall s | s in ids :: s in more && more[s] == ids[s]
  }

  /** Every symbol the translation meets has an id. */
  ghost predicate Covered(p: Expr, ids: map<string, nat>) {
    forall s | s in Symbols(p) :: s in ids
  }

  lemma CoveredParts(p: Expr, ids: map<string, nat>)
    requires Covered(p, ids) && !IsConcrete(p)
    ensures !p.Concrete? && !p.Pi?
    ensures p.Symbol? ==> p.name in ids
    ensures p.Neg? || p.Div? ==> Covered(p.a, ids)
    ensures p.Add? || p.Mul? ==> Covered(p.a, ids) && Covered(p.b, ids)
  {
    if p.Symbol? {
      assert p.name in Symbols(p);
    }
  }

  lemma CoveredWhole(p: Expr, ids: map<string, nat>)
    requires p.Symbol? ==> p.name in ids
    requires p.Neg? || p.Div? ==> Covered(p.a, ids)
    requires p.Add? || p.Mul? ==> Covered(p.a, ids) && Covered(p.b, ids)
    ensures Covered(p, ids)
  {
  }

  lemma CoveredExtends(p: Expr, ids: map<string, nat>, more: map<string, nat>)
    requires Covered(p, ids) && Extends(more, ids)
    ensures Covered(p, more)
  {
  }

  /** Later allocations leave a translation as it was. */
  lemma {:induction false} ImageIsStable(maths: Maths, p: Expr, ids: map<string, nat>, more: map<string, nat>)
    requires Covered(p, ids) && Extends(more, ids)
    ensures Covered(p, more) && Image(maths, p, more) == Image(maths, p, ids)
  {
    CoveredExtends(p, ids, more);
    hide Covered, Symbols, TryValue, Inverse, ValueOr, Convertible;
    if !IsConcrete(p) {
      CoveredParts(p, ids);
      match p
      case Symbol(_) =>
      case Neg(a) => ImageIsStable(maths, a, ids, more);
      case Add(a, b) =>
        ImageIsStable(maths, a, ids, more);
        ImageIsStable(maths, b, ids, more);
      case Mul(a, b) =>
        ImageIsStable(maths, a, ids, more);
        ImageIsStable(maths, b, ids, more);
      case Div(a, b) => ImageIsStable(maths, a, ids, more);
      case _ =>
    }
  }

  /** The binding by id says of every symbol what the binding by name says. */
  ghost predicate SameBinding(ids: map<string, nat>, b: map<string, real>, v: map<nat, real>) {
    forall s | s in ids :: (s in b <==> ids[s] in v) && (s in b ==> b[s] == v[ids[s]])
  }

  /** Both fail, or both give the same value. */
  predicate Agree(x: Result<real, EvalError>, y: Result<real, EvalError>) {
    if x.Ok? then y.Ok? && y.value == x.value else y.Err?
  }

  lemma QuotientIsProduct(x: real, d: real)
    requires d != 0.0
    ensures Quotient(x, d) == Times(x, Inverse(d))
  {
  }

  /** The translation means what the source meant, for every binding. */
  lemma {:induction false} ImageMeans(maths: Maths, p: Expr, ids: map<string, nat>, b: map<string, real>, v: map<nat, real>)
    requires Convertible(maths, p) && Covered(p, ids) && SameBinding(ids, b, v)
    ensures Agree(Eval(maths, p, b), Resolve(Image(maths, p, ids), v))
  {
    hide Covered, Symbols, Times, Quotient, Inverse, IsConcrete, FirstFailure, SameBinding;
    if IsConcrete(p) {
      ConcreteEval(maths, p, b, map[]);
    } else {
      CoveredParts(p, ids);
      match p
      case Symbol(name) => SymbolMeans(ids, b, v, name);
      case Neg(a) => ImageMeans(maths, a, ids, b, v);
      case Add(x, y) =>
        ImageMeans(maths, x, ids, b, v);
        ImageMeans(maths, y, ids, b, v);
      case Mul(x, y) =>
        ImageMeans(maths, x, ids, b, v);
        ImageMeans(maths, y, ids, b, v);
      case Div(x, y) =>
        ImageMeans(maths, x, ids, b, v);
        DivisionMeans(maths, x, y, ids, b, v);
      case _ =>
    }
  }

  lemma SymbolMeans(ids: map<string, nat>, b: map<string, real>, v: map<nat, real>, name: string)
    requires SameBinding(ids, b, v) && name in ids
    ensures (name in b <==> ids[name] in v) && (name in b ==> b[name] == v[ids[name]])
  {
  }

  lemma DivisionMeans(maths: Maths, x: Expr, y: Expr, ids: map<string, nat>, b: map<string, real>, v: map<nat, real>)
    requires IsConcrete(y) && TryValue(maths, y).Some? && TryValue(maths, y).value != 0.0
    requires Agree(Eval(maths, x, b), Resolve(Image(maths, x, ids), v))
    ensures Agree(Eval(maths, Div(x, y), b), Resolve(Product(Image(maths, x, ids), Value(Inverse(TryValue(maths, y).value))), v))
  {
    ConcreteEval(maths, y, b, map[]);
    hide Times, Quotient, Inverse, IsConcrete, Image, FirstFailure;
    if Eval(maths, x, b).Ok? {
      QuotientIsProduct(Eval(maths, x, b).value, TryValue(maths, y).value);
    }
  }

  // ---- the table of ids

  /** The names of a walk, each at its first appearance. */
  function FirstAppearances(names: seq<string>): (r: seq<string>)
    ensures forall s :: s in r <==> s in names
    ensures forall i, j | 0 <= i < j < |r| :: r[i] != r[j]
  {
    if names == [] then [] else
      var before := FirstAppearances(names[..|names| - 1]);
      var last := names[|names| - 1];
      if last in before then before else before + [last]
  }

  /** Names met again after a walk add nothing but the new ones, at the end. */
  lemma FirstAppearancesNext(names: seq<string>, name: string)
    ensures FirstAppearances(names + [name]) ==
      if name in FirstAppearances(names) then FirstAppearances(names) else FirstAppearances(names) + [name]
  {
    assert (names + [name])[..|names|] == names;
  }

  /** The ids are dense, and they number the names of a walk by first appearance. */
  ghost predicate Numbered(ids: map<string, nat>, next: nat, walk: seq<string>) {
    var order := FirstAppearances(walk);
    && next == |order|
    && (forall s :: s in ids <==> s in order)
    && (forall i | 0 <= i < |order| :: ids[order[i]] == i)
  }

  class SymTab {
    var ids: map<string, nat>
    var next: nat
    ghost var walk: seq<string>

    ghost predicate Valid()
      reads this
    {
      Numbered(ids, next, walk)
    }

    constructor ()
      ensures Valid() && walk == [] && ids == map[]
    {
      ids, next, walk := map[], 0, [];
    }

    /** The id of a name, allocated when the name is new. */
    method IdOf(name: string) returns (i: nat)
      requires Valid()
      modifies this
      ensures Valid() && walk == old(walk) + [name]
      ensures name in ids && i == ids[name] && Extends(ids, old(ids))
    {
      FirstAppearancesNext(walk, name);
      walk := walk + [name];
      if name in ids {
        return ids[name];
      }
      i := next;
      next := next + 1;
      ids := ids[name := i];
    }

    /** Translate one expression, allocating an id for each new symbol. */
    method Conv(maths: Maths, p: Expr) returns (r: Result<Lowered, ConvError>)
      requires Valid()
      modifies this
      ensures Valid() && Extends(ids, old(ids))
      ensures r.Ok? <==> Convertible(maths, p)
      ensures r.Ok? ==> walk == old(walk) + Symbols(p) && ImageOf(maths, p, r.value, ids)
      decreases p, 1
    {
      hide Valid, Covered, TryValue, Inverse, IsConcrete, Extends, ValueOr;
      ExtendsItself(ids);
      if IsConcrete(p) {
        CoveredConcrete(p, ids);
        var v := TryValue(maths, p);
        return if v.Some? then Ok(Value(ValueOr(v))) else Err(NotEvaluable);
      }
      match p
      case Symbol(name) =>
        var i := IdOf(name);
        CoveredWhole(p, ids);
        return Ok(Id(i));
      case Neg(a) =>
        var x := Conv(maths, a);
        if x.Err? {
          return x;
        }
        CoveredWhole(p, ids);
        return Ok(Negate(x.value));
      case Add(a, b) =>
        var xy := ConvTwo(maths, p, a, b);
        if xy.Err? {
          return Err(xy.error);
        }
        CoveredWhole(p, ids);
        return Ok(Plus(xy.value.0, xy.value.1));
      case Mul(a, b) =>
        var xy := ConvTwo(maths, p, a, b);
        if xy.Err? {
          return Err(xy.error);
        }
        CoveredWhole(p, ids);
        return Ok(Product(xy.value.0, xy.value.1));
      case Div(a, b) =>
        if !IsConcrete(b) {
          return Err(NotRepresentable);
        }
        var d := TryValue(maths, b);
        if d.None? {
          return Err(BadDivisor);
        }
        if d.value == 0.0 {
          return Err(ZeroDivisor);
        }
        var x := Conv(maths, a);
        if x.Err? {
          return x;
        }
        CoveredWhole(p, ids);
        return Ok(Product(x.value, Value(Inverse(ValueOr(d)))));
      case FnCall(_, _) =>
        return Err(NotRepresentable);
      case _ =>
        ConcreteLeaf(p);
    }

    /** Translate two operands, the first one first. */
    method ConvTwo(maths: Maths, ghost p: Expr, a: Expr, b: Expr) returns (r: Result<(Lowered, Lowered), ConvError>)
      requires Valid() && a < p && b < p
      modifies this
      ensures Valid() && Extends(ids, old(ids))
      ensures r.Ok? <==> Convertible(maths, a) && Convertible(maths, b)
      ensures r.Ok? ==> walk == old(walk) + (Symbols(a) + Symbols(b))
      ensures r.Ok? ==> ImageOf(maths, a, r.value.0, ids) && ImageOf(maths, b, r.value.1, ids)
      decreases p, 0
    {
      hide Valid, Covered, Extends, Convertible, Image, Symbols;
      var x := Conv(maths, a);
      if x.Err? {
        return Err(x.error);
      }
      ghost var mid := ids;
      var y := Conv(maths, b);
      ExtendsChain(old(ids), mid, ids);
      if y.Err? {
        return Err(y.error);
      }
      ImageIsStable(maths, a, mid, ids);
      return Ok((x.value, y.value));
    }

    /** Translate a list of expressions. */
    method ConvAll(maths: Maths, ps: seq<Expr>) returns (r: Result<seq<Lowered>, ConvError>)
      requires Valid()
      modifies this
      ensures Valid() && Extends(ids, old(ids))
      ensures r.Ok? <==> forall i | 0 <= i < |ps| :: Convertible(maths, ps[i])
      ensures r.Ok? ==> walk == old(walk) + AllSymbols(ps) && ImagesOf(maths, ps, r.value, ids)
    {
      hide Valid, Extends, Convertible, Symbols, ImageOf;
      var out: seq<Lowered> := [];
      assert ps[..0] == [];
      ExtendsItself(ids);
      for i := 0 to |ps|
        invariant Valid() && Extends(ids, old(ids))
        invariant forall j | 0 <= j < i :: Convertible(maths, ps[j])
        invariant walk == old(walk) + AllSymbols(ps[..i]) && ImagesOf(maths, ps[..i], out, ids)
      {
        ghost var before, met := ids, walk;
        var x := Conv(maths, ps[i]);
        ExtendsChain(old(ids), before, ids);
        if x.Err? {
          return Err(x.error);
        }
        ImagesStable(maths, ps[..i], out, before, ids);
        AllSymbolsNext(ps, i);
        out := out + [x.value];
      }
      assert ps[..|ps|] == ps;
      return Ok(out);
    }
  }

  lemma ExtendsItself(ids: map<string, nat>)
    ensures Extends(ids, ids)
  {
  }

  lemma ExtendsChain(a: map<string, nat>, b: map<string, nat>, c: map<string, nat>)
    requires Extends(b, a) && Extends(c, b)
    ensures Extends(c, a)
  {
  }

  lemma CoveredConcrete(p: Expr, ids: map<string, nat>)
    requires IsConcrete(p)
    ensures Covered(p, ids)
  {
  }

  lemma ConcreteLeaf(p: Expr)
    requires p.Concrete? || p.Pi?
    ensures IsConcrete(p)
  {
  }

  function AllSymbols(ps: seq<Expr>): seq<string> {
    if ps == [] then [] else AllSymbols(ps[..|ps| - 1]) + Symbols(ps[|ps| - 1])
  }

  lemma AllSymbolsNext(ps: seq<Expr>, i: nat)
    requires i < |ps|
    ensures AllSymbols(ps[..i + 1]) == AllSymbols(ps[..i]) + Symbols(ps[i])
  {
    assert ps[..i + 1][..i] == ps[..i];
  }

  /** Each translated expression is the image of its source. */
  ghost predicate ImagesOf(maths: Maths, ps: seq<Expr>, es: seq<Lowered>, ids: map<string, nat>) {
    |es| == |ps| && forall i | 0 <= i < |ps| :: ImageOf(maths, ps[i], es[i], ids)
  }

  ghost predicate ImageOf(maths: Maths, p: Expr, e: Lowered, ids: map<string, nat>) {
    Covered(p, ids) && e == Image(maths, p, ids)
  }

  lemma ImagesStable(maths: Maths, ps: seq<Expr>, es: seq<Lowered>, ids: map<string, nat>, more: map<string, nat>)
    requires ImagesOf(maths, ps, es, ids) && Extends(more, ids)
    ensures ImagesOf(maths, ps, es, more)
  {
    forall i | 0 <= i < |ps| ensures ImageOf(maths, ps[i], es[i], more) {
      ImageIsStable(maths, ps[i], ids, more);
    }
  }

  // ---- binding a flat vector

  /** The values bound to ids 0, 1, 2, ... */
  function FlatBinding(values: seq<real>): map<nat, real> {
    map i: nat | i < |values| :: values[i]
  }

  /**
    A vector ordered by id means the same as the binding by name it stands for, and it
    is complete: every symbol of the table has its own value.
  */
  lemma FlatBindingMeans(ids: map<string, nat>, next: nat, walk: seq<string>, values: seq<real>, b: map<string, real>)
    requires Numbered(ids, next, walk) && |values| == next
    requires forall s | s in ids :: ids[s] < |values| && s in b && b[s] == values[ids[s]]
    ensures SameBinding(ids, b, FlatBinding(values))
    ensures forall i: nat | i < |values| :: NameOf(ids, i)
  {
    forall i | 0 <= i < |values| ensures NameOf(ids, i) {
      assert FirstAppearances(walk)[i] in ids;
    }
  }

  ghost predicate NameOf(ids: map<string, nat>, i: nat) {
    exists s :: s in ids && ids[s] == i
  }

  /** Ids are injective, dense, and ordered by first appearance. */
  lemma IdsAreDense(ids: map<string, nat>, next: nat, walk: seq<string>)
    requires Numbered(ids, next, walk)
    ensures forall s, t | s in ids && t in ids && ids[s] == ids[t] :: s == t
    ensures forall s | s in ids :: ids[s] < next
    ensures forall i: nat | i < next :: NameOf(ids, i)
    ensures forall s, t | s in ids && t in ids :: ids[s] < ids[t] <==> FirstAt(walk, s) < FirstAt(walk, t)
  {
    var order := FirstAppearances(walk);
    forall i | 0 <= i < next ensures NameOf(ids, i) {
      assert order[i] in ids;
    }
    forall s | s in ids ensures ids[s] < |order| && order[ids[s]] == s {
      assert s in order;
    }
    forall s, t | s in ids && t in ids
      ensures ids[s] < ids[t] <==> FirstAt(walk, s) < FirstAt(walk, t)
    {
      OrderIsByAppearance(walk, ids[s], ids[t]);
      OrderIsByAppearance(walk, ids[t], ids[s]);
    }
  }

  /** The position of the first appearance of a name. */
  function FirstAt(names: seq<string>, s: string): nat {
    if names == [] then 0 else if names[0] == s then 0 else 1 + FirstAt(names[1..], s)
  }

  lemma {:induction false} FirstAtAppend(names: seq<string>, last: string, s: string)
    ensures FirstAt(names, s) <= |names| && (FirstAt(names, s) == |names| <==> s !in names)
    ensures FirstAt(names + [last], s) == if s in names then FirstAt(names, s) else if s == last then |names| else |names| + 1
  {
    if names == [] {
    } else {
      assert (names + [last])[1..] == names[1..] + [last];
      FirstAtAppend(names[1..], last, s);
    }
  }

  /** First appearances are listed in the order in which they occur. */
  lemma {:induction false} OrderIsByAppearance(names: seq<string>, i: nat, j: nat)
    requires i < |FirstAppearances(names)| && j < |FirstAppearances(names)|
    ensures i < j ==> FirstAt(names, FirstAppearances(names)[i]) < FirstAt(names, FirstAppearances(names)[j])
  {
    if names != [] && i < j {
      var front, last := names[..|names| - 1], names[|names| - 1];
      assert names == front + [last];
      var before := FirstAppearances(front);
      var x, y := FirstAppearances(names)[i], FirstAppearances(names)[j];
      FirstAtAppend(front, last, x);
      FirstAtAppend(front, last, y);
      if j < |before| {
        OrderIsByAppearance(front, i, j);
      } else {
        assert x == before[i];
      }
    }
  }
}
