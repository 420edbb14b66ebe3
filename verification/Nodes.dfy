/** Expression nodes and the simplifying constructors of ts/base.ts. */
module Nodes {

  datatype CastKind = Float | Double | Int64

  /** A program node.  Input stands for every node the constructors below do not look into; Meta is
      the wrapper the debug mode puts around nodes. */
  datatype Node =
    | Input(name: string)
    | Const(kind: CastKind, c: real)
    | Cast(kind: CastKind, arg: Node)
    | Meta(arg: Node)
    | Inv(arg: Node)
    | Square(arg: Node)
    | Add(l: Node, r: Node)
    | Sub(l: Node, r: Node)
    | Mul(l: Node, r: Node)
    | Div(l: Node, r: Node)

  type Env = string -> real

  /** Truncation towards zero, what a cast to int64 does within its range. */
  function Truncate(x: real): real {
    if x >= 0.0 then x.Floor as real else -((-x).Floor as real)
  }

  lemma TruncateIsTowardsZero(x: real) returns (i: int)
    ensures Truncate(x) == i as real
    ensures x >= 0.0 ==> 0.0 <= Truncate(x) <= x < Truncate(x) + 1.0
    ensures x < 0.0 ==> Truncate(x) - 1.0 < x <= Truncate(x) <= 0.0
  {
    i := if x >= 0.0 then x.Floor else -(-x).Floor;
  }

  function CastValue(kind: CastKind, x: real): real {
    if kind.Int64? then Truncate(x) else x
  }

  // Products and quotients have names so that proofs can keep them closed.

  function Times(x: real, y: real): real { x * y }

  function Quotient(x: real, y: real): real { if y == 0.0 then 0.0 else x / y }

  lemma TimesOne(x: real)
    ensures Times(1.0, x) == x == Times(x, 1.0)
    ensures Times(0.0, x) == 0.0 == Times(x, 0.0)
  {
  }

  lemma TimesRules(x: real, y: real, z: real)
    ensures Times(1.0, x) == x == Times(x, 1.0)
    ensures Times(0.0, x) == 0.0 == Times(x, 0.0)
    ensures Times(x, y) == Times(y, x)
    ensures Times(Times(x, y), z) == Times(x, Times(y, z))
    ensures Times(x + y, z) == Times(x, z) + Times(y, z)
    ensures Times(x - y, z) == Times(x, z) - Times(y, z)
  {
    assert (x * y) * z == x * (y * z);
    assert (x + y) * z == x * z + y * z;
    assert (x - y) * z == x * z - y * z;
  }

  lemma QuotientRules(x: real, p: real)
    requires p != 0.0
    ensures Times(p, Quotient(x, p)) == x
    ensures Quotient(x, p) == Times(x, Quotient(1.0, p))
  {
    assert p * (x / p) == x;
    assert x / p == x * (1.0 / p);
  }

  /** Value of a node; a quotient by zero is given the value 0 here and excluded by Defined. */
  function Eval(n: Node, env: Env): real {
    match n
    case Input(name) => env(name)
    case Const(kind, c) => CastValue(kind, c)
    case Cast(kind, a) => CastValue(kind, Eval(a, env))
    case Meta(a) => Eval(a, env)
    case Inv(a) => Quotient(1.0, Eval(a, env))
    case Square(a) => Times(Eval(a, env), Eval(a, env))
    case Add(l, r) => Eval(l, env) + Eval(r, env)
    case Sub(l, r) => Eval(l, env) - Eval(r, env)
    case Mul(l, r) => Times(Eval(l, env), Eval(r, env))
    case Div(l, r) => Quotient(Eval(l, env), Eval(r, env))
  }

  /** No division by zero happens anywhere in the node. */
  predicate Defined(n: Node, env: Env) {
    match n
    case Input(_) => true
    case Const(_, _) => true
    case Cast(_, a) => Defined(a, env)
    case Meta(a) => Defined(a, env)
    case Inv(a) => Defined(a, env) && Eval(a, env) != 0.0
    case Square(a) => Defined(a, env)
    case Add(l, r) => Defined(l, env) && Defined(r, env)
    case Sub(l, r) => Defined(l, env) && Defined(r, env)
    case Mul(l, r) => Defined(l, env) && Defined(r, env)
    case Div(l, r) => Defined(l, env) && Defined(r, env) && Eval(r, env) != 0.0
  }

  datatype MaybeReal = None | Some(value: real)

  function ToConst(x: Node): MaybeReal {
    match x
    case Meta(a) => ToConst(a)
    case Const(_, c) => Some(c)
    case _ => None
  }

  /** 0 and 1 are whole numbers, so casting does not change them. */
  lemma {:induction false} ToConstValue(x: Node, env: Env)
    ensures ToConst(x) == Some(0.0) || ToConst(x) == Some(1.0) ==> Eval(x, env) == ToConst(x).value
    ensures ToConst(x).Some? ==> Defined(x, env)
  {
    if x.Meta? { ToConstValue(x.arg, env); }
  }

  function MkAdd(a: Node, b: Node): Node {
    if ToConst(a) == Some(0.0) then b else if ToConst(b) == Some(0.0) then a else Add(a, b)
  }

  function MkSub(a: Node, b: Node): Node {
    if ToConst(b) == Some(0.0) then a else Sub(a, b)
  }

  /** `a === b` compares identity; equal nodes that are not identical give Mul(a, b) there, which has
      the same value as Square(a). */
  function MkMul(a: Node, b: Node): Node {
    if ToConst(a) == Some(1.0) then b
    else if ToConst(b) == Some(1.0) then a
    else if a == b then Square(a)
    else Mul(a, b)
  }

  function MkDiv(a: Node, b: Node): Node {
    if ToConst(a) == Some(1.0) then Inv(b)
    else if ToConst(b).Some? then MkMul(a, Inv(b))
    else Div(a, b)
  }

  /** An operation is only built where no rewrite applies: not with 0 or 1 where they change nothing, no product of a
      node with itself, and no quotient by a constant. */
  lemma BuiltWhereNeeded(a: Node, b: Node)
    ensures MkAdd(a, b) == Add(a, b) ==> ToConst(a) != Some(0.0) && ToConst(b) != Some(0.0)
    ensures MkSub(a, b) == Sub(a, b) ==> ToConst(b) != Some(0.0)
    ensures MkMul(a, b) == Mul(a, b) ==> ToConst(a) != Some(1.0) && ToConst(b) != Some(1.0) && a != b
    ensures MkDiv(a, b) == Div(a, b) ==> ToConst(a) != Some(1.0) && ToConst(b) == None
  {
  }

  /** Each constructor means its operator, whichever rewrite it takes, and is defined where the
      operator is. */
  lemma AddMeaning(a: Node, b: Node, env: Env)
    ensures Eval(MkAdd(a, b), env) == Eval(a, env) + Eval(b, env)
    ensures Defined(MkAdd(a, b), env) <==> Defined(a, env) && Defined(b, env)
  {
    ToConstValue(a, env);
    ToConstValue(b, env);
  }

  lemma SubMeaning(a: Node, b: Node, env: Env)
    ensures Eval(MkSub(a, b), env) == Eval(a, env) - Eval(b, env)
    ensures Defined(MkSub(a, b), env) <==> Defined(a, env) && Defined(b, env)
  {
    ToConstValue(b, env);
  }

  lemma MulMeaning(a: Node, b: Node, env: Env)
    ensures Eval(MkMul(a, b), env) == Times(Eval(a, env), Eval(b, env))
    ensures Defined(MkMul(a, b), env) <==> Defined(a, env) && Defined(b, env)
  {
    hide Times, CastValue;
    ToConstValue(a, env);
    ToConstValue(b, env);
    TimesOne(Eval(a, env));
    TimesOne(Eval(b, env));
    if ToConst(a) == Some(1.0) || ToConst(b) == Some(1.0) {
    } else if a == b {
      SquareMeaning(a, env);
    } else {
      assert MkMul(a, b) == Mul(a, b);
    }
  }

  lemma SquareMeaning(a: Node, env: Env)
    ensures Eval(Square(a), env) == Times(Eval(a, env), Eval(a, env))
    ensures Defined(Square(a), env) <==> Defined(a, env)
  {
  }

  lemma QuotientCases(x: real, y: real)
    ensures y != 0.0 ==> Quotient(x, y) == Times(x, Quotient(1.0, y))
    ensures y == 0.0 ==> Quotient(x, y) == 0.0 == Times(x, Quotient(1.0, y))
  {
    if y != 0.0 { QuotientRules(x, y); }
  }

  lemma DivMeaning(a: Node, b: Node, env: Env)
    ensures Eval(MkDiv(a, b), env) == Quotient(Eval(a, env), Eval(b, env))
    ensures Defined(MkDiv(a, b), env) <==> Defined(a, env) && Defined(b, env) && Eval(b, env) != 0.0
  {
    hide Times, Quotient, MkMul;
    ToConstValue(a, env);
    ToConstValue(b, env);
    if ToConst(a) == Some(1.0) {
      assert MkDiv(a, b) == Inv(b);
    } else if ToConst(b).Some? {
      MulMeaning(a, Inv(b), env);
      QuotientCases(Eval(a, env), Eval(b, env));
      assert Eval(Inv(b), env) == Quotient(1.0, Eval(b, env));
    } else {
      assert MkDiv(a, b) == Div(a, b);
    }
  }

  /** In the operators of arithmetic. */
  lemma ProductAndQuotient(a: Node, b: Node, env: Env)
    ensures Eval(MkMul(a, b), env) == Eval(a, env) * Eval(b, env)
    ensures Eval(b, env) != 0.0 ==> Eval(MkDiv(a, b), env) == Eval(a, env) / Eval(b, env)
  {
    hide Eval, MkMul, MkDiv, ToConst;
    MulMeaning(a, b, env);
    DivMeaning(a, b, env);
  }
}
