/** Gauss-Jordan elimination over expression nodes, ts/mat.ts. */
module MatSolve {
  import opened Nodes

  /** A matrix cell: an expression, or one of the two sentinel objects that must never be computed with. */
  datatype Cell = Zero | One | Expr(n: Node)

  type Row = seq<Cell>
  type Matrix = seq<Row>

  ghost function Val(c: Cell, env: Env): real {
    match c
    case Zero => 0.0
    case One => 1.0
    case Expr(n) => Eval(n, env)
  }

  /** Before step i: column k < i is the k-th unit column, the others hold expressions. */
  predicate Reduced(mat: Matrix, n: nat, i: nat) {
    && |mat| == n
    && forall j :: 0 <= j < n ==> |mat[j]| == n + 1 && ReducedRow(mat[j], j, i)
  }

  predicate ReducedRow(row: Row, j: nat, i: nat) {
    forall k :: 0 <= k < |row| ==> if k < i then row[k] == (if j == k then One else Zero) else row[k].Expr?
  }

  /** The cell of row j != i: sub(rc, mul(pc, div(row[i], pivot[i]))) with the sentinel cases. */
  function EliminateCell(row: Row, pivot: Row, i: nat, k: nat): Cell
    requires i < |row| == |pivot| && k < |row|
    requires row[i].Expr? && pivot[i].Expr?
    requires k > i ==> row[k].Expr? && pivot[k].Expr?
    requires k < i ==> pivot[k].Zero?
  {
    if k == i then Zero
    else if pivot[k].Zero? then row[k]
    else Expr(MkSub(row[k].n, MkMul(pivot[k].n, MkDiv(row[i].n, pivot[i].n))))
  }

  /** The cell of the pivot row itself. */
  function ScaleCell(row: Row, i: nat, k: nat): Cell
    requires i < |row| && k < |row|
    requires row[i].Expr?
    requires k > i ==> row[k].Expr?
    requires k < i ==> row[k].Zero?
  {
    if k == i then One
    else if row[k].Zero? then Zero
    else Expr(MkDiv(row[k].n, row[i].n))
  }

  /** mat.map(...) of step i. */
  function StepRow(mat: Matrix, n: nat, i: nat, j: nat): (r: Row)
    requires i < n && j < n && Reduced(mat, n, i)
    ensures |r| == n + 1
  {
    assert ReducedRow(mat[i], i, i) && ReducedRow(mat[j], j, i);
    if i != j
    then seq(n + 1, k requires 0 <= k < n + 1 => EliminateCell(mat[j], mat[i], i, k))
    else seq(n + 1, k requires 0 <= k < n + 1 => ScaleCell(mat[j], i, k))
  }

  function Step(mat: Matrix, n: nat, i: nat): (r: Matrix)
    requires i < n && Reduced(mat, n, i)
    ensures Reduced(r, n, i + 1)
  {
    seq(n, j requires 0 <= j < n => StepRow(mat, n, i, j))
  }

  /** The matrix after the first i steps. */
  function Run(mat: Matrix, n: nat, i: nat): (r: Matrix)
    requires i <= n && Reduced(mat, n, 0)
    ensures Reduced(r, n, i)
  {
    if i == 0 then mat else Step(Run(mat, n, i - 1), n, i - 1)
  }

  /** A square system with a right-hand side for every row. */
  predicate IsSquare(A: seq<seq<Node>>, b: seq<Node>) {
    |A| == |b| && forall j :: 0 <= j < |A| ==> |A[j]| == |b|
  }

  /** [...x, b[i]] for every row. */
  function Augment(A: seq<seq<Node>>, b: seq<Node>): (m: Matrix)
    requires IsSquare(A, b)
    ensures Reduced(m, |b|, 0)
  {
    seq(|A|, j requires 0 <= j < |A| =>
      seq(|b| + 1, k requires 0 <= k < |b| + 1 => Expr(if k < |b| then A[j][k] else b[j])))
  }

  /** x is what Solve returns for the system. */
  ghost predicate IsResult(A: seq<seq<Node>>, b: seq<Node>, x: seq<Node>)
    requires IsSquare(A, b)
  {
    |x| == |b| && forall j :: 0 <= j < |b| ==> Expr(x[j]) == Run(Augment(A, b), |b|, |b|)[j][|b|]
  }

  datatype Outcome = Solved(x: seq<Node>) | AssertionFailed

  /** mSolve.  The shape assertions are the only ones that can fail. */
  method Solve(A: seq<seq<Node>>, b: seq<Node>) returns (r: Outcome)
    ensures r.Solved? <==> IsSquare(A, b)
    ensures r.Solved? ==> IsResult(A, b, r.x)
  {
    if |A| != |b| { return AssertionFailed; }
    if exists j :: 0 <= j < |A| && |A[j]| != |b| { return AssertionFailed; }
    var n := |b|;
    var mat := Augment(A, b);
    for i := 0 to n
      invariant mat == Run(Augment(A, b), n, i)
    {
      mat := Step(mat, n, i);
    }
    if exists j, k :: 0 <= j < n && 0 <= k < n && mat[j][k] != (if j == k then One else Zero) {
      return AssertionFailed;
    }
    r := Solved(seq(n, j requires 0 <= j < n => mat[j][n].n));
  }

  // ----- What a step does to the values -----

  /** The values of a row, right-hand side last. */
  ghost function Vals(row: Row, env: Env): (v: seq<real>)
    ensures |v| == |row| && forall k :: 0 <= k < |row| ==> v[k] == Val(row[k], env)
  {
    seq(|row|, k requires 0 <= k < |row| => Val(row[k], env))
  }

  /** A cell of the pivot row is p times its new value. */
  lemma ScaleCellValue(row: Row, i: nat, k: nat, env: Env)
    requires i < |row| && k < |row| && row[i].Expr?
    requires k > i ==> row[k].Expr?
    requires k < i ==> row[k].Zero?
    requires Val(row[i], env) != 0.0
    ensures Val(row[k], env) == Times(Val(row[i], env), Val(ScaleCell(row, i, k), env))
  {
    hide Times, Quotient;
    TimesRules(Val(row[i], env), 0.0, 0.0);
    if k > i {
      DivMeaning(row[k].n, row[i].n, env);
      QuotientRules(Val(row[k], env), Val(row[i], env));
    }
  }

  /** From a cell of another row, that row's multiple of the new pivot row is taken away. */
  lemma EliminateCellValue(row: Row, pivot: Row, i: nat, k: nat, env: Env)
    requires i < |row| == |pivot| && k < |row|
    requires row[i].Expr? && pivot[i].Expr?
    requires k > i ==> row[k].Expr? && pivot[k].Expr?
    requires k < i ==> pivot[k].Zero?
    requires Val(pivot[i], env) != 0.0
    ensures Val(EliminateCell(row, pivot, i, k), env)
         == Val(row[k], env) - Times(Val(row[i], env), Val(ScaleCell(pivot, i, k), env))
  {
    hide Times, Quotient;
    var p, q := Val(pivot[i], env), Val(row[i], env);
    TimesRules(q, 0.0, 0.0);
    if k > i {
      var rc, pc, s := row[k].n, pivot[k].n, Val(ScaleCell(pivot, i, k), env);
      SubMeaning(rc, MkMul(pc, MkDiv(row[i].n, pivot[i].n)), env);
      MulMeaning(pc, MkDiv(row[i].n, pivot[i].n), env);
      DivMeaning(row[i].n, pivot[i].n, env);
      ScaleCellValue(pivot, i, k, env);
      // pc * (q / p) == (p * s) * (q / p) == s * (p * (q / p)) == s * q
      var d := Quotient(q, p);
      QuotientRules(q, p);
      TimesRules(p, s, d);
      TimesRules(s, p, d);
      TimesRules(s, q, 0.0);
    }
  }

  /** The first m cells of a row times y. */
  ghost function Dot(row: seq<real>, y: seq<real>, m: nat): real
    requires m <= |row| && m <= |y|
  {
    if m == 0 then 0.0 else Dot(row, y, m - 1) + Times(row[m - 1], y[m - 1])
  }

  ghost predicate IsMultiple(a: seq<real>, p: real, b: seq<real>) {
    |a| == |b| && forall k :: 0 <= k < |a| ==> a[k] == Times(p, b[k])
  }

  lemma {:induction false} DotScale(a: seq<real>, p: real, b: seq<real>, y: seq<real>, m: nat)
    requires IsMultiple(a, p, b) && m <= |a| && m <= |y|
    ensures Dot(a, y, m) == Times(p, Dot(b, y, m))
  {
    hide Times;
    TimesRules(p, 0.0, 0.0);
    if m > 0 {
      DotScale(a, p, b, y, m - 1);
      TimesRules(p, b[m - 1], y[m - 1]);
      var d, e := Dot(b, y, m - 1), Times(b[m - 1], y[m - 1]);
      TimesRules(d, e, p);
      TimesRules(p, d, 0.0);
      TimesRules(p, e, 0.0);
      TimesRules(p, d + e, 0.0);
    }
  }

  lemma {:induction false} DotMinus(r: seq<real>, a: seq<real>, b: seq<real>, y: seq<real>, m: nat)
    requires m <= |r| && m <= |a| && m <= |b| && m <= |y|
    requires forall k :: 0 <= k < m ==> r[k] == a[k] - b[k]
    ensures Dot(r, y, m) == Dot(a, y, m) - Dot(b, y, m)
  {
    hide Times;
    if m > 0 {
      DotMinus(r, a, b, y, m - 1);
      TimesRules(a[m - 1], b[m - 1], y[m - 1]);
    }
  }

  /** y, scaled by t, satisfies the row in its first m unknowns: t = 1 is the equation, t = 0 its
      homogeneous form. */
  ghost predicate RowHolds(row: seq<real>, y: seq<real>, m: nat, t: real)
    requires m < |row| && |y| == m
  {
    Dot(row, y, m) == Times(t, row[|row| - 1])
  }

  lemma ScaledRowHolds(a: seq<real>, p: real, b: seq<real>, y: seq<real>, m: nat, t: real)
    requires m < |b| && |y| == m && p != 0.0 && IsMultiple(a, p, b)
    ensures RowHolds(a, y, m, t) <==> RowHolds(b, y, m, t)
  {
    hide Times;
    DotScale(a, p, b, y, m);
    var last := b[|b| - 1];
    TimesRules(t, p, last);
    TimesRules(p, t, last);
    Cancel(p, Dot(b, y, m), Times(t, last));
  }

  lemma Cancel(p: real, u: real, v: real)
    requires p != 0.0
    ensures Times(p, u) == Times(p, v) <==> u == v
  {
    if p * u == p * v { assert p * (u - v) == 0.0; }
  }

  /** r = a - q * b */
  ghost predicate IsMinusMultiple(r: seq<real>, a: seq<real>, q: real, b: seq<real>) {
    |r| == |a| == |b| && forall k :: 0 <= k < |r| ==> r[k] == a[k] - Times(q, b[k])
  }

  /** When b holds, a - q * b holds just when a does. */
  lemma EliminatedRowHolds(r: seq<real>, a: seq<real>, q: real, b: seq<real>, y: seq<real>, m: nat, t: real)
    requires m < |b| && |y| == m && IsMinusMultiple(r, a, q, b)
    requires RowHolds(b, y, m, t)
    ensures RowHolds(r, y, m, t) <==> RowHolds(a, y, m, t)
  {
    hide Times;
    var qb := seq(|b|, k requires 0 <= k < |b| => Times(q, b[k]));
    DotScale(qb, q, b, y, m);
    DotMinus(r, a, qb, y, m);
    var last, other := b[|b| - 1], a[|a| - 1];
    TimesRules(q, t, last);
    TimesRules(t, q, last);
    TimesRules(other, Times(q, last), t);
    TimesRules(other, t, 0.0);
    TimesRules(Times(q, last), t, 0.0);
    TimesRules(other - Times(q, last), t, 0.0);
  }

  /** y solves the leading m x m part of the system with the right-hand side scaled by t. */
  ghost predicate SolvesLeading(mat: Matrix, env: Env, y: seq<real>, m: nat, t: real)
    requires m <= |mat| && |y| == m && forall j :: 0 <= j < m ==> |mat[j]| == |mat| + 1
  {
    forall j :: 0 <= j < m ==> RowHolds(Vals(mat[j], env), y, m, t)
  }

  /** One step with a nonzero pivot keeps the solutions of every leading part that contains it. */
  lemma StepKeepsSolutions(mat: Matrix, n: nat, i: nat, env: Env, y: seq<real>, m: nat, t: real)
    requires i < m <= n && Reduced(mat, n, i) && |y| == m
    requires Val(mat[i][i], env) != 0.0
    ensures SolvesLeading(Step(mat, n, i), env, y, m, t) <==> SolvesLeading(mat, env, y, m, t)
  {
    hide RowHolds;
    var next := Step(mat, n, i);
    PivotRowKeeps(mat, n, i, env, y, m, t);
    if RowHolds(Vals(next[i], env), y, m, t) {
      forall j | 0 <= j < m
        ensures RowHolds(Vals(next[j], env), y, m, t) <==> RowHolds(Vals(mat[j], env), y, m, t)
      {
        if j != i { OtherRowKeeps(mat, n, i, j, env, y, m, t); }
      }
    }
  }

  lemma PivotRowKeeps(mat: Matrix, n: nat, i: nat, env: Env, y: seq<real>, m: nat, t: real)
    requires i < n && m <= n && Reduced(mat, n, i) && |y| == m
    requires Val(mat[i][i], env) != 0.0
    ensures RowHolds(Vals(Step(mat, n, i)[i], env), y, m, t) <==> RowHolds(Vals(mat[i], env), y, m, t)
  {
    hide Times, RowHolds;
    var p := Val(mat[i][i], env);
    var a, b := Vals(mat[i], env), Vals(Step(mat, n, i)[i], env);
    assert ReducedRow(mat[i], i, i);
    forall k | 0 <= k < |a| ensures a[k] == Times(p, b[k]) {
      assert Step(mat, n, i)[i][k] == ScaleCell(mat[i], i, k);
      ScaleCellValue(mat[i], i, k, env);
    }
    ScaledRowHolds(a, p, b, y, m, t);
  }

  lemma OtherRowKeeps(mat: Matrix, n: nat, i: nat, j: nat, env: Env, y: seq<real>, m: nat, t: real)
    requires i < n && j < n && j != i && m <= n && Reduced(mat, n, i) && |y| == m
    requires Val(mat[i][i], env) != 0.0
    requires RowHolds(Vals(Step(mat, n, i)[i], env), y, m, t)
    ensures RowHolds(Vals(Step(mat, n, i)[j], env), y, m, t) <==> RowHolds(Vals(mat[j], env), y, m, t)
  {
    hide Times, RowHolds;
    var q := Val(mat[j][i], env);
    var r, a, b := Vals(Step(mat, n, i)[j], env), Vals(mat[j], env), Vals(Step(mat, n, i)[i], env);
    assert ReducedRow(mat[i], i, i) && ReducedRow(mat[j], j, i);
    forall k | 0 <= k < |r| ensures r[k] == a[k] - Times(q, b[k]) {
      assert Step(mat, n, i)[i][k] == ScaleCell(mat[i], i, k);
      assert Step(mat, n, i)[j][k] == EliminateCell(mat[j], mat[i], i, k);
      EliminateCellValue(mat[j], mat[i], i, k, env);
    }
    EliminatedRowHolds(r, a, q, b, y, m, t);
  }

  // ----- Runs -----

  ghost predicate PivotsNonzero(mat: Matrix, n: nat, env: Env, upto: nat)
    requires upto <= n && Reduced(mat, n, 0)
  {
    forall i :: 0 <= i < upto ==> Val(Run(mat, n, i)[i][i], env) != 0.0
  }

  lemma {:induction false} RunKeepsSolutions(mat: Matrix, n: nat, i: nat, env: Env, y: seq<real>, m: nat, t: real)
    requires i <= m <= n && Reduced(mat, n, 0) && |y| == m
    requires PivotsNonzero(mat, n, env, i)
    ensures SolvesLeading(Run(mat, n, i), env, y, m, t) <==> SolvesLeading(mat, env, y, m, t)
  {
    hide SolvesLeading, Times;
    if i > 0 {
      var prev := Run(mat, n, i - 1);
      RunKeepsSolutions(mat, n, i - 1, env, y, m, t);
      StepKeepsSolutions(prev, n, i - 1, env, y, m, t);
      assert Run(mat, n, i) == Step(prev, n, i - 1);
    }
  }

  /** A row whose first m cells are a unit vector picks out one unknown. */
  lemma {:induction false} UnitDot(row: seq<real>, y: seq<real>, m: nat, j: nat)
    requires m <= |row| && m <= |y|
    requires forall k :: 0 <= k < m ==> row[k] == if j == k then 1.0 else 0.0
    ensures Dot(row, y, m) == if j < m then y[j] else 0.0
  {
    hide Times;
    if m > 0 {
      UnitDot(row, y, m - 1, j);
      TimesRules(y[m - 1], 0.0, 0.0);
    }
  }

  // ----- The system itself -----

  /** y solves A y = b, row by row. */
  ghost predicate Holds(A: seq<seq<Node>>, b: seq<Node>, env: Env, y: seq<real>)
    requires IsSquare(A, b) && |y| == |b|
  {
    forall j :: 0 <= j < |b| ==> Product(A[j], env, y, |b|) == Eval(b[j], env)
  }

  ghost function Product(row: seq<Node>, env: Env, y: seq<real>, m: nat): real
    requires m <= |row| && m <= |y|
  {
    if m == 0 then 0.0 else Product(row, env, y, m - 1) + Times(Eval(row[m - 1], env), y[m - 1])
  }

  lemma {:induction false} AugmentedProduct(A: seq<seq<Node>>, b: seq<Node>, env: Env, y: seq<real>, j: nat, m: nat)
    requires IsSquare(A, b) && j < |b| && m <= |y| && m <= |b|
    ensures Dot(Vals(Augment(A, b)[j], env), y, m) == Product(A[j], env, y, m)
  {
    hide Times;
    if m > 0 { AugmentedProduct(A, b, env, y, j, m - 1); }
  }

  ghost function Values(x: seq<Node>, env: Env): (v: seq<real>)
    ensures |v| == |x| && forall j :: 0 <= j < |x| ==> v[j] == Eval(x[j], env)
  {
    seq(|x|, j requires 0 <= j < |x| => Eval(x[j], env))
  }

  /** With nonzero pivots the emitted expressions evaluate to the one and only solution. */
  lemma PivotsSolve(A: seq<seq<Node>>, b: seq<Node>, x: seq<Node>, env: Env, y: seq<real>)
    requires IsSquare(A, b) && IsResult(A, b, x) && |y| == |b|
    requires PivotsNonzero(Augment(A, b), |b|, env, |b|)
    ensures Holds(A, b, env, y) <==> y == Values(x, env)
  {
    var n, mat := |b|, Augment(A, b);
    RunKeepsSolutions(mat, n, n, env, y, n, 1.0);
    AugmentedHolds(A, b, env, y);
    FinalHolds(Run(mat, n, n), b, x, env, y);
  }

  lemma AugmentedHolds(A: seq<seq<Node>>, b: seq<Node>, env: Env, y: seq<real>)
    requires IsSquare(A, b) && |y| == |b|
    ensures Holds(A, b, env, y) <==> SolvesLeading(Augment(A, b), env, y, |b|, 1.0)
  {
    hide Times;
    forall j | 0 <= j < |b|
      ensures RowHolds(Vals(Augment(A, b)[j], env), y, |b|, 1.0) <==> Product(A[j], env, y, |b|) == Eval(b[j], env)
    {
      AugmentedProduct(A, b, env, y, j, |b|);
      TimesRules(Eval(b[j], env), 0.0, 0.0);
    }
  }

  lemma FinalHolds(final: Matrix, b: seq<Node>, x: seq<Node>, env: Env, y: seq<real>)
    requires Reduced(final, |b|, |b|) && |x| == |y| == |b|
    requires forall j :: 0 <= j < |b| ==> Expr(x[j]) == final[j][|b|]
    ensures SolvesLeading(final, env, y, |b|, 1.0) <==> y == Values(x, env)
  {
    hide Times;
    var n := |b|;
    forall j | 0 <= j < n
      ensures RowHolds(Vals(final[j], env), y, n, 1.0) <==> y[j] == Values(x, env)[j]
    {
      assert ReducedRow(final[j], j, n);
      UnitDot(Vals(final[j], env), y, n, j);
      TimesRules(Eval(x[j], env), 0.0, 0.0);
    }
    assert y == Values(x, env) <==> forall j :: 0 <= j < n ==> y[j] == Values(x, env)[j];
  }

  // ----- When the pivots are nonzero -----

  /** The leading m x m part of A times y is zero. */
  ghost predicate Annihilates(A: seq<seq<Node>>, env: Env, y: seq<real>, m: nat)
    requires m <= |A| && |y| == m && forall j :: 0 <= j < m ==> |A[j]| >= m
  {
    forall j :: 0 <= j < m ==> Product(A[j], env, y, m) == 0.0
  }

  ghost predicate IsZero(y: seq<real>) { forall j :: 0 <= j < |y| ==> y[j] == 0.0 }

  /** The leading m x m part of A is nonsingular. */
  ghost predicate Nonsingular(A: seq<seq<Node>>, env: Env, m: nat)
    requires m <= |A| && forall j :: 0 <= j < m ==> |A[j]| >= m
  {
    forall y: seq<real> :: |y| == m && Annihilates(A, env, y, m) ==> IsZero(y)
  }

  lemma AnnihilatesIsHomogeneous(A: seq<seq<Node>>, b: seq<Node>, env: Env, y: seq<real>, m: nat)
    requires IsSquare(A, b) && m <= |b| && |y| == m
    ensures Annihilates(A, env, y, m) <==> SolvesLeading(Augment(A, b), env, y, m, 0.0)
  {
    hide Times;
    forall j | 0 <= j < m
      ensures RowHolds(Vals(Augment(A, b)[j], env), y, m, 0.0) <==> Product(A[j], env, y, m) == 0.0
    {
      AugmentedProduct(A, b, env, y, j, m);
      TimesOne(Eval(b[j], env));
    }
  }

  /** Row j <= i of a matrix reduced up to step i, times y. */
  lemma ReducedDot(row: Row, env: Env, y: seq<real>, j: nat, i: nat)
    requires |y| == i + 1 < |row| && j <= i && ReducedRow(row, j, i)
    ensures Dot(Vals(row, env), y, i + 1) == (if j < i then y[j] else 0.0) + Times(Val(row[i], env), y[i])
  {
    hide Times;
    UnitDot(Vals(row, env), y, i, j);
  }

  /** As long as the pivots before it are nonzero, a pivot is nonzero exactly when the leading part of
      A that ends with it is nonsingular. */
  lemma PivotIffNonsingular(A: seq<seq<Node>>, b: seq<Node>, env: Env, i: nat)
    requires IsSquare(A, b) && i < |b|
    requires PivotsNonzero(Augment(A, b), |b|, env, i)
    ensures Val(Run(Augment(A, b), |b|, i)[i][i], env) != 0.0 <==> Nonsingular(A, env, i + 1)
  {
    hide Times, Run, Annihilates, SolvesLeading, Product, Eval;
    var n, mat := |b|, Augment(A, b);
    var now := Run(mat, n, i);
    var p := Val(now[i][i], env);
    forall y: seq<real> | |y| == i + 1
      ensures Annihilates(A, env, y, i + 1) <==> SolvesLeading(now, env, y, i + 1, 0.0)
    {
      AnnihilatesIsHomogeneous(A, b, env, y, i + 1);
      RunKeepsSolutions(mat, n, i, env, y, i + 1, 0.0);
    }
    if p != 0.0 {
      forall y: seq<real> | |y| == i + 1 && Annihilates(A, env, y, i + 1) ensures IsZero(y) {
        OnlyZero(now, n, i, env, y);
      }
    } else {
      var y := NullVector(now, n, i, env);
      assert Annihilates(A, env, y, i + 1);
      assert y[i] != 0.0;
    }
  }

  lemma OnlyZero(now: Matrix, n: nat, i: nat, env: Env, y: seq<real>)
    requires i < n && Reduced(now, n, i) && |y| == i + 1
    requires Val(now[i][i], env) != 0.0 && SolvesLeading(now, env, y, i + 1, 0.0)
    ensures IsZero(y)
  {
    hide Times;
    assert RowHolds(Vals(now[i], env), y, i + 1, 0.0) && ReducedRow(now[i], i, i);
    ReducedDot(now[i], env, y, i, i);
    TimesOne(Val(now[i][n], env));
    TimesOne(Val(now[i][i], env));
    Cancel(Val(now[i][i], env), y[i], 0.0);
    forall j | 0 <= j < i ensures y[j] == 0.0 {
      assert RowHolds(Vals(now[j], env), y, i + 1, 0.0) && ReducedRow(now[j], j, i);
      ReducedDot(now[j], env, y, j, i);
      TimesOne(Val(now[j][n], env));
      TimesOne(Val(now[j][i], env));
    }
  }

  lemma NullVector(now: Matrix, n: nat, i: nat, env: Env) returns (y: seq<real>)
    requires i < n && Reduced(now, n, i)
    requires Val(now[i][i], env) == 0.0
    ensures |y| == i + 1 && y[i] != 0.0
    ensures SolvesLeading(now, env, y, i + 1, 0.0)
  {
    hide Times;
    y := seq(i + 1, j requires 0 <= j < i + 1 => if j == i then 1.0 else -Val(now[j][i], env));
    forall j | 0 <= j < i + 1
      ensures RowHolds(Vals(now[j], env), y, i + 1, 0.0)
    {
      assert ReducedRow(now[j], j, i);
      ReducedDot(now[j], env, y, j, i);
      TimesOne(Val(now[j][n], env));
      TimesOne(Val(now[j][i], env));
    }
  }

  ghost predicate LeadingNonsingular(A: seq<seq<Node>>, env: Env, upto: nat)
    requires upto <= |A| && forall j :: 0 <= j < |A| ==> |A[j]| == |A|
  {
    forall m :: 1 <= m <= upto ==> Nonsingular(A, env, m)
  }

  lemma {:induction false} PivotsIffNonsingular(A: seq<seq<Node>>, b: seq<Node>, env: Env, upto: nat)
    requires IsSquare(A, b) && upto <= |b|
    ensures PivotsNonzero(Augment(A, b), |b|, env, upto) <==> LeadingNonsingular(A, env, upto)
  {
    hide Nonsingular, Run, Val;
    if upto > 0 {
      PivotsIffNonsingular(A, b, env, upto - 1);
      if PivotsNonzero(Augment(A, b), |b|, env, upto - 1) {
        PivotIffNonsingular(A, b, env, upto - 1);
      }
    }
  }

  // ----- When the emitted expressions are defined -----

  ghost predicate InputsDefined(A: seq<seq<Node>>, b: seq<Node>, env: Env)
    requires IsSquare(A, b)
  {
    && (forall j, k :: 0 <= j < |b| && 0 <= k < |b| ==> Defined(A[j][k], env))
    && (forall j :: 0 <= j < |b| ==> Defined(b[j], env))
  }

  ghost predicate CellDefined(c: Cell, env: Env) { c.Expr? ==> Defined(c.n, env) }

  /** A cell right of the pivot column is defined after a step exactly when its ingredients were and
      the pivot is nonzero. */
  lemma StepDefined(mat: Matrix, n: nat, i: nat, j: nat, k: nat, env: Env)
    requires i < n && j < n && i < k <= n && Reduced(mat, n, i)
    ensures CellDefined(Step(mat, n, i)[j][k], env)
       <==> && CellDefined(mat[j][k], env) && CellDefined(mat[i][k], env)
            && CellDefined(mat[j][i], env) && CellDefined(mat[i][i], env)
            && Val(mat[i][i], env) != 0.0
  {
    assert ReducedRow(mat[i], i, i) && ReducedRow(mat[j], j, i);
    var rc, pc, q, p := mat[j][k].n, mat[i][k].n, mat[j][i].n, mat[i][i].n;
    if i == j {
      assert Step(mat, n, i)[j][k] == ScaleCell(mat[i], i, k);
      DivMeaning(rc, p, env);
    } else {
      assert Step(mat, n, i)[j][k] == EliminateCell(mat[j], mat[i], i, k);
      SubMeaning(rc, MkMul(pc, MkDiv(q, p)), env);
      MulMeaning(pc, MkDiv(q, p), env);
      DivMeaning(q, p, env);
    }
  }

  lemma {:induction false} RunDefined(A: seq<seq<Node>>, b: seq<Node>, env: Env, i: nat, j: nat, k: nat)
    requires IsSquare(A, b) && InputsDefined(A, b, env)
    requires i <= |b| && j < |b| && i <= k <= |b|
    requires PivotsNonzero(Augment(A, b), |b|, env, i)
    ensures CellDefined(Run(Augment(A, b), |b|, i)[j][k], env)
  {
    hide Step, Defined, Eval, Val;
    if i > 0 {
      var prev := Run(Augment(A, b), |b|, i - 1);
      RunDefined(A, b, env, i - 1, j, k);
      RunDefined(A, b, env, i - 1, i - 1, k);
      RunDefined(A, b, env, i - 1, j, i - 1);
      RunDefined(A, b, env, i - 1, i - 1, i - 1);
      StepDefined(prev, |b|, i - 1, j, k, env);
    }
  }

  lemma {:induction false} DefinedNeedsPivots(mat: Matrix, n: nat, env: Env, i: nat, j: nat)
    requires i <= n && j < n && Reduced(mat, n, 0)
    requires CellDefined(Run(mat, n, i)[j][n], env)
    ensures PivotsNonzero(mat, n, env, i)
  {
    hide Step, Defined, Eval, CellDefined;
    if i > 0 {
      StepDefined(Run(mat, n, i - 1), n, i - 1, j, n, env);
      DefinedNeedsPivots(mat, n, env, i - 1, j);
    }
  }

  /** Every emitted expression is free of divisions by zero exactly when all leading parts of A are
      nonsingular: the price of not searching for pivots. */
  lemma DefinedIffLeadingNonsingular(A: seq<seq<Node>>, b: seq<Node>, x: seq<Node>, env: Env, j: nat)
    requires IsSquare(A, b) && IsResult(A, b, x) && InputsDefined(A, b, env) && j < |b|
    ensures Defined(x[j], env) <==> LeadingNonsingular(A, env, |b|)
  {
    PivotsIffNonsingular(A, b, env, |b|);
    if Defined(x[j], env) {
      DefinedNeedsPivots(Augment(A, b), |b|, env, |b|, j);
    }
    if PivotsNonzero(Augment(A, b), |b|, env, |b|) {
      RunDefined(A, b, env, |b|, j, |b|);
    }
  }

  /** For such systems the emitted vector is the one and only solution. */
  lemma SolvesTheSystem(A: seq<seq<Node>>, b: seq<Node>, x: seq<Node>, env: Env, y: seq<real>)
    requires IsSquare(A, b) && IsResult(A, b, x) && |y| == |b|
    requires LeadingNonsingular(A, env, |b|)
    ensures Holds(A, b, env, y) <==> y == Values(x, env)
  {
    PivotsIffNonsingular(A, b, env, |b|);
    PivotsSolve(A, b, x, env, y);
  }

  /** Exchanging two unknowns is a uniquely solvable system, yet its solution is not found. */
  lemma ExchangeIsNotSolved(b: seq<Node>, x: seq<Node>, env: Env, y: seq<real>)
    requires |b| == 2 == |y| && Defined(b[0], env) && Defined(b[1], env)
    requires IsResult([[Const(Double, 0.0), Const(Double, 1.0)], [Const(Double, 1.0), Const(Double, 0.0)]], b, x)
    ensures Holds([[Const(Double, 0.0), Const(Double, 1.0)], [Const(Double, 1.0), Const(Double, 0.0)]], b, env, y)
       <==> y == [Eval(b[1], env), Eval(b[0], env)]
    ensures !Defined(x[0], env) && !Defined(x[1], env)
  {
    var zero, one := Const(Double, 0.0), Const(Double, 1.0);
    var A := [[zero, one], [one, zero]];
    hide Times;
    TwoProduct([zero, one], env, y);
    TwoProduct([one, zero], env, y);
    TimesOne(y[0]);
    TimesOne(y[1]);
    TimesOne(1.0);
    assert A[0] == [zero, one] && A[1] == [one, zero];
    assert Holds(A, b, env, y) <==> y[1] == Eval(b[0], env) && y[0] == Eval(b[1], env);
    var e := [1.0];
    assert Product([zero, one], env, e, 1) == Product([zero, one], env, e, 0) + Times(0.0, 1.0);
    assert Annihilates(A, env, e, 1) && !IsZero(e);
    assert !Nonsingular(A, env, 1);
    DefinedIffLeadingNonsingular(A, b, x, env, 0);
    DefinedIffLeadingNonsingular(A, b, x, env, 1);
  }

  lemma TwoProduct(row: seq<Node>, env: Env, y: seq<real>)
    requires |row| == 2 == |y|
    ensures Product(row, env, y, 2) == Times(Eval(row[0], env), y[0]) + Times(Eval(row[1], env), y[1])
  {
    assert Product(row, env, y, 1) == Product(row, env, y, 0) + Times(Eval(row[0], env), y[0]);
  }
}
