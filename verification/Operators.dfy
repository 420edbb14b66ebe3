/** Series that carry a value along: src/series/type/scannedseries.h. */
module ScannedSeries {

  /** The value carried after the first n inputs; row(i) holds the arguments at position i. */
  function After<E, X>(op: (E, seq<X>) -> E, initial: E, row: nat -> seq<X>, n: nat): E {
    if n == 0 then initial else op(After(op, initial, row, n - 1), row(n - 1))
  }

  /** A chunk of a series: what has been computed of it so far. */
  class Chunk<E> {
    const data: array<E>
    var computedCount: nat

    constructor (data: array<E>)
      ensures this.data == data && computedCount == 0
    {
      this.data := data;
      computedCount := 0;
    }

    /** Whatever is computed is the part of the series that starts at position base. */
    ghost predicate Holds(series: nat -> E, base: nat)
      reads this, data
    {
      computedCount <= data.Length && forall j: nat :: j < computedCount ==> data[j] == series(base + j)
    }
  }

  /** The series a scan defines. */
  ghost function Scanned<E, X>(op: (E, seq<X>) -> E, initial: E, row: nat -> seq<X>): nat -> E {
    (n: nat) => After(op, initial, row, n + 1)
  }

  /** Where chunk number `index` begins. */
  ghost function Base(index: nat, size: nat): nat { index * size }

  lemma BaseStep(index: nat, size: nat)
    ensures Base(0, size) == 0
    ensures index > 0 ==> Base(index, size) == Base(index - 1, size) + size
  {
  }

  lemma AfterStep<E, X>(op: (E, seq<X>) -> E, initial: E, row: nat -> seq<X>)
    ensures After(op, initial, row, 0) == initial
    ensures forall n: nat :: After(op, initial, row, n + 1) == op(After(op, initial, row, n), row(n))
  {
  }

  predicate Known<X>(args: seq<seq<X>>, j: nat) { forall k :: 0 <= k < |args| ==> j < |args[k]| }

  /** The arguments at position j of the chunk. */
  function Row<X>(args: seq<seq<X>>, j: nat): (r: seq<X>)
    requires Known(args, j)
    ensures |r| == |args| && forall k :: 0 <= k < |args| ==> j < |args[k]| && r[k] == args[k][j]
  {
    seq(|args|, k requires 0 <= k < |args| => args[k][j])
  }

  /** The computation of chunk number `index`: it goes on from its own last element, or from the last of the
      chunk before once that is complete, as far as all arguments are known. */
  method Compute<E, X>(op: (E, seq<X>) -> E, initial: E, ghost row: nat -> seq<X>, dst: Chunk<E>, ghost index: nat,
                       prevChunk: Chunk?<E>, args: seq<seq<X>>)
    returns (count: nat)
    requires dst.Holds(Scanned(op, initial, row), Base(index, dst.data.Length))
    requires prevChunk == null <==> index == 0
    requires prevChunk != null ==>
               && prevChunk != dst && prevChunk.data != dst.data && prevChunk.data.Length == dst.data.Length > 0
               && prevChunk.Holds(Scanned(op, initial, row), Base(index - 1, dst.data.Length))
    // what the chunks of the arguments hold: no less than before
    requires |args| > 0 && forall k :: 0 <= k < |args| ==> dst.computedCount <= |args[k]| <= dst.data.Length
    requires forall j: nat :: Known(args, j) ==> row(Base(index, dst.data.Length) + j) == Row(args, j)
    modifies dst, dst.data
    ensures dst.Holds(Scanned(op, initial, row), Base(index, dst.data.Length))
    ensures dst.computedCount == count >= old(dst.computedCount)
    ensures if old(dst.computedCount) == 0 && prevChunk != null && prevChunk.computedCount < dst.data.Length
            then count == 0
            else (forall j: nat :: j < count ==> Known(args, j)) && !Known(args, count)
    ensures forall j: nat :: j < dst.data.Length && !(old(dst.computedCount) <= j < count) ==>
              dst.data[j] == old(dst.data[j])
  {
    hide Base, After, Row;
    BaseStep(index, dst.data.Length);
    AfterStep(op, initial, row);
    ghost var base := Base(index, dst.data.Length);
    var value: E;
    if dst.computedCount > 0 {
      value := dst.data[dst.computedCount - 1];
    } else if prevChunk != null {
      if prevChunk.computedCount == prevChunk.data.Length {
        value := prevChunk.data[prevChunk.data.Length - 1];
      } else {
        return 0;
      }
    } else {
      value := initial;
    }
    var endCount := |args[0]|;
    for k := 1 to |args|
      invariant forall l :: 0 <= l < k ==> endCount <= |args[l]|
      invariant exists l :: 0 <= l < k && endCount == |args[l]|
    {
      if |args[k]| < endCount { endCount := |args[k]|; }
    }
    var start := dst.computedCount;
    assert value == After(op, initial, row, base + start);
    for i := start to endCount
      invariant value == After(op, initial, row, base + i)
      invariant forall j: nat :: j < i ==> dst.data[j] == After(op, initial, row, base + j + 1)
      invariant forall j: nat :: j < dst.data.Length && !(start <= j < i) ==> dst.data[j] == old(dst.data[j])
    {
      assert row(base + i) == Row(args, i);
      value := op(value, Row(args, i));
      dst.data[i] := value;
    }
    dst.computedCount := endCount;
    count := endCount;
  }
}

/** What the scan operators compute, over exact numbers: src/builder/scan.cpp. */
module ScanOperators {
  import opened ScannedSeries

  /** A floating point number: a number, or an infinity or NaN. */
  datatype Float = Finite(value: real) | NotFinite

  /** FuncSafeOp replaces whatever is not finite by 0, the carried value too. */
  function Safe(x: Float): real { if x.Finite? then x.value else 0.0 }

  function SafeOp(op: (real, real) -> real): (Float, seq<Float>) -> Float {
    (carried: Float, args: seq<Float>) =>
      if |args| == 1 then Finite(op(Safe(carried), Safe(args[0]))) else NotFinite
  }

  function SafeOp2(op: (real, real, real) -> real): (Float, seq<Float>) -> Float {
    (carried: Float, args: seq<Float>) =>
      if |args| == 2 then Finite(op(Safe(carried), Safe(args[0]), Safe(args[1]))) else NotFinite
  }

  function Max(a: real, b: real): real { if a < b then b else a }

  function ClampedSum(a: real, b: real): real { Max(0.0, a + b) }

  function Monotonify(a: real, b: real): real { Max(a, b) }

  function FwdFillZero(a: real, b: real): real { if b == 0.0 then a else b }

  function DecayingPlus(rate: real): (real, real) -> real {
    var mul1, mul2 := 1.0 - rate, rate;
    (a: real, b: real) => a * mul1 + b * mul2
  }

  function DecayingPlusVarying(a: real, b: real, rate: real): real { a * (1.0 - rate) + b * rate }

  /** A series of inputs with their rates. */
  function Paired(xs: nat -> Float, rates: nat -> Float): nat -> seq<Float> { (n: nat) => [xs(n), rates(n)] }

  /** A series of single arguments. */
  function Single(xs: nat -> Float): nat -> seq<Float> { (n: nat) => [xs(n)] }

  /** What Compute asks of its arguments, for an operator on one series: its chunk holds what is known of it. */
  lemma SingleRows(xs: nat -> Float, chunk: seq<Float>, base: nat)
    requires forall j :: 0 <= j < |chunk| ==> chunk[j] == xs(base + j)
    ensures forall j: nat :: Known([chunk], j) ==> Single(xs)(base + j) == Row([chunk], j)
  {
    forall j: nat | Known([chunk], j) { RowOfOne(chunk, j); }
  }

  lemma RowOfOne(chunk: seq<Float>, j: nat)
    requires Known([chunk], j)
    ensures j < |chunk| && Row([chunk], j) == [chunk[j]]
  {
    assert [chunk][0] == chunk;
  }

  /** The same for one with a series of rates: the input comes first, then the rate. */
  lemma PairedRows(xs: nat -> Float, rates: nat -> Float, chunk: seq<Float>, rateChunk: seq<Float>, base: nat)
    requires forall j :: 0 <= j < |chunk| ==> chunk[j] == xs(base + j)
    requires forall j :: 0 <= j < |rateChunk| ==> rateChunk[j] == rates(base + j)
    ensures forall j: nat :: Known([chunk, rateChunk], j) ==>
              Paired(xs, rates)(base + j) == Row([chunk, rateChunk], j)
  {
    forall j: nat | Known([chunk, rateChunk], j) { RowOfTwo(chunk, rateChunk, j); }
  }

  lemma RowOfTwo(chunk: seq<Float>, rateChunk: seq<Float>, j: nat)
    requires Known([chunk, rateChunk], j)
    ensures j < |chunk| && j < |rateChunk| && Row([chunk, rateChunk], j) == [chunk[j], rateChunk[j]]
  {
    assert [chunk, rateChunk][0] == chunk && [chunk, rateChunk][1] == rateChunk;
  }

  /** The value after n inputs; positive n are the elements of the scanned series. */
  function Value(op: (real, real) -> real, initial: Float, xs: nat -> Float, n: nat): Float {
    After(SafeOp(op), initial, Single(xs), n)
  }

  lemma ValueStep(op: (real, real) -> real, initial: Float, xs: nat -> Float, n: nat)
    ensures Value(op, initial, xs, 0) == initial
    ensures Value(op, initial, xs, n + 1) == Finite(op(Safe(Value(op, initial, xs, n)), Safe(xs(n))))
  {
  }

  /** Inputs that are not finite count as 0, whatever the operator. */
  lemma {:induction false} NotFiniteCountsAsZero(op: (real, real) -> real, initial: Float, xs: nat -> Float, n: nat)
    ensures var cleaned := (i: nat) => if xs(i).Finite? then xs(i) else Finite(0.0);
            Value(op, initial, xs, n) == Value(op, initial, cleaned, n)
  {
    var cleaned := (i: nat) => if xs(i).Finite? then xs(i) else Finite(0.0);
    if n > 0 {
      NotFiniteCountsAsZero(op, initial, xs, n - 1);
      ValueStep(op, initial, xs, n - 1);
      ValueStep(op, initial, cleaned, n - 1);
    }
  }

  function Sum(xs: nat -> Float, n: nat): real {
    if n == 0 then 0.0 else Sum(xs, n - 1) + Safe(xs(n - 1))
  }

  // ---------------------------------------------------------------- cum_sum_clamped

  /** m is the least of the sums of the first 0, 1, .. n inputs. */
  ghost predicate IsLeastPrefixSum(m: real, xs: nat -> Float, n: nat) {
    && (forall k: nat :: k <= n ==> m <= Sum(xs, k))
    && (exists k: nat :: k <= n && m == Sum(xs, k))
  }

  /** The clamped sum is how far the plain sum has risen above its lowest point. */
  lemma {:induction false} ClampedSumIsRise(xs: nat -> Float, n: nat)
    ensures IsLeastPrefixSum(Sum(xs, n) - Safe(Value(ClampedSum, Finite(0.0), xs, n)), xs, n)
  {
    var m := Sum(xs, n) - Safe(Value(ClampedSum, Finite(0.0), xs, n));
    if n == 0 {
      assert m == Sum(xs, 0);
    } else {
      ClampedSumIsRise(xs, n - 1);
      ValueStep(ClampedSum, Finite(0.0), xs, n - 1);
      var before := Sum(xs, n - 1) - Safe(Value(ClampedSum, Finite(0.0), xs, n - 1));
      if m == Sum(xs, n) {
      } else {
        var k: nat :| k <= n - 1 && before == Sum(xs, k);
        assert m == Sum(xs, k);
      }
    }
  }

  // ---------------------------------------------------------------- monotonify

  /** From minus infinity, the running maximum, but never below 0: the first call sees the infinity as 0. */
  lemma {:induction false} MonotonifyIsMaximum(xs: nat -> Float, n: nat)
    ensures var r := Safe(Value(Monotonify, NotFinite, xs, n));
            && r >= 0.0 && (forall k: nat :: k < n ==> Safe(xs(k)) <= r)
            && (r == 0.0 || exists k: nat :: k < n && r == Safe(xs(k)))
  {
    if n > 0 {
      MonotonifyIsMaximum(xs, n - 1);
      ValueStep(Monotonify, NotFinite, xs, n - 1);
    }
  }

  // ---------------------------------------------------------------- fwd_fill_zero

  /** The last input that is a number other than 0; 0 if there is none. */
  lemma {:induction false} FwdFillIsLastNonZero(xs: nat -> Float, n: nat, k: nat)
    requires k <= n
    requires forall j: nat :: k <= j < n ==> Safe(xs(j)) == 0.0
    requires k > 0 ==> Safe(xs(k - 1)) != 0.0
    ensures Safe(Value(FwdFillZero, Finite(0.0), xs, n)) == if k == 0 then 0.0 else Safe(xs(k - 1))
  {
    if n > 0 {
      ValueStep(FwdFillZero, Finite(0.0), xs, n - 1);
      if k < n { FwdFillIsLastNonZero(xs, n - 1, k); }
    }
  }

  // ---------------------------------------------------------------- decaying_sum

  function Power(base: real, n: nat): real { if n == 0 then 1.0 else base * Power(base, n - 1) }

  /** The sum over k < n of rate * (1 - rate)^(end - 1 - k) * input k. */
  function Weighted(rate: real, xs: nat -> Float, n: nat, end: nat): real
    requires n <= end
  {
    if n == 0 then 0.0
    else Weighted(rate, xs, n - 1, end) + rate * Power(1.0 - rate, end - n) * Safe(xs(n - 1))
  }

  lemma {:induction false} WeightedDecays(rate: real, xs: nat -> Float, n: nat, end: nat)
    requires n <= end
    ensures Weighted(rate, xs, n, end + 1) == Weighted(rate, xs, n, end) * (1.0 - rate)
  {
    hide Power;
    if n > 0 {
      WeightedDecays(rate, xs, n - 1, end);
      PowerStep(1.0 - rate, end - n);
      Scale(1.0 - rate, rate, Power(1.0 - rate, end - n), Safe(xs(n - 1)), Weighted(rate, xs, n - 1, end),
            Power(1.0 - rate, end + 1 - n), Weighted(rate, xs, n - 1, end + 1));
    }
  }

  lemma PowerStep(base: real, n: nat)
    ensures Power(base, n + 1) == base * Power(base, n)
  {
  }

  lemma Scale(q: real, rate: real, p: real, x: real, w: real, pq: real, wq: real)
    requires pq == q * p && wq == w * q
    ensures wq + rate * pq * x == (w + rate * p * x) * q
  {
    assert rate * (q * p) * x == (rate * p * x) * q;
  }

  /** The decaying sum is the geometrically weighted sum of its inputs. */
  lemma {:induction false} DecayingSumIsWeighted(rate: real, xs: nat -> Float, n: nat)
    ensures Safe(Value(DecayingPlus(rate), Finite(0.0), xs, n)) == Weighted(rate, xs, n, n)
  {
    if n > 0 {
      hide Value;
      DecayingSumIsWeighted(rate, xs, n - 1);
      ValueStep(DecayingPlus(rate), Finite(0.0), xs, n - 1);
      WeightedDecays(rate, xs, n - 1, n - 1);
      LastWeight(rate, xs, n);
    } else {
      ValueStep(DecayingPlus(rate), Finite(0.0), xs, 0);
    }
  }

  /** The latest input counts with the rate itself. */
  lemma LastWeight(rate: real, xs: nat -> Float, n: nat)
    requires n > 0
    ensures Weighted(rate, xs, n, n) == Weighted(rate, xs, n - 1, n) + Safe(xs(n - 1)) * rate
  {
    assert Power(1.0 - rate, 0) == 1.0;
  }

  /** With a rate in [0, 1] it stays wherever 0 and the inputs are. */
  lemma {:induction false} DecayingSumStaysBetween(rate: real, xs: nat -> Float, n: nat, lo: real, hi: real)
    requires 0.0 <= rate <= 1.0 && lo <= 0.0 <= hi
    requires forall k: nat :: k < n ==> lo <= Safe(xs(k)) <= hi
    ensures lo <= Safe(Value(DecayingPlus(rate), Finite(0.0), xs, n)) <= hi
  {
    if n > 0 {
      DecayingSumStaysBetween(rate, xs, n - 1, lo, hi);
      ValueStep(DecayingPlus(rate), Finite(0.0), xs, n - 1);
      Mix(rate, Safe(Value(DecayingPlus(rate), Finite(0.0), xs, n - 1)), Safe(xs(n - 1)), lo, hi);
    }
  }

  lemma Mix(rate: real, a: real, b: real, lo: real, hi: real)
    requires 0.0 <= rate <= 1.0 && lo <= a <= hi && lo <= b <= hi
    ensures lo <= a * (1.0 - rate) + b * rate <= hi
  {
    NonNegative(a - lo, 1.0 - rate);
    NonNegative(b - lo, rate);
    NonNegative(hi - a, 1.0 - rate);
    NonNegative(hi - b, rate);
  }

  lemma NonNegative(x: real, y: real)
    requires x >= 0.0 && y >= 0.0
    ensures x * y >= 0.0
  {
  }

  lemma VaryingStart(xs: nat -> Float, rates: nat -> Float, rate: real)
    ensures After(SafeOp2(DecayingPlusVarying), Finite(0.0), Paired(xs, rates), 0) ==
            Value(DecayingPlus(rate), Finite(0.0), xs, 0)
  {
  }

  lemma VaryingStep(xs: nat -> Float, rates: nat -> Float, n: nat)
    ensures var op := SafeOp2(DecayingPlusVarying);
            var before := After(op, Finite(0.0), Paired(xs, rates), n);
            After(op, Finite(0.0), Paired(xs, rates), n + 1) ==
              Finite(DecayingPlusVarying(Safe(before), Safe(xs(n)), Safe(rates(n))))
  {
  }

  /** The form with a series of rates agrees, when the rates are constant: a rate that is not finite counts as 0. */
  lemma {:induction false} VaryingAgrees(rates: nat -> Float, rate: real, xs: nat -> Float, n: nat)
    requires forall k: nat :: k < n ==> Safe(rates(k)) == rate
    ensures After(SafeOp2(DecayingPlusVarying), Finite(0.0), Paired(xs, rates), n)
            == Value(DecayingPlus(rate), Finite(0.0), xs, n)
  {
    hide After, Value;
    if n == 0 {
      VaryingStart(xs, rates, rate);
    } else {
      VaryingAgrees(rates, rate, xs, n - 1);
      VaryingStep(xs, rates, n - 1);
      ValueStep(DecayingPlus(rate), Finite(0.0), xs, n - 1);
    }
  }
}

/** The dot operator on chunks that are filled in as their inputs become known: src/builder/dot.cpp. */
module DotProduct {

  /** The element type: no law of arithmetic is used, so rounding makes no difference. */
  datatype Arithmetic<!E> = Arithmetic(zero: E, add: (E, E) -> E, mul: (E, E) -> E)

  /** An operand: numbers, or for each entry what has been computed of a chunk of a series. */
  datatype Vector<E> = Scalars(values: seq<E>) | Chunks(computed: seq<seq<E>>)
  {
    function Size(): nat { if Scalars? then |values| else |computed| }

    /** Every entry has an element at position j. */
    predicate Has(j: nat) { Chunks? ==> forall i :: 0 <= i < |computed| ==> j < |computed[i]| }

    function At(i: nat, j: nat): E
      requires i < Size() && Has(j)
    {
      if Scalars? then values[i] else computed[i][j]
    }

    /** The numbers that stand at position j. */
    function Column(j: nat): (c: seq<E>)
      requires Has(j)
      ensures |c| == Size()
      ensures Scalars? ==> c == values
      ensures Chunks? ==> forall i :: 0 <= i < |computed| ==> j < |computed[i]| && c[i] == computed[i][j]
    {
      if Scalars? then values else seq(|computed|, i requires 0 <= i < |computed| => computed[i][j])
    }

    /** The same operand later on: chunks are only ever extended. */
    ghost predicate GrowsInto(later: Vector<E>) {
      if Scalars? then later == this
      else later.Chunks? && |later.computed| == |computed| &&
           forall i :: 0 <= i < |computed| ==> computed[i] <= later.computed[i]
    }
  }

  datatype Sized = Ok(size: nat) | SizesDiffer

  function GetSize<E>(a: Vector<E>, b: Vector<E>): (r: Sized)
    ensures r.Ok? <==> a.Size() == b.Size()
    ensures r.Ok? ==> r.size == a.Size()
  {
    if a.Size() != b.Size() then SizesDiffer else Ok(a.Size())
  }

  /** The sum of products in order, from zero. */
  function Dot<E>(m: Arithmetic<E>, x: seq<E>, y: seq<E>): E
    requires |x| == |y|
  {
    if x == [] then m.zero
    else
      var k := |x| - 1;
      (m.add)(Dot(m, x[..k], y[..k]), (m.mul)(x[k], y[k]))
  }

  lemma DotStep<E>(m: Arithmetic<E>, x: seq<E>, y: seq<E>, i: nat)
    requires i < |x| == |y|
    ensures Dot(m, x[..i + 1], y[..i + 1]) == (m.add)(Dot(m, x[..i], y[..i]), (m.mul)(x[i], y[i]))
  {
    assert x[..i + 1][..i] == x[..i] && y[..i + 1][..i] == y[..i];
  }

  /** What a declaration yields, or the exception it throws. */
  datatype Declared<E> = Constant(sum: E) | InvalidParameter

  /** Two arrays of numbers: arrays of different size are refused, and for others the sum is taken once. */
  method DotScalars<E>(m: Arithmetic<E>, a: seq<E>, b: seq<E>) returns (r: Declared<E>)
    ensures r.Constant? <==> |a| == |b|
    ensures r.Constant? ==> r.sum == Dot(m, a, b)
  {
    var sized := GetSize(Scalars(a), Scalars(b));
    if sized.SizesDiffer? { return InvalidParameter; }
    var sum := m.zero;
    for i := 0 to sized.size
      invariant sum == Dot(m, a[..i], b[..i])
    {
      DotStep(m, a, b, i);
      sum := (m.add)(sum, (m.mul)(a[i], b[i]));
    }
    assert a[..|a|] == a && b[..|b|] == b;
    r := Constant(sum);
  }

  /** What position j must hold. */
  function Product<E>(m: Arithmetic<E>, a: Vector<E>, b: Vector<E>, j: nat): E
    requires a.Size() == b.Size() && a.Has(j) && b.Has(j)
  {
    Dot(m, a.Column(j), b.Column(j))
  }

  /** The sum over the first i entries only. */
  ghost function Partial<E>(m: Arithmetic<E>, a: Vector<E>, b: Vector<E>, i: nat, j: nat): E
    requires i <= a.Size() == b.Size() && a.Has(j) && b.Has(j)
  {
    Dot(m, a.Column(j)[..i], b.Column(j)[..i])
  }

  lemma PartialSteps<E>(m: Arithmetic<E>, a: Vector<E>, b: Vector<E>, i: nat, j: nat)
    requires a.Size() == b.Size() && a.Has(j) && b.Has(j)
    ensures Partial(m, a, b, 0, j) == m.zero
    ensures i < a.Size() ==>
              Partial(m, a, b, i + 1, j) == (m.add)(Partial(m, a, b, i, j), (m.mul)(a.At(i, j), b.At(i, j)))
    ensures Partial(m, a, b, a.Size(), j) == Product(m, a, b, j)
  {
    if i < a.Size() { DotStep(m, a.Column(j), b.Column(j), i); }
    assert a.Column(j)[..a.Size()] == a.Column(j) && b.Column(j)[..a.Size()] == b.Column(j);
  }

  // ---------------------------------------------------------------- one call

  /** end positions of v are known, and unless that is the limit, not one more. */
  ghost predicate IsEnd<E>(v: Vector<E>, end: nat, limit: nat) {
    && end <= limit
    && (forall j: nat :: j < end ==> v.Has(j))
    && (end < limit ==> !v.Has(end))
  }

  method LowerEnd<E>(v: Vector<E>, limit: nat) returns (end: nat)
    ensures IsEnd(v, end, limit)
    ensures v.Scalars? ==> end == limit
    ensures v.Chunks? ==>
              && end <= limit && (forall i :: 0 <= i < |v.computed| ==> end <= |v.computed[i]|)
              && (end == limit || exists i :: 0 <= i < |v.computed| && end == |v.computed[i]|)
  {
    end := limit;
    if v.Chunks? {
      for i := 0 to |v.computed|
        invariant end <= limit
        invariant forall k :: 0 <= k < i ==> end <= |v.computed[k]|
        invariant end < limit ==> exists k :: 0 <= k < i && end == |v.computed[k]|
      {
        var cc := |v.computed[i]|;
        if cc < end { end := cc; }
      }
    }
  }

  /** How many positions of the product are known. */
  ghost predicate IsEndOfBoth<E>(a: Vector<E>, b: Vector<E>, end: nat, limit: nat) {
    && end <= limit
    && (forall j: nat :: j < end ==> a.Has(j) && b.Has(j))
    && (end < limit ==> !a.Has(end) || !b.Has(end))
  }

  lemma EndOfBoth<E>(a: Vector<E>, b: Vector<E>, first: nat, end: nat, limit: nat)
    requires IsEnd(a, first, limit) && IsEnd(b, end, first)
    ensures IsEndOfBoth(a, b, end, limit)
  {
  }

  /** The chunk after a call: it keeps what it has, and extends it to position end. */
  ghost predicate Extends<E>(m: Arithmetic<E>, a: Vector<E>, b: Vector<E>, done: seq<E>, next: seq<E>)
    requires a.Size() == b.Size()
  {
    && done <= next
    && forall j: nat :: |done| <= j < |next| ==> a.Has(j) && b.Has(j) && next[j] == Product(m, a, b, j)
  }

  /** One call of the operator: computes the positions that have become known, entry by entry. */
  method ComputeChunk<E>(m: Arithmetic<E>, dst: array<E>, computedCount: nat, a: Vector<E>, b: Vector<E>)
    returns (count: nat)
    requires a.Size() == b.Size() && computedCount <= dst.Length
    modifies dst
    ensures computedCount <= count <= dst.Length
    ensures Extends(m, a, b, old(dst[..computedCount]), dst[..count])
    ensures dst[count..] == old(dst[count..])
    ensures exists end: nat :: IsEndOfBoth(a, b, end, dst.Length) &&
              count == if end <= computedCount then computedCount else end
  {
    hide Dot, Product, Partial;
    var first := LowerEnd(a, dst.Length);
    var endCount := LowerEnd(b, first);
    EndOfBoth(a, b, first, endCount, dst.Length);
    if endCount <= computedCount { return computedCount; }
    ghost var was := dst[..];
    for j := computedCount to endCount
      invariant forall k: nat :: computedCount <= k < j ==> dst[k] == m.zero
      invariant forall k: nat :: k < dst.Length && !(computedCount <= k < j) ==> dst[k] == was[k]
    {
      dst[j] := m.zero;
    }
    forall k: nat | computedCount <= k < endCount { PartialSteps(m, a, b, 0, k); }
    for i := 0 to a.Size()
      invariant forall k: nat :: computedCount <= k < endCount ==> dst[k] == Partial(m, a, b, i, k)
      invariant forall k: nat :: k < dst.Length && !(computedCount <= k < endCount) ==> dst[k] == was[k]
    {
      for j := computedCount to endCount
        invariant forall k: nat :: computedCount <= k < j ==> dst[k] == Partial(m, a, b, i + 1, k)
        invariant forall k: nat :: j <= k < endCount ==> dst[k] == Partial(m, a, b, i, k)
        invariant forall k: nat :: k < dst.Length && !(computedCount <= k < endCount) ==> dst[k] == was[k]
      {
        PartialSteps(m, a, b, i, j);
        dst[j] := (m.add)(dst[j], (m.mul)(a.At(i, j), b.At(i, j)));
      }
    }
    forall k: nat | computedCount <= k < endCount { PartialSteps(m, a, b, 0, k); }
    count := endCount;
  }

  // ---------------------------------------------------------------- any schedule

  datatype Inputs<E> = Inputs(a: Vector<E>, b: Vector<E>)

  /** Each call sees the operands as they are then; chunks grow in between. */
  ghost predicate IsSchedule<E>(calls: seq<Inputs<E>>) {
    && (forall i :: 0 <= i < |calls| ==> calls[i].a.Size() == calls[i].b.Size())
    && (forall i, j :: 0 <= i <= j < |calls| ==> calls[i].a.GrowsInto(calls[j].a) && calls[i].b.GrowsInto(calls[j].b))
  }

  /** What ComputeChunk ensures of the finished part of the chunk. */
  ghost predicate IsCall<E>(m: Arithmetic<E>, input: Inputs<E>, done: seq<E>, next: seq<E>, limit: nat)
    requires input.a.Size() == input.b.Size()
  {
    && Extends(m, input.a, input.b, done, next)
    && exists end: nat :: IsEndOfBoth(input.a, input.b, end, limit) && |next| == if end <= |done| then |done| else end
  }

  /** The chunk holds the product at every position that is known, and nothing else. */
  ghost predicate IsComplete<E>(m: Arithmetic<E>, input: Inputs<E>, done: seq<E>, limit: nat)
    requires input.a.Size() == input.b.Size()
  {
    IsEndOfBoth(input.a, input.b, |done|, limit) && Extends(m, input.a, input.b, [], done)
  }

  /** results[k] is the chunk after k calls, as ComputeChunk ensures it. */
  ghost predicate IsRun<E>(m: Arithmetic<E>, calls: seq<Inputs<E>>, results: seq<seq<E>>, limit: nat)
    requires IsSchedule(calls)
  {
    && |results| == |calls| + 1 && results[0] == []
    && forall k :: 0 <= k < |calls| ==> IsCall(m, calls[k], results[k], results[k + 1], limit)
  }

  /** A position that is known stays so, with the same product. */
  lemma ProductIsStable<E>(m: Arithmetic<E>, was: Inputs<E>, now: Inputs<E>, j: nat)
    requires was.a.Size() == was.b.Size() && was.a.Has(j) && was.b.Has(j)
    requires was.a.GrowsInto(now.a) && was.b.GrowsInto(now.b)
    ensures now.a.Size() == now.b.Size() && now.a.Has(j) && now.b.Has(j)
    ensures Product(m, now.a, now.b, j) == Product(m, was.a, was.b, j)
  {
    assert was.a.Column(j) == now.a.Column(j);
    assert was.b.Column(j) == now.b.Column(j);
  }

  lemma FirstCall<E>(m: Arithmetic<E>, input: Inputs<E>, next: seq<E>, limit: nat)
    requires input.a.Size() == input.b.Size() && IsCall(m, input, [], next, limit)
    ensures IsComplete(m, input, next, limit)
  {
  }

  /** A call makes the chunk complete again after its operands have grown. */
  lemma NextCall<E>(m: Arithmetic<E>, was: Inputs<E>, now: Inputs<E>, done: seq<E>, next: seq<E>, limit: nat)
    requires was.a.Size() == was.b.Size() && was.a.GrowsInto(now.a) && was.b.GrowsInto(now.b)
    requires now.a.Size() == now.b.Size()
    requires IsComplete(m, was, done, limit) && IsCall(m, now, done, next, limit)
    ensures IsComplete(m, now, next, limit)
  {
    hide Product, Dot;
    forall j: nat | j < |done|
      ensures now.a.Has(j) && now.b.Has(j) && done[j] == Product(m, now.a, now.b, j)
    {
      ProductIsStable(m, was, now, j);
    }
    var end: nat :| IsEndOfBoth(now.a, now.b, end, limit) && |next| == if end <= |done| then |done| else end;
    assert end >= |done|;
  }

  /** After any schedule of calls the chunk holds the product of the last operands at every position known
      by then: neither the number of calls nor what each of them saw makes a difference. */
  lemma {:induction false} ScheduleIsIrrelevant<E>(m: Arithmetic<E>, calls: seq<Inputs<E>>, results: seq<seq<E>>,
                                                   limit: nat, k: nat)
    requires IsSchedule(calls) && IsRun(m, calls, results, limit) && k < |calls|
    ensures IsComplete(m, calls[k], results[k + 1], limit)
  {
    hide IsCall, IsComplete;
    assert IsCall(m, calls[k], results[k], results[k + 1], limit);
    if k > 0 {
      ScheduleIsIrrelevant(m, calls, results, limit, k - 1);
      NextCall(m, calls[k - 1], calls[k], results[k], results[k + 1], limit);
    } else {
      FirstCall(m, calls[0], results[1], limit);
    }
  }
}

/** The partial reductions of a chunk, and how they are numbered: src/series/type/lastnseries.h. */
module ReductionHeap {
  import opened Bits
  import opened Powers

  /** The elements from start up to end, 2^sizeLog2 of them. */
  datatype Range = Range(start: nat, end: nat, sizeLog2: nat)

  /** A range that is reduced: at least two elements, beginning at a multiple of its size. */
  ghost predicate IsReduced(r: Range, sizeLog2: nat) {
    && 1 <= r.sizeLog2 && 0 < r.end <= Pow2(sizeLog2)
    && r.sizeLog2 <= LsbIndex(r.end)
    && r.start + Pow2(r.sizeLog2) == r.end
  }

  /** range2index */
  function Range2Index(r: Range): int { r.end - Popcount(r.start) - 2 }

  // ---------------------------------------------------------------- counting bits

  /** Subtracting a power of two that divides e turns a zero run into ones. */
  lemma {:induction false} PopcountMinus(e: nat, s: nat)
    requires e > 0 && s <= LsbIndex(e)
    ensures e >= Pow2(s)
    ensures Popcount(e - Pow2(s)) == Popcount(e) - 1 + LsbIndex(e) - s
  {
    hide Popcount, LsbIndex, Pow2;
    LastBit(e);
    Pow2Step(s);
    if s > 0 {
      PopcountMinus(e / 2, s - 1);
      PopcountDouble(e / 2 - Pow2(s - 1));
      assert e - Pow2(s) == 2 * (e / 2 - Pow2(s - 1));
    } else if e % 2 == 1 {
      PopcountDouble(e / 2);
      assert e - 1 == 2 * (e / 2);
    } else {
      PopcountMinus(e / 2, 0);
      PopcountDouble(e / 2 - 1);
      assert e - 1 == 2 * (e / 2 - 1) + 1;
    }
  }

  lemma Pow2Step(s: nat)
    ensures Pow2(0) == 1 && (s > 0 ==> Pow2(s) == 2 * Pow2(s - 1))
  {
  }

  lemma LastBit(e: Positive)
    ensures Popcount(e) == Popcount(e / 2) + e % 2
    ensures LsbIndex(e) == if e % 2 == 1 then 0 else 1 + LsbIndex(e / 2)
  {
  }

  lemma PopcountDouble(w: nat)
    ensures Popcount(2 * w) == Popcount(w) && Popcount(2 * w + 1) == Popcount(w) + 1
  {
  }

  /** How many ranges end before e. */
  function EndingBefore(e: Positive): nat
  {
    if e == 1 then 0 else EndingBefore(e - 1) + LsbIndex(e - 1)
  }

  /** The zero bits at the end of 1 .. e - 1 are as many as e - 1 without its digit sum (Legendre). */
  lemma {:induction false} EndingBeforeIs(e: Positive)
    ensures EndingBefore(e) == e - 1 - Popcount(e - 1)
  {
    hide Popcount, LsbIndex;
    if e == 1 {
      assert Popcount(0) == 0 by { NoBits(); }
    } else {
      EndingBeforeIs(e - 1);
      PopcountMinus(e - 1, 0);
    }
  }

  lemma NoBits()
    ensures Popcount(0) == 0 && Pow2(0) == 1
  {
  }

  lemma {:induction false} LsbOfPow2(k: nat)
    ensures LsbIndex(Pow2(k)) == k && Popcount(Pow2(k)) == 1
  {
    if k > 0 {
      LsbOfPow2(k - 1);
      PopcountDouble(Pow2(k - 1));
    }
  }

  /** Of the ranges that end at e, the one of size 2^s comes s-th. */
  lemma IndexIs(r: Range)
    requires r.end > 0 && 1 <= r.sizeLog2 <= LsbIndex(r.end) && r.start + Pow2(r.sizeLog2) == r.end
    ensures Range2Index(r) == EndingBefore(r.end) + r.sizeLog2 - 1
  {
    hide Popcount, LsbIndex, EndingBefore;
    PopcountMinus(r.end, r.sizeLog2);
    PopcountMinus(r.end, 0);
    EndingBeforeIs(r.end);
    assert Pow2(0) == 1;
  }

  lemma {:induction false} EndingBeforeGrows(a: nat, b: nat)
    requires 0 < a <= b
    ensures EndingBefore(a) <= EndingBefore(b)
  {
    if a < b { EndingBeforeGrows(a, b - 1); }
  }

  // ---------------------------------------------------------------- the table

  /** The first entries of the table are numbered as range2index says. */
  ghost predicate Numbered(ranges: seq<Range>, sizeLog2: nat) {
    forall k: nat :: k < |ranges| ==> IsReduced(ranges[k], sizeLog2) && Range2Index(ranges[k]) == k
  }

  method BuildRanges(sizeLog2: nat) returns (ranges: seq<Range>)
    ensures |ranges| == Pow2(sizeLog2) - 1 && Numbered(ranges, sizeLog2)
  {
    hide Popcount, LsbIndex, EndingBefore;
    ranges := [];
    var size := Pow2(sizeLog2);
    NoneEnding();
    for i := 0 to size
      invariant |ranges| == EndingBefore(i + 1) && Numbered(ranges, sizeLog2)
    {
      var end := i + 1;
      var j: nat := 0;
      EndingNext(end);
      LowestBit(end, j);
      while And(end, Shl(1, j)) == 0
        invariant j <= LsbIndex(end) && |ranges| == EndingBefore(end) + j
        invariant And(end, Shl(1, j)) == 0 <==> j < LsbIndex(end)
        invariant Numbered(ranges, sizeLog2)
        decreases LsbIndex(end) - j
      {
        PopcountMinus(end, j + 1);
        var range := Range(end - Pow2(j + 1), end, j + 1);
        IndexIs(range);
        ranges := ranges + [range];
        j := j + 1;
        if j <= LsbIndex(end) { LowestBit(end, j); }
      }
    }
    EndingBeforeIs(size + 1);
    LsbOfPow2(sizeLog2);
  }

  lemma NoneEnding()
    ensures EndingBefore(1) == 0
  {
  }

  lemma EndingNext(e: Positive)
    ensures EndingBefore(e + 1) == EndingBefore(e) + LsbIndex(e)
  {
  }

  lemma LowestBit(e: nat, j: nat)
    requires e > 0 && j <= LsbIndex(e)
    ensures And(e, Shl(1, j)) == 0 <==> j < LsbIndex(e)
  {
    LsbBit(e, j);
    OneBit(j, j);
    AndBit(e, Shl(1, j), j);
    if j < LsbIndex(e) {
      forall i: nat
        ensures !Bit(And(e, Shl(1, j)), i)
      {
        AndBit(e, Shl(1, j), i);
        OneBit(j, i);
      }
      var w := And(e, Shl(1, j));
      if w > 0 { LsbBit(w, 0); }
    } else {
      ZeroBits(j);
    }
  }

  /** index2range and range2index are inverse to each other: every reduced range has its place. */
  lemma TableIsComplete(ranges: seq<Range>, sizeLog2: nat, r: Range)
    requires |ranges| == Pow2(sizeLog2) - 1 && Numbered(ranges, sizeLog2) && IsReduced(r, sizeLog2)
    ensures 0 <= Range2Index(r) < |ranges| && ranges[Range2Index(r)] == r
  {
    IndexIs(r);
    EndingBeforeGrows(r.end + 1, Pow2(sizeLog2) + 1);
    EndingBeforeIs(Pow2(sizeLog2) + 1);
    LsbOfPow2(sizeLog2);
    var k := Range2Index(r);
    SamePlace(ranges[k], r);
  }

  lemma SamePlace(a: Range, b: Range)
    requires a.end > 0 && 1 <= a.sizeLog2 <= LsbIndex(a.end) && a.start + Pow2(a.sizeLog2) == a.end
    requires b.end > 0 && 1 <= b.sizeLog2 <= LsbIndex(b.end) && b.start + Pow2(b.sizeLog2) == b.end
    requires Range2Index(a) == Range2Index(b)
    ensures a == b
  {
    IndexIs(a);
    IndexIs(b);
    if a.end < b.end {
      EndingBeforeGrows(a.end + 1, b.end);
    } else if b.end < a.end {
      EndingBeforeGrows(b.end + 1, a.end);
    }
  }

  /** The halves of a range come right before it, and half its size before it. */
  lemma HalvesAt(r: Range)
    requires r.end > 0 && 2 <= r.sizeLog2 <= LsbIndex(r.end) && r.start + Pow2(r.sizeLog2) == r.end
    ensures var h := Pow2(r.sizeLog2 - 1);
            var left, right := Range(r.start, r.start + h, r.sizeLog2 - 1), Range(r.start + h, r.end, r.sizeLog2 - 1);
            && left.end > 0 && left.sizeLog2 <= LsbIndex(left.end) && right.sizeLog2 <= LsbIndex(right.end)
            && Range2Index(left) == Range2Index(r) - h && Range2Index(right) == Range2Index(r) - 1
  {
    hide Popcount, LsbIndex, Pow2, EndingBefore;
    var h := Pow2(r.sizeLog2 - 1);
    var right := Range(r.start + h, r.end, r.sizeLog2 - 1);
    Pow2Step(r.sizeLog2);
    IndexIs(r);
    IndexIs(right);
    MiddleLsb(r.end, r.sizeLog2 - 1);
  }

  /** e - 2^s, for a 2^s that divides e more than once, has its lowest bit at s. */
  lemma {:induction false} MiddleLsb(e: nat, s: nat)
    requires e > 0 && s < LsbIndex(e)
    ensures e > Pow2(s) && LsbIndex(e - Pow2(s)) == s
  {
    if s > 0 {
      MiddleLsb(e / 2, s - 1);
      assert (e - Pow2(s)) / 2 == e / 2 - Pow2(s - 1);
    } else {
      assert e % 2 == 0 && (e - 1) % 2 == 1;
    }
  }

  // ---------------------------------------------------------------- the reductions

  /** The reduction of a range, halved again and again. */
  function Reduced<E>(op: (E, E) -> E, data: seq<E>, start: nat, sizeLog2: nat): E
    requires start + Pow2(sizeLog2) <= |data|
    decreases sizeLog2
  {
    if sizeLog2 == 0 then data[start]
    else op(Reduced(op, data, start, sizeLog2 - 1), Reduced(op, data, start + Pow2(sizeLog2 - 1), sizeLog2 - 1))
  }

  /** The elements combined from left to right. */
  function Fold<E>(op: (E, E) -> E, s: seq<E>): E
    requires |s| > 0
  {
    if |s| == 1 then s[0] else op(Fold(op, s[..|s| - 1]), s[|s| - 1])
  }

  ghost predicate Associative<E(!new)>(op: (E, E) -> E) {
    forall a, b, c :: op(op(a, b), c) == op(a, op(b, c))
  }

  lemma {:induction false} FoldAppend<E(!new)>(op: (E, E) -> E, s: seq<E>, t: seq<E>)
    requires Associative(op) && |s| > 0 && |t| > 0
    ensures Fold(op, s + t) == op(Fold(op, s), Fold(op, t))
  {
    var k := |t| - 1;
    if k == 0 {
      assert (s + t)[..|s|] == s;
    } else {
      FoldAppend(op, s, t[..k]);
      assert (s + t)[..|s| + k] == s + t[..k];
    }
  }

  lemma FoldOne<E>(op: (E, E) -> E, s: seq<E>)
    requires |s| == 1
    ensures Fold(op, s) == s[0]
  {
  }

  /** For an associative operator the halving makes no difference. */
  lemma {:induction false} ReducedIsFold<E(!new)>(op: (E, E) -> E, data: seq<E>, start: nat, sizeLog2: nat)
    requires Associative(op) && start + Pow2(sizeLog2) <= |data|
    ensures Reduced(op, data, start, sizeLog2) == Fold(op, data[start..start + Pow2(sizeLog2)])
    decreases sizeLog2
  {
    hide Fold;
    if sizeLog2 == 0 {
      FoldOne(op, data[start..start + 1]);
    } else {
      var h := Pow2(sizeLog2 - 1);
      ReducedIsFold(op, data, start, sizeLog2 - 1);
      ReducedIsFold(op, data, start + h, sizeLog2 - 1);
      FoldAppend(op, data[start..start + h], data[start + h..start + h + h]);
      assert data[start..start + h] + data[start + h..start + h + h] == data[start..start + Pow2(sizeLog2)];
    }
  }

  /** Position k of the heap. */
  ghost predicate Holds<E>(op: (E, E) -> E, data: seq<E>, r: Range, value: E) {
    r.start + Pow2(r.sizeLog2) == r.end <= |data| && value == Reduced(op, data, r.start, r.sizeLog2)
  }

  /** The loop does not check for the end of the table. */
  datatype Outcome = Computed(count: nat) | PastTable

  /** Computes the reductions of all ranges whose elements are known. Once the whole chunk is known, it
      looks for a range after the last one. */
  method Compute<E>(op: (E, E) -> E, data: seq<E>, ranges: seq<Range>, ghost sizeLog2: nat, dst: array<E>,
                    computedCount: nat)
    returns (outcome: Outcome)
    requires sizeLog2 > 0 && |ranges| == Pow2(sizeLog2) - 1 <= dst.Length && Numbered(ranges, sizeLog2)
    requires |data| <= Pow2(sizeLog2) && computedCount <= |ranges|
    requires forall k: nat :: k < computedCount ==> Holds(op, data, ranges[k], dst[k])
    modifies dst
    ensures outcome == PastTable <==> |data| == Pow2(sizeLog2)
    ensures var count := if outcome.Computed? then outcome.count else |ranges|;
            && computedCount <= count <= |ranges|
            && (forall k: nat :: k < count ==> Holds(op, data, ranges[k], dst[k]))
            && (forall k: nat :: count <= k < |ranges| ==> ranges[k].end > |data|)
            && (forall k: nat :: k < dst.Length && !(computedCount <= k < count) ==> dst[k] == old(dst[k]))
  {
    hide Reduced, Numbered, Range2Index, IsReduced;
    var count := computedCount;
    while true
      invariant computedCount <= count <= |ranges|
      invariant forall k: nat :: k < count ==> Holds(op, data, ranges[k], dst[k])
      invariant forall k: nat :: k < dst.Length && !(computedCount <= k < count) ==> dst[k] == old(dst[k])
      decreases |ranges| - count
    {
      if count == |ranges| {
        LastEnds(op, data, ranges, sizeLog2, dst[count - 1]);
        return PastTable;
      }
      var range := ranges[count];
      EndsGrow(ranges, sizeLog2, count);
      RangeFacts(ranges, sizeLog2, count);
      if range.end > |data| {
        break;
      }
      if range.sizeLog2 == 1 {
        Pair(op, data, range.start);
        dst[count] := op(data[range.start], data[range.start + 1]);
      } else {
        HalvesAre(op, data, ranges, sizeLog2, count, dst[..]);
        dst[count] := op(dst[count - Pow2(range.sizeLog2 - 1)], dst[count - 1]);
      }
      count := count + 1;
    }
    outcome := Computed(count);
  }

  lemma Pair<E>(op: (E, E) -> E, data: seq<E>, start: nat)
    requires start + 2 <= |data|
    ensures Pow2(1) == 2 && Reduced(op, data, start, 1) == op(data[start], data[start + 1])
  {
    assert Pow2(0) == 1;
  }

  lemma RangeFacts(ranges: seq<Range>, sizeLog2: nat, k: nat)
    requires Numbered(ranges, sizeLog2) && k < |ranges|
    ensures ranges[k].sizeLog2 >= 1 && ranges[k].start + Pow2(ranges[k].sizeLog2) == ranges[k].end <= Pow2(sizeLog2)
    ensures Pow2(1) == 2
  {
    assert Pow2(0) == 1;
  }

  /** The ends are in increasing order. */
  lemma EndsGrow(ranges: seq<Range>, sizeLog2: nat, k: nat)
    requires Numbered(ranges, sizeLog2) && k < |ranges|
    ensures forall l: nat :: k <= l < |ranges| ==> ranges[k].end <= ranges[l].end
  {
    forall l: nat | k <= l < |ranges|
      ensures ranges[k].end <= ranges[l].end
    {
      IndexIs(ranges[k]);
      IndexIs(ranges[l]);
      if ranges[l].end < ranges[k].end { EndingBeforeGrows(ranges[l].end + 1, ranges[k].end); }
    }
  }

  /** The last range is the whole chunk. */
  lemma LastEnds<E>(op: (E, E) -> E, data: seq<E>, ranges: seq<Range>, sizeLog2: nat, value: E)
    requires sizeLog2 > 0 && |ranges| == Pow2(sizeLog2) - 1 && Numbered(ranges, sizeLog2)
    requires |data| <= Pow2(sizeLog2) && |ranges| > 0 && Holds(op, data, ranges[|ranges| - 1], value)
    ensures |data| == Pow2(sizeLog2)
  {
    var whole := Range(0, Pow2(sizeLog2), sizeLog2);
    LsbOfPow2(sizeLog2);
    TableIsComplete(ranges, sizeLog2, whole);
  }

  lemma HalvesAre<E>(op: (E, E) -> E, data: seq<E>, ranges: seq<Range>, sizeLog2: nat, k: nat, dst: seq<E>)
    requires |ranges| == Pow2(sizeLog2) - 1 <= |dst| && Numbered(ranges, sizeLog2) && k < |ranges|
    requires ranges[k].sizeLog2 > 1 && ranges[k].end <= |data|
    requires forall l: nat :: l < k ==> Holds(op, data, ranges[l], dst[l])
    ensures var h := Pow2(ranges[k].sizeLog2 - 1);
            0 < h <= k && Holds(op, data, ranges[k], op(dst[k - h], dst[k - 1]))
  {
    var r := ranges[k];
    var h := Pow2(r.sizeLog2 - 1);
    var left, right := Range(r.start, r.start + h, r.sizeLog2 - 1), Range(r.start + h, r.end, r.sizeLog2 - 1);
    hide Numbered, IsReduced, Range2Index, Pow2, Holds;
    NumberedAt(ranges, sizeLog2, k);
    HalvesReduced(r, sizeLog2);
    TableIsComplete(ranges, sizeLog2, left);
    TableIsComplete(ranges, sizeLog2, right);
    assert Holds(op, data, ranges[k - h], dst[k - h]) && Holds(op, data, ranges[k - 1], dst[k - 1]);
    HalvesHold(op, data, left, right, r, dst[k - h], dst[k - 1]);
  }

  lemma NumberedAt(ranges: seq<Range>, sizeLog2: nat, k: nat)
    requires Numbered(ranges, sizeLog2) && k < |ranges|
    ensures IsReduced(ranges[k], sizeLog2) && Range2Index(ranges[k]) == k
  {
  }

  lemma HalvesReduced(r: Range, sizeLog2: nat)
    requires IsReduced(r, sizeLog2) && r.sizeLog2 > 1
    ensures var h := Pow2(r.sizeLog2 - 1);
            var left, right := Range(r.start, r.start + h, r.sizeLog2 - 1), Range(r.start + h, r.end, r.sizeLog2 - 1);
            && IsReduced(left, sizeLog2) && IsReduced(right, sizeLog2)
            && r.start + Pow2(r.sizeLog2) == r.end == r.start + h + h && h > 0
            && Range2Index(left) == Range2Index(r) - h && Range2Index(right) == Range2Index(r) - 1
  {
    HalvesAt(r);
  }

  lemma HalvesHold<E>(op: (E, E) -> E, data: seq<E>, left: Range, right: Range, r: Range, a: E, b: E)
    requires r.sizeLog2 > 0 && r.start + Pow2(r.sizeLog2) == r.end
    requires left.start == r.start && left.end == right.start && right.end == r.end
    requires left.sizeLog2 == right.sizeLog2 == r.sizeLog2 - 1
    requires Holds(op, data, left, a) && Holds(op, data, right, b)
    ensures Holds(op, data, r, op(a, b))
  {
  }
}
