/** The streaming convolution of src/series/type/convseries.h with the ZpTs1 step plan.

    A chunk of C = 2^L outputs is filled from several products of zero-padded blocks: one product
    for each earlier chunk, then, as inputs arrive, "diagonal" and "triangle" products whose sizes
    follow the lowest set bit of the number of finished outputs.  The products are exact circular
    convolutions here.  The main results say that every output, under every arrival schedule, is
    the plain convolution sum. */
module Convolution {
  import opened Powers
  import Bits

  /** A kernel has two samples at least. */
  type KernelSize = n: nat | n > 1 witness 2

  // ----- Powers of two and the two bit scans of withStepSpec -----

  /** Index of the highest set bit: 31 - clz(x). */
  function FloorLog2(x: Positive): (s: nat)
    ensures Pow2(s) <= x < 2 * Pow2(s)
  {
    if x == 1 then 0 else 1 + FloorLog2(x / 2)
  }

  function LowBit(x: Positive): (b: nat)
    ensures 1 <= b <= x
  {
    Pow2(LsbIndex(x))
  }

  lemma LowBitHalves(x: Positive)
    ensures x % 2 == 1 ==> LowBit(x) == 1
    ensures x % 2 == 0 ==> LowBit(x) == 2 * LowBit(x / 2)
  {
  }

  /** Adding a power of two no larger than the lowest bit makes it the lowest bit, or carries. */
  lemma {:induction false} LowBitAfterStep(c: nat, s: nat)
    requires c > 0 ==> Pow2(s) < LowBit(c)
    ensures LowBit(c + Pow2(s)) == Pow2(s)
  {
    if s > 0 {
      LowBitHalves(c + Pow2(s));
      if c > 0 { LowBitHalves(c); }
      LowBitAfterStep(c / 2, s - 1);
      assert c % 2 == 0;
      assert (c + Pow2(s)) / 2 == c / 2 + Pow2(s - 1);
    } else if c > 0 {
      LowBitHalves(c);
      LowBitHalves(c + 1);
    }
  }

  /** Stripping the lowest bit: the rest either still ends at the same carry point, or is the base
      of the carry. */
  lemma {:induction false} CarryChain(c: Positive)
    ensures SameCarry(c - LowBit(c), c + LowBit(c))
  {
    LowBitHalves(c);
    if c % 2 == 1 {
      CarryChainOdd(c);
    } else {
      CarryChain(c / 2);
      var d, e := c - LowBit(c), c + LowBit(c);
      assert d / 2 == c / 2 - LowBit(c / 2) && e / 2 == c / 2 + LowBit(c / 2);
      LowBitHalves(e);
      if d > 0 { LowBitHalves(d); }
    }
  }

  ghost predicate SameCarry(d: nat, e: Positive)
  {
    (d > 0 && d + LowBit(d) == e) || d == e - LowBit(e)
  }

  lemma CarryChainOdd(c: nat)
    requires c % 2 == 1
    ensures SameCarry(c - 1, c + 1)
  {
    var h := c / 2;
    assert (c + 1) / 2 == h + 1 && (c - 1) / 2 == h;
    LowBitHalves(c + 1);
    LowBitHalves(h + 1);
    if h > 0 {
      LowBitHalves(c - 1);
      LowBitHalves(h);
    }
  }

  /** The block of outputs a diagonal writes never leaves the chunk. */
  lemma {:induction false} BlockFits(c: nat, l: nat)
    requires 0 < c < Pow2(l)
    ensures c + LowBit(c) <= Pow2(l)
    ensures LsbIndex(c) < l
  {
    LowBitHalves(c);
    if c % 2 == 0 {
      BlockFits(c / 2, l - 1);
    }
  }

  // ----- Convolution sums -----

  type Samples = nat -> real

  /** A series read at a signed index; before its start it reads as zero. */
  function At(x: Samples, k: int): real { if k < 0 then 0.0 else x(k) }

  /** The part of output n contributed by the inputs lo <= t < hi. */
  function Taps(kern: Samples, ts: Samples, n: int, lo: nat, hi: nat): real
    decreases hi
  {
    if hi <= lo then 0.0 else Taps(kern, ts, n, lo, hi - 1) + At(kern, n - (hi - 1)) * ts(hi - 1)
  }

  lemma {:induction false} TapsSplit(kern: Samples, ts: Samples, n: int, lo: nat, mid: nat, hi: nat)
    requires lo <= mid <= hi
    ensures Taps(kern, ts, n, lo, hi) == Taps(kern, ts, n, lo, mid) + Taps(kern, ts, n, mid, hi)
    decreases hi
  {
    if mid < hi { TapsSplit(kern, ts, n, lo, mid, hi - 1); }
  }

  lemma {:induction false} TapsVanish(kern: Samples, ts: Samples, n: int, lo: nat, hi: nat)
    requires forall k :: n - hi < k <= n - lo ==> At(kern, k) == 0.0
    ensures Taps(kern, ts, n, lo, hi) == 0.0
    decreases hi
  {
    if lo < hi { TapsVanish(kern, ts, n, lo, hi - 1); }
  }

  /** Inputs at or after n + 1 meet the kernel at negative indices. */
  lemma TapsCausal(kern: Samples, ts: Samples, n: nat, lo: nat, hi: nat)
    requires lo <= n < hi
    ensures Taps(kern, ts, n, lo, hi) == Taps(kern, ts, n, lo, n + 1)
  {
    TapsSplit(kern, ts, n, lo, n + 1, hi);
    TapsVanish(kern, ts, n, n + 1, hi);
  }

  // ----- Transforms -----

  /** divFloor of fftseries.h: C division truncates, so the negative case is spelled out. */
  function DivFloor(a: int, b: int): (q: int)
    requires b > 0
    ensures q * b <= a < q * b + b
  {
    if a >= 0 then a / b else -((b - a - 1) / b)
  }

  /** The zero-padded block a transform is taken of: `copy` samples from `begin` on, then zeros. */
  function Block(src: Samples, begin: int, copy: nat, size: nat): (b: seq<real>)
    ensures |b| == size
    ensures forall i :: 0 <= i < size ==> b[i] == if i < copy then At(src, begin + i) else 0.0
  {
    seq(size, i => if 0 <= i < copy then At(src, begin + i) else 0.0)
  }

  /** FftSeries::doFft: fills the scratch buffer from a left and a right part around the split at
      `center`; a part that lies before the series is left out and zeroed. */
  method FillAround(src: Samples, center: int, begin: int, copySize: nat, p: nat) returns (scratch: array<real>)
    requires 0 < copySize && 0 - p <= begin < 0 && begin + copySize <= p
    requires (center >= p || center <= 0) && (center >= 0 || center + p <= 0)
    ensures fresh(scratch)
    ensures scratch[..] == Block(src, center + begin, copySize, 2 * p)
  {
    var end := begin + copySize;
    var dstSplit := 0 - begin;
    scratch := new real[2 * p];
    ghost var want := Block(src, center + begin, copySize, 2 * p);

    var i := 0;
    if center >= p {
      var size := if dstSplit <= copySize then dstSplit else copySize;
      while i < size
        invariant 0 <= i <= size
        invariant forall j :: 0 <= j < i ==> scratch[j] == want[j]
      {
        scratch[i] := src(center + begin + i);
        i := i + 1;
      }
    }
    while i < dstSplit
      invariant 0 <= i <= dstSplit
      invariant center >= p ==> i >= dstSplit || i >= copySize
      invariant forall j :: 0 <= j < i ==> scratch[j] == want[j]
    {
      assert want[i] == 0.0;
      scratch[i] := 0.0;
      i := i + 1;
    }
    if end > 0 && center >= 0 {
      while i < dstSplit + end
        invariant dstSplit <= i <= dstSplit + end
        invariant forall j :: 0 <= j < i ==> scratch[j] == want[j]
      {
        scratch[i] := src(center + (i - dstSplit));
        i := i + 1;
      }
    }
    while i < 2 * p
      invariant dstSplit <= i <= 2 * p
      invariant end > 0 && center >= 0 ==> i >= dstSplit + end
      invariant forall j :: 0 <= j < i ==> scratch[j] == want[j]
    {
      assert want[i] == 0.0;
      scratch[i] := 0.0;
      i := i + 1;
    }
  }

  /** The block of one FftSeries chunk: `p` is the partition size; the requires are the static
      assertions of FftSeries, and dstOffset is 0 as in every step spec. */
  method FillBlock(src: Samples, chunkIndex: nat, p: nat, srcOffset: int, copySize: nat)
    returns (scratch: array<real>)
    requires p > 0 && 0 < copySize
    requires srcOffset + copySize - SplitOffset(srcOffset, p) <= p
    ensures fresh(scratch)
    ensures scratch[..] == Block(src, chunkIndex * p + srcOffset, copySize, 2 * p)
  {
    var split := SplitOffset(srcOffset, p);
    SplitAligned(chunkIndex, srcOffset, p);
    scratch := FillAround(src, chunkIndex * p + split, srcOffset - split, copySize, p);
    assert chunkIndex * p + split + (srcOffset - split) == chunkIndex * p + srcOffset;
  }

  function SplitOffset(srcOffset: int, p: Positive): int
  {
    (DivFloor(srcOffset, p) + 1) * p
  }

  /** The split follows the first copied sample by at most a partition, and is itself at least one
      partition into the series or not inside it at all. */
  lemma SplitAligned(chunkIndex: nat, srcOffset: int, p: Positive)
    ensures 0 - p <= srcOffset - SplitOffset(srcOffset, p) < 0
    ensures var center := chunkIndex * p + SplitOffset(srcOffset, p);
            (center >= p || center <= 0) && (center >= 0 || center + p <= 0)
  {
    var m := chunkIndex + DivFloor(srcOffset, p) + 1;
    assert chunkIndex * p + SplitOffset(srcOffset, p) == m * p;
    Multiples(m, p);
    assert SplitOffset(srcOffset, p) == DivFloor(srcOffset, p) * p + p;
  }

  lemma Multiples(m: int, p: nat)
    ensures (m >= 1 ==> m * p >= p) && (m <= -1 ==> m * p + p <= 0)
  {
    if m >= 1 {
      assert m * p == (m - 1) * p + p;
    } else {
      assert m * p + p == 0 - (0 - m - 1) * p;
    }
  }

  /** pos - u modulo n, for two positions of a buffer of length n. */
  function WrappedDifference(pos: nat, u: nat, n: nat): (d: nat)
    requires pos < n && u < n
    ensures d < n && (d == pos - u || d == pos - u + n)
  {
    if u <= pos then pos - u else pos - u + n
  }

  /** Position pos of the circular convolution of a and b, restricted to the first m entries of b:
      what transform, pointwise product and inverse transform compute. */
  function Circular(a: seq<real>, b: seq<real>, pos: nat, m: nat): real
    requires pos < |a| == |b| && m <= |b|
  {
    if m == 0 then 0.0
    else Circular(a, b, pos, m - 1) + a[WrappedDifference(pos, m - 1, |a|)] * b[m - 1]
  }

  /** One term of the upper half: the first s entries meet the kernel in order, the padding adds 0. */
  lemma TermIsLinear(kern: Samples, ts: Samples, s: nat, o: int, q: nat, i: nat, u: nat)
    requires i < s && u < 2 * s
    ensures Block(kern, o, 2 * s, 2 * s)[WrappedDifference(s + i, u, 2 * s)] * Block(ts, q, s, 2 * s)[u]
         == if u < s then At(kern, o + q + s + i - (q + u)) * ts(q + u) else 0.0
  {
  }

  /** The upper half of a product of a full kernel block with a half-empty input block has no
      wrap-around: it is the plain sum over that input block. */
  lemma {:induction false} UpperHalfIsLinear(a: seq<real>, b: seq<real>, kern: Samples, ts: Samples, s: nat, o: int,
                                             q: nat, i: nat, m: nat)
    requires i < s && m <= 2 * s
    requires a == Block(kern, o, 2 * s, 2 * s) && b == Block(ts, q, s, 2 * s)
    ensures Circular(a, b, s + i, m) == Taps(kern, ts, o + q + s + i, q, q + if m <= s then m else s)
  {
    hide Block, At;
    if m > 0 {
      UpperHalfIsLinear(a, b, kern, ts, s, o, q, i, m - 1);
      TermIsLinear(kern, ts, s, o, q, i, m - 1);
    }
  }

  lemma SplitOfHalf(s: nat)
    requires s > 0
    ensures SplitOffset(0 - s, s) == 0 && SplitOffset(0, s) == s
  {
    var q, q' := DivFloor(0 - s, s), DivFloor(0, s);
    assert (q + 1) * s == q * s + s;
    Multiples(q + 1, s);
    Multiples(q', s);
  }

  // ----- One product added into the destination -----

  function Zeroed(s: seq<real>, at: nat, len: nat): (r: seq<real>)
    ensures |r| == |s|
    ensures forall j :: 0 <= j < |s| ==> r[j] == if at <= j < at + len then 0.0 else s[j]
  {
    seq(|s|, j requires 0 <= j < |s| => if at <= j < at + len then 0.0 else s[j])
  }

  /** now is was with one product added: outputs at .. at + s gained the inputs lo .. hi.  Outputs and
      inputs are counted from position base of the series. */
  ghost predicate Added(now: seq<real>, was: seq<real>, kern: Samples, ts: Samples, base: nat, at: nat, s: nat,
                        lo: int, hi: int)
    requires 0 <= base + lo <= base + hi
  {
    && |now| == |was|
    && (forall j :: 0 <= j < |was| && !(at <= j < at + s) ==> now[j] == was[j])
    && (forall j :: at <= j < at + s && j < |was| ==>
          now[j] == was[j] + Taps(kern, ts, base + j, base + lo, base + hi))
  }

  /** Both step specs and the prior-chunk product have this shape: partition kernelPart of the
      kernel (reaching one partition back) times input partition tsPart, whose first sample is
      base + lo; the upper half of the product goes to dst[at .. at + s], where dst[0] is output number
      base. */
  method AddProduct(kern: Samples, ts: Samples, kernelPart: nat, tsPart: nat, s: nat, dst: array<real>, at: nat,
                    assign: bool, ghost base: nat, ghost lo: int)
    requires 0 < s && at + s <= dst.Length
    requires base + lo == tsPart * s && base + at == kernelPart * s + tsPart * s
    modifies dst
    ensures Added(dst[..], if assign then Zeroed(old(dst[..]), at, s) else old(dst[..]), kern, ts, base, at, s,
                  lo, lo + s)
  {
    hide Taps, Block;
    ghost var start, first := base + lo, base + at;
    SplitOfHalf(s);
    var kernelScratch := FillBlock(kern, kernelPart, s, 0 - s, 2 * s);
    var tsScratch := FillBlock(ts, tsPart, s, 0, s);
    ghost var o := kernelPart * s - s;
    var i := 0;
    while i < s
      invariant 0 <= i <= s
      invariant kernelScratch[..] == Block(kern, o, 2 * s, 2 * s)
      invariant tsScratch[..] == Block(ts, start, s, 2 * s)
      invariant forall j :: 0 <= j < dst.Length && !(at <= j < at + i) ==> dst[j] == old(dst[j])
      invariant forall j :: at <= j < at + i ==>
                  dst[j] == (if assign then 0.0 else old(dst[j])) + Taps(kern, ts, first + (j - at), start, start + s)
    {
      UpperHalfIsLinear(kernelScratch[..], tsScratch[..], kern, ts, s, o, start, i, 2 * s);
      var product := Circular(kernelScratch[..], tsScratch[..], s + i, 2 * s);
      dst[at + i] := if assign then product else dst[at + i] + product;
      i := i + 1;
    }
  }

  // ----- What is still missing from an unfinished output -----

  /** With c outputs finished and the diagonal at c done, the inputs of this chunk that output n has
      already received are 0 .. Covered(c, n). */
  function Covered(c: nat, n: nat): (k: nat)
    ensures k <= c
  {
    if c == 0 then 0 else if n < c + LowBit(c) then c else Covered(c - LowBit(c), n)
  }

  /** The same count before the diagonal at c. */
  function Before(c: nat, n: nat): (k: nat)
    ensures k <= c
  {
    if c == 0 then 0 else Covered(c - LowBit(c), n)
  }

  /** Inputs of this chunk added to output n when c outputs are finished. */
  function Reached(c: nat, n: nat): (k: nat)
    ensures k <= n + 1
  {
    if n < c then n + 1 else Before(c, n)
  }

  /** The outputs in the block at c all stopped exactly where the diagonal's input block starts. */
  lemma {:induction false} DiagonalFits(c: nat, n: nat)
    requires 0 < c <= n < c + LowBit(c)
    ensures Before(c, n) == c - LowBit(c)
  {
    var d := c - LowBit(c);
    if d > 0 {
      CarryChain(c);
      LowBitGrows(c);
    }
  }

  lemma {:induction false} LowBitGrows(c: nat)
    requires c > 0 && c > LowBit(c)
    ensures LowBit(c - LowBit(c)) >= 2 * LowBit(c)
  {
    LowBitHalves(c);
    LowBitHalves(c - LowBit(c));
    if c % 2 == 0 {
      LowBitGrows(c / 2);
      assert (c - LowBit(c)) / 2 == c / 2 - LowBit(c / 2);
    }
  }

  lemma {:induction false} CarryKeepsCovered(c: nat, n: nat)
    requires 0 < c && c + LowBit(c) <= n
    ensures Before(c + LowBit(c), n) == Covered(c, n)
  {
    CarryChain(c);
    var d, e := c - LowBit(c), c + LowBit(c);
    if d != e - LowBit(e) {
      CarryKeepsCovered(d, n);
    }
  }

  lemma NoCarryKeepsCovered(c: nat, p: nat, n: nat)
    requires p > 0 && LowBit(c + p) == p
    ensures Before(c + p, n) == Covered(c, n)
  {
  }

  /** A triangle step of size p changes nothing for the outputs beyond it. */
  lemma StepKeepsCovered(c: nat, p: nat, n: nat)
    requires IsStep(c, p)
    requires c + p <= n
    ensures Before(c + p, n) == Covered(c, n)
  {
    if LowBit(c + p) == p {
      NoCarryKeepsCovered(c, p, n);
    } else {
      CarryKeepsCovered(c, n);
    }
  }

  /** Step sizes the plan uses at c: the lowest bit of c, or any smaller power of two. */
  ghost predicate IsStep(c: nat, p: nat) {
    && p > 0
    && (c > 0 ==> p <= LowBit(c))
    && (LowBit(c + p) == p || (c > 0 && p == LowBit(c)))
  }

  lemma SmallPowerIsStep(c: nat, s: nat, p: nat)
    requires p == Pow2(s)
    requires c > 0 ==> s <= LsbIndex(c)
    ensures IsStep(c, p)
  {
    if c == 0 || s < LsbIndex(c) { SmallerPowerIsStep(c, s, p); } else { LowBitIsStep(c, p); }
  }

  lemma SmallerPowerIsStep(c: nat, s: nat, p: nat)
    requires p == Pow2(s)
    requires c > 0 ==> s < LsbIndex(c)
    ensures IsStep(c, p)
  {
    if c > 0 { Pow2Increases(s, LsbIndex(c)); }
    LowBitAfterStep(c, s);
  }

  lemma LowBitIsStep(c: nat, p: nat)
    requires c > 0 && p == LowBit(c)
    ensures IsStep(c, p)
  {
  }

  lemma {:induction false} Pow2Increases(a: nat, b: nat)
    requires a < b
    ensures Pow2(a) < Pow2(b)
  {
    if a + 1 < b { Pow2Increases(a, b - 1); }
  }

  lemma StepInBlock(c: nat, p: nat, n: nat)
    requires IsStep(c, p) && c <= n < c + p
    ensures Covered(c, n) == c
  {
  }

  lemma DiagonalMoves(c: nat, b: nat)
    requires 0 < c && b == LowBit(c)
    ensures forall n: nat :: c <= n < c + b ==> Before(c, n) == c - b && Covered(c, n) == c
    ensures forall n: nat :: c + b <= n ==> Covered(c, n) == Before(c, n)
  {
    forall n: nat | c <= n < c + b
      ensures Before(c, n) == c - b && Covered(c, n) == c
    {
      DiagonalFits(c, n);
    }
  }

  lemma TriangleMoves(c: nat, p: nat)
    requires IsStep(c, p)
    ensures forall n: nat :: c <= n < c + p ==> Covered(c, n) == c
    ensures forall n: nat :: c + p <= n ==> Before(c + p, n) == Covered(c, n)
  {
    forall n: nat | c <= n < c + p ensures Covered(c, n) == c { StepInBlock(c, p, n); }
    forall n: nat | c + p <= n ensures Before(c + p, n) == Covered(c, n) { StepKeepsCovered(c, p, n); }
  }

  // ----- Multiples of powers of two -----

  /** c divided by 2^s. */
  function ShiftRight(c: nat, s: nat): nat
    decreases s
  {
    if s == 0 then c else ShiftRight(c / 2, s - 1)
  }

  lemma {:induction false} ShiftExact(c: nat, s: nat)
    requires c > 0 ==> s <= LsbIndex(c)
    ensures ShiftRight(c, s) * Pow2(s) == c
    decreases s
  {
    if s > 0 {
      assert c % 2 == 0 && (c > 0 ==> LsbIndex(c / 2) == LsbIndex(c) - 1);
      ShiftExact(c / 2, s - 1);
      Double(ShiftRight(c / 2, s - 1), Pow2(s - 1));
    }
  }

  lemma StepBelow(s: nat, l: nat)
    requires Pow2(s) <= Pow2(l)
    ensures s <= l
  {
    if l < s { Pow2Increases(l, s); }
  }

  lemma PreviousPartition(q: nat, p: nat, start: nat)
    requires q * p == start > 0
    ensures q >= 1 && start >= p && (q - 1) * p == start - p
  {
  }

  lemma Distribute(i: nat, x: nat, y: nat, z: nat)
    ensures (i * x + y) * z == i * (x * z) + y * z
  {
  }

  /** tsOffset / strideSize, counted from the start of the series: the number of the input
      partition that starts at position c of a chunk. */
  function PartitionOf(chunkIndex: nat, l: nat, c: nat, s: nat): (q: nat)
    requires s <= l
  {
    chunkIndex * Pow2(l - s) + ShiftRight(c, s)
  }

  lemma PartitionStarts(chunkIndex: nat, l: nat, c: nat, s: nat)
    requires s <= l
    requires c > 0 ==> s <= LsbIndex(c)
    ensures PartitionOf(chunkIndex, l, c, s) * Pow2(s) == chunkIndex * Pow2(l) + c
  {
    var p := Pow2(s);
    assert ShiftRight(c, s) * p == c by { ShiftExact(c, s); }
    assert Pow2(l) == Pow2(l - s) * p by { Pow2Sum(l - s, s); }
    Distribute(chunkIndex, Pow2(l - s), ShiftRight(c, s), p);
  }

  // ----- Filling one chunk -----

  /** Position in the whole series of output n of a chunk. */
  function Position(chunkIndex: nat, l: nat, n: nat): nat { chunkIndex * Pow2(l) + n }

  /** Every output n holds the sum over the inputs from `from` to reach(n), counted from the chunk. */
  ghost predicate Sums(dst: seq<real>, kern: Samples, ts: Samples, base: nat, from: nat, reach: nat -> nat)
  {
    && from <= base
    && forall n :: 0 <= n < |dst| ==> dst[n] == Taps(kern, ts, base + n, from, base + reach(n))
  }

  /** What dst holds while c outputs of the chunk are finished; `from` is the first input used. */
  ghost predicate Progress(dst: seq<real>, kern: Samples, ts: Samples, base: nat, from: nat, c: nat)
  {
    Sums(dst, kern, ts, base, from, n => Reached(c, n))
  }

  /** dst between the two products: the block at c has caught up with the finished outputs. */
  ghost predicate AfterDiagonal(dst: seq<real>, kern: Samples, ts: Samples, base: nat, from: nat, c: nat)
  {
    Sums(dst, kern, ts, base, from, n => if n < c then n + 1 else Covered(c, n))
  }

  /** One product moves the outputs of its block from input lo to input hi, or to their own input
      when that comes first, and leaves the others where they were. */
  lemma ProductAdds(now: seq<real>, was: seq<real>, kern: Samples, ts: Samples, base: nat, from: nat,
                    reach: nat -> nat, reach': nat -> nat, at: nat, s: nat, lo: nat, hi: nat)
    requires |was| == |now| && from <= base && lo <= hi && at + s <= |was|
    requires Sums(was, kern, ts, base, from, reach)
    requires Added(now, was, kern, ts, base, at, s, lo, hi)
    requires forall j: nat :: !(at <= j < at + s) ==> reach'(j) == reach(j)
    requires forall j: nat :: at <= j < at + s ==>
               && reach(j) == lo
               && (reach'(j) == hi || (lo <= j && reach'(j) == j + 1 <= hi))
    ensures Sums(now, kern, ts, base, from, reach')
  {
    hide Taps;
    forall n | at <= n < at + s
      ensures now[n] == Taps(kern, ts, base + n, from, base + reach'(n))
    {
      assert was[n] == Taps(kern, ts, base + n, from, base + lo);
      SumExtends(kern, ts, base + n, from, base + lo, base + hi, base + reach'(n));
    }
    forall n | 0 <= n < |now| && !(at <= n < at + s)
      ensures now[n] == Taps(kern, ts, base + n, from, base + reach'(n))
    {
      assert was[n] == Taps(kern, ts, base + n, from, base + reach(n));
    }
  }

  lemma SumExtends(kern: Samples, ts: Samples, n: nat, from: nat, a: nat, b: nat, r: nat)
    requires from <= a <= b
    requires r == b || (a <= n && r == n + 1 <= b)
    ensures Taps(kern, ts, n, from, a) + Taps(kern, ts, n, a, b) == Taps(kern, ts, n, from, r)
  {
    if r != b { TapsCausal(kern, ts, n, a, b); }
    TapsSplit(kern, ts, n, from, a, r);
  }

  lemma DiagonalAdds(now: seq<real>, was: seq<real>, kern: Samples, ts: Samples, base: nat, from: nat, c: nat, b: nat)
    requires 0 < c && b == LowBit(c) && c + b <= |was| && from <= base
    requires Progress(was, kern, ts, base, from, c)
    requires Added(now, was, kern, ts, base, c, b, c - b, c)
    ensures AfterDiagonal(now, kern, ts, base, from, c)
  {
    DiagonalMoves(c, b);
    ProductAdds(now, was, kern, ts, base, from, n => Reached(c, n), n => if n < c then n + 1 else Covered(c, n),
                c, b, c - b, c);
  }

  lemma NoDiagonalAtZero(dst: seq<real>, kern: Samples, ts: Samples, base: nat, from: nat)
    requires from <= base && Progress(dst, kern, ts, base, from, 0)
    ensures AfterDiagonal(dst, kern, ts, base, from, 0)
  {
  }

  lemma TriangleAdds(now: seq<real>, was: seq<real>, kern: Samples, ts: Samples, base: nat, from: nat, c: nat, p: nat)
    requires IsStep(c, p) && c + p <= |was| && from <= base
    requires AfterDiagonal(was, kern, ts, base, from, c)
    requires Added(now, was, kern, ts, base, c, p, c, c + p)
    ensures Progress(now, kern, ts, base, from, c + p)
  {
    TriangleMoves(c, p);
    ProductAdds(now, was, kern, ts, base, from, n => if n < c then n + 1 else Covered(c, n), n => Reached(c + p, n),
                c, p, c, c + p);
  }

  /** Which transforms a call finds ready: by number of finished outputs and step size. */
  type Ready = (nat, nat) -> bool

  /** stepLog2 of withStepSpec: as large as the lowest set bit and the arrived inputs allow.  At
      zero the scan yields 31, which never is the smaller one. */
  function StepLog2(computedCount: nat, endCount: nat): (s: nat)
    requires computedCount < endCount
    ensures computedCount > 0 ==> s <= LsbIndex(computedCount)
    ensures computedCount + Pow2(s) <= endCount
    ensures (computedCount > 0 && s == LsbIndex(computedCount)) || endCount < computedCount + 2 * Pow2(s)
  {
    var maxStepLog2 := FloorLog2(endCount - computedCount);
    if computedCount > 0 && LsbIndex(computedCount) < maxStepLog2
    then (Pow2Increases(LsbIndex(computedCount), maxStepLog2); LsbIndex(computedCount))
    else maxStepLog2
  }

  /** Handler of StepSpecDiag: the block of inputs just before c, for the block of outputs at c. */
  method Diagonal(kern: Samples, ts: Samples, chunkIndex: nat, l: nat, ghost base: nat, ghost from: nat,
                  dst: array<real>, c: nat)
    requires 0 < c < dst.Length == Pow2(l)
    requires from <= base == chunkIndex * Pow2(l)
    requires Progress(dst[..], kern, ts, base, from, c)
    modifies dst
    ensures AfterDiagonal(dst[..], kern, ts, base, from, c)
  {
    hide Progress, AfterDiagonal, Added, Pow2;
    BlockFits(c, l);
    ghost var was := dst[..];
    var q := PartitionOf(chunkIndex, l, c, LsbIndex(c));
    PartitionStarts(chunkIndex, l, c, LsbIndex(c));
    var b := LowBit(c);
    PreviousPartition(q, b, base + c);
    AddProduct(kern, ts, 1, q - 1, b, dst, c, false, base, c - b);
    DiagonalAdds(dst[..], was, kern, ts, base, from, c, b);
  }

  /** Handler of StepSpecTri: the inputs from c on, for the outputs from c on. */
  method Triangle(kern: Samples, ts: Samples, chunkIndex: nat, l: nat, ghost base: nat, ghost from: nat,
                  dst: array<real>, c: nat, s: nat)
    requires dst.Length == Pow2(l) && s <= l
    requires c + Pow2(s) <= Pow2(l)
    requires c > 0 ==> s <= LsbIndex(c)
    requires from <= base == chunkIndex * Pow2(l)
    requires AfterDiagonal(dst[..], kern, ts, base, from, c)
    modifies dst
    ensures Progress(dst[..], kern, ts, base, from, c + Pow2(s))
  {
    var p := Pow2(s);
    ghost var was := dst[..];
    var q := PartitionOf(chunkIndex, l, c, s);
    PartitionStarts(chunkIndex, l, c, s);
    AddProduct(kern, ts, 0, q, p, dst, c, false, base, c);
    SmallPowerIsStep(c, s, p);
    TriangleAdds(dst[..], was, kern, ts, base, from, c, p);
  }

  /** withStepSpec: both products are checked for readiness before either is added. */
  method WithStepSpec(kern: Samples, ts: Samples, chunkIndex: nat, l: nat, ghost base: nat, ghost from: nat,
                      dst: array<real>, computedCount: nat, endCount: nat, ready: Ready)
    returns (success: bool, count: nat)
    requires dst.Length == Pow2(l) && computedCount < endCount <= Pow2(l)
    requires from <= base == chunkIndex * Pow2(l)
    requires Progress(dst[..], kern, ts, base, from, computedCount)
    modifies dst
    ensures Progress(dst[..], kern, ts, base, from, count)
    ensures success ==> computedCount < count <= endCount
    ensures !success ==> count == computedCount && dst[..] == old(dst[..])
    ensures AllReady(ready) ==> success
  {
    hide Progress, Pow2;
    var stepLog2 := StepLog2(computedCount, endCount);
    StepBelow(stepLog2, l);
    if !ready(computedCount, stepLog2) { return false, computedCount; }
    if computedCount > 0 {
      if !ready(computedCount, LsbIndex(computedCount)) { return false, computedCount; }
      Diagonal(kern, ts, chunkIndex, l, base, from, dst, computedCount);
    } else {
      NoDiagonalAtZero(dst[..], kern, ts, base, from);
    }
    Triangle(kern, ts, chunkIndex, l, base, from, dst, computedCount, stepLog2);
    return true, computedCount + Pow2(stepLog2);
  }

  // ----- A whole chunk, and every schedule of calls -----

  /** One run of the chunk's computer: how many inputs of this chunk have arrived at its start and
      after the prior-chunk products, whether the earlier chunks and the kernel are complete, and
      which transforms are ready. */
  datatype Call = Call(inputs: nat, laterInputs: nat, priorReady: bool, ready: Ready)

  ghost predicate AllReady(ready: Ready) { forall c, s :: ready(c, s) }

  /** getEndCount: whole multiples of the configured minimum 1 << minComputeLog2 only. */
  function EndCount(inputs: nat, minCompute: nat): (e: nat)
    requires minCompute > 0
    ensures e <= inputs < e + minCompute && e % minCompute == 0
  {
    if inputs < minCompute then 0
    else
      var e := EndCount(inputs - minCompute, minCompute);
      OneMore(e, minCompute);
      minCompute + e
  }

  lemma OneMore(e: nat, m: nat)
    requires m > 0 && e % m == 0
    ensures (m + e) % m == 0
  {
    var q := e / m;
    assert e == q * m && m + e == (q + 1) * m;
    Bits.Remainder(m + e, q + 1, m, 0);
  }

  lemma {:induction false} EndCountMonotone(a: nat, b: nat, m: nat)
    requires m > 0 && a <= b
    ensures EndCount(a, m) <= EndCount(b, m)
  {
    if m <= a { EndCountMonotone(a - m, b - m, m); }
  }

  /** Earlier chunks whose products are needed: len in the source. */
  function PriorChunks(kernelSize: KernelSize, chunkIndex: nat, size: nat): (len: nat)
    requires size > 0
    ensures len <= chunkIndex
  {
    var numKernelChunks := (kernelSize + size * 2 - 1) / size;
    var fromKernel := (kernelSize + size - 2) / size;
    var numTsChunks := (if fromKernel < chunkIndex then fromKernel else chunkIndex) + 1;
    assert numKernelChunks >= 1 by { DivisionAtLeastOne(kernelSize + size * 2 - 1, size); }
    (if numKernelChunks < numTsChunks then numKernelChunks else numTsChunks) - 1
  }

  lemma DivisionAtLeastOne(a: nat, b: nat)
    requires 0 < b <= a
    ensures a / b >= 1
  {
    Multiples(a / b, b);
    assert a / b * b + a % b == a;
  }

  /** The earlier chunks left out lie at least a whole kernel back, and no others could be left out. */
  lemma PriorChunksReachBack(kernelSize: KernelSize, chunkIndex: nat, size: nat)
    requires size > 0
    ensures var len := PriorChunks(kernelSize, chunkIndex, size);
            && (len == chunkIndex || len * size + 1 >= kernelSize)
            && (len > 0 ==> (len - 1) * size + 1 < kernelSize)
  {
    var x, y := kernelSize + size * 2 - 1, kernelSize + size - 2;
    var a, b := x / size, y / size;
    assert a * size + x % size == x;
    assert b * size + y % size == y;
    assert (a - 1) * size == a * size - size;
    assert (b - 1) * size == b * size - size;
    var len := PriorChunks(kernelSize, chunkIndex, size);
    if 0 < len < b { Smaller(len - 1, b - 1, size); }
  }

  lemma Smaller(m: nat, n: nat, size: nat)
    requires m <= n
    ensures m * size <= n * size
  {
    assert n * size == m * size + (n - m) * size && (n - m) * size >= 0;
  }

  /** The prior-chunk products, run while nothing of the chunk is finished. */
  method AddPriorChunks(kern: Samples, ts: Samples, chunkIndex: nat, l: nat, len: nat, dst: array<real>)
    requires dst.Length == Pow2(l) && len <= chunkIndex
    requires (chunkIndex - len) * Pow2(l) <= chunkIndex * Pow2(l)
    modifies dst
    ensures Progress(dst[..], kern, ts, chunkIndex * Pow2(l), (chunkIndex - len) * Pow2(l), 0)
  {
    hide Taps, Pow2, Added, Progress;
    var size := Pow2(l);
    ghost var base: nat, from: nat := chunkIndex * size, (chunkIndex - len) * size;
    if len == 0 {
      var i := 0;
      while i < size
        invariant 0 <= i <= size
        invariant forall j :: 0 <= j < i ==> dst[j] == 0.0
      {
        dst[i] := 0.0;
        i := i + 1;
      }
      NoPriorChunks(dst[..], kern, ts, base);
    } else {
      var i := 0;
      ghost var upto: nat := from;
      NothingTapped(kern, ts, from);
      while i < len
        invariant 0 <= i <= len
        invariant from <= upto == (chunkIndex - len + i) * size
        invariant dst.Length == size
        invariant i > 0 ==> forall j :: 0 <= j < size ==> dst[j] == Taps(kern, ts, base + j, from, upto)
      {
        var q: nat := chunkIndex - len + i;
        Distribute(1, len - i, q, size);
        Distribute(1, 1, q, size);
        ghost var was := if i == 0 then Zeroed(dst[..], 0, size) else dst[..];
        AddProduct(kern, ts, len - i, q, size, dst, 0, i == 0, base, upto - base);
        PriorChunkAdds(dst[..], was, kern, ts, base, from, upto, size);
        i, upto := i + 1, upto + size;
      }
      PriorChunksDone(dst[..], kern, ts, base, from);
    }
  }

  lemma NothingTapped(kern: Samples, ts: Samples, from: nat)
    ensures forall n :: Taps(kern, ts, n, from, from) == 0.0
  {
  }

  lemma NoPriorChunks(dst: seq<real>, kern: Samples, ts: Samples, base: nat)
    requires forall j :: 0 <= j < |dst| ==> dst[j] == 0.0
    ensures Progress(dst, kern, ts, base, base, 0)
  {
  }

  lemma PriorChunksDone(dst: seq<real>, kern: Samples, ts: Samples, base: nat, from: nat)
    requires from <= base
    requires forall j :: 0 <= j < |dst| ==> dst[j] == Taps(kern, ts, base + j, from, base)
    ensures Progress(dst, kern, ts, base, from, 0)
  {
  }

  lemma PriorChunkAdds(now: seq<real>, was: seq<real>, kern: Samples, ts: Samples, base: nat, from: nat, upto: nat,
                       size: nat)
    requires from <= upto && |was| == size
    requires forall j :: 0 <= j < size ==> was[j] == Taps(kern, ts, base + j, from, upto)
    requires Added(now, was, kern, ts, base, 0, size, upto - base, upto - base + size)
    ensures |now| == size && forall j :: 0 <= j < size ==> now[j] == Taps(kern, ts, base + j, from, upto + size)
  {
    forall j | 0 <= j < size
      ensures now[j] == Taps(kern, ts, base + j, from, upto + size)
    {
      TapsSplit(kern, ts, base + j, from, upto, upto + size);
    }
  }

  /** The first input position any product of the chunk reads. */
  function From(kernelSize: KernelSize, chunkIndex: nat, l: nat): nat
  {
    (chunkIndex - PriorChunks(kernelSize, chunkIndex, Pow2(l))) * Pow2(l)
  }

  lemma FromInRange(kernelSize: KernelSize, chunkIndex: nat, l: nat)
    ensures From(kernelSize, chunkIndex, l) <= chunkIndex * Pow2(l)
  {
    var len := PriorChunks(kernelSize, chunkIndex, Pow2(l));
    Distribute(1, chunkIndex - len, len, Pow2(l));
  }

  /** The chunk's buffer between calls; before anything is finished it may hold anything. */
  ghost predicate Running(dst: seq<real>, kern: Samples, ts: Samples, kernelSize: KernelSize, chunkIndex: nat, l: nat,
                          c: nat)
  {
    && |dst| == Pow2(l)
    && From(kernelSize, chunkIndex, l) <= chunkIndex * Pow2(l)
    && (c > 0 ==> Progress(dst, kern, ts, chunkIndex * Pow2(l), From(kernelSize, chunkIndex, l), c))
  }

  /** The computer of one chunk. */
  method Compute(kern: Samples, ts: Samples, kernelSize: KernelSize, chunkIndex: nat, l: nat, minCompute: nat,
                 call: Call, dst: array<real>, computedCount: nat)
    returns (count: nat)
    requires minCompute > 0
    requires computedCount <= EndCount(call.inputs, minCompute)
    requires call.inputs <= call.laterInputs <= Pow2(l)
    requires Running(dst[..], kern, ts, kernelSize, chunkIndex, l, computedCount)
    modifies dst
    ensures computedCount <= count <= EndCount(call.laterInputs, minCompute)
    ensures Running(dst[..], kern, ts, kernelSize, chunkIndex, l, count)
    ensures forall n :: 0 <= n < computedCount ==> dst[n] == old(dst[n])
    ensures call.priorReady && AllReady(call.ready) ==> count >= EndCount(call.inputs, minCompute)
  {
    EndCountMonotone(call.inputs, call.laterInputs, minCompute);
    var endCount := EndCount(call.inputs, minCompute);
    count := computedCount;
    if endCount == computedCount { return; }
    if computedCount == 0 {
      if !call.priorReady { return; }
      AddPriorChunks(kern, ts, chunkIndex, l, PriorChunks(kernelSize, chunkIndex, Pow2(l)), dst);
      endCount := EndCount(call.laterInputs, minCompute);
    }
    while count < endCount
      invariant computedCount <= count <= endCount
      invariant Progress(dst[..], kern, ts, chunkIndex * Pow2(l), From(kernelSize, chunkIndex, l), count)
    {
      var success;
      success, count := WithStepSpec(kern, ts, chunkIndex, l, chunkIndex * Pow2(l), From(kernelSize, chunkIndex, l),
                                     dst, count, endCount, call.ready);
      if !success { return; }
    }
  }

  /** The convolution: every input up to n, each with the kernel sample its age selects. */
  function Direct(kern: Samples, ts: Samples, n: nat): real { Taps(kern, ts, n, 0, n + 1) }

  /** A kernel that is zero from kernelSize on gives finished outputs their exact value. */
  lemma FinishedIsDirect(dst: seq<real>, kern: Samples, ts: Samples, kernelSize: KernelSize, chunkIndex: nat, l: nat,
                         c: nat, n: nat)
    requires n < c && n < |dst|
    requires forall k: nat :: k >= kernelSize ==> kern(k) == 0.0
    requires Running(dst, kern, ts, kernelSize, chunkIndex, l, c)
    ensures dst[n] == Direct(kern, ts, chunkIndex * Pow2(l) + n)
  {
    var size := Pow2(l);
    var len := PriorChunks(kernelSize, chunkIndex, size);
    var base, from := chunkIndex * size, (chunkIndex - len) * size;
    PriorChunksReachBack(kernelSize, chunkIndex, size);
    assert base == from + len * size by { Distribute(1, chunkIndex - len, len, size); }
    TapsSplit(kern, ts, base + n, 0, from, base + n + 1);
    if len == chunkIndex {
      assert from == 0;
    } else {
      TapsVanish(kern, ts, base + n, 0, from);
    }
  }

  ghost predicate Exact(dst: seq<real>, kern: Samples, ts: Samples, base: nat, c: nat)
  {
    c <= |dst| && forall n :: 0 <= n < c ==> dst[n] == Direct(kern, ts, base + n)
  }

  lemma FinishedAreDirect(dst: seq<real>, kern: Samples, ts: Samples, kernelSize: KernelSize, chunkIndex: nat, l: nat,
                          c: nat)
    requires c <= |dst|
    requires forall k: nat :: k >= kernelSize ==> kern(k) == 0.0
    requires Running(dst, kern, ts, kernelSize, chunkIndex, l, c)
    ensures Exact(dst, kern, ts, chunkIndex * Pow2(l), c)
  {
    forall n | 0 <= n < c
      ensures dst[n] == Direct(kern, ts, chunkIndex * Pow2(l) + n)
    {
      FinishedIsDirect(dst, kern, ts, kernelSize, chunkIndex, l, c, n);
    }
  }

  /** Every call sees at least as many inputs as the one before. */
  ghost predicate Growing(calls: seq<Call>, size: nat) {
    && (forall i :: 0 <= i < |calls| ==> calls[i].inputs <= calls[i].laterInputs <= size)
    && (forall i, j :: 0 <= i < j < |calls| ==> calls[i].laterInputs <= calls[j].inputs)
  }

  /** Any run of a chunk: whatever arrives when, and whichever transforms are late, each finished
      output is the plain convolution and never changes again, and a call that finds everything
      ready finishes all the inputs it saw. */
  method Run(kern: Samples, ts: Samples, kernelSize: KernelSize, chunkIndex: nat, l: nat, minCompute: nat,
             calls: seq<Call>)
    returns (dst: array<real>, count: nat)
    requires minCompute > 0 && Growing(calls, Pow2(l))
    requires forall k: nat :: k >= kernelSize ==> kern(k) == 0.0
    ensures dst.Length == Pow2(l) && count <= dst.Length
    ensures Exact(dst[..], kern, ts, chunkIndex * Pow2(l), count)
    ensures calls != [] && calls[|calls| - 1].priorReady && AllReady(calls[|calls| - 1].ready) ==>
              count >= EndCount(calls[|calls| - 1].inputs, minCompute)
  {
    FromInRange(kernelSize, chunkIndex, l);
    dst := new real[Pow2(l)];
    count := 0;
    ghost var seen: nat := 0;
    for i := 0 to |calls|
      invariant i > 0 ==> seen == calls[i - 1].laterInputs
      invariant count <= EndCount(seen, minCompute) && seen <= Pow2(l)
      invariant i == 0 ==> seen == 0
      invariant Running(dst[..], kern, ts, kernelSize, chunkIndex, l, count)
      invariant i > 0 && calls[i - 1].priorReady && AllReady(calls[i - 1].ready) ==>
                  count >= EndCount(calls[i - 1].inputs, minCompute)
    {
      EndCountMonotone(seen, calls[i].inputs, minCompute);
      count := Compute(kern, ts, kernelSize, chunkIndex, l, minCompute, calls[i], dst, count);
      seen := calls[i].laterInputs;
    }
    FinishedAreDirect(dst[..], kern, ts, kernelSize, chunkIndex, l, count);
  }

  // ----- The path without transforms -----

  /** The sum one output receives where transforms are switched off for small steps: `i` counts
      outputs from the step, but the input bounds [tiBegin, tiEnd) count from the chunk. */
  function WithoutTransform(kern: Samples, ts: Samples, kiBegin: nat, kiEnd: nat, tiBegin: nat, tiEnd: nat,
                            i: nat): real {
    var first := if kiBegin > i + 1 - tiEnd then kiBegin else i + 1 - tiEnd;
    var end := if kiEnd < i + 1 - tiBegin then kiEnd else i + 1 - tiBegin;
    Products(kern, ts, i, first, end)
  }

  function Products(kern: Samples, ts: Samples, i: nat, first: int, end: int): real
    requires 0 <= first && end <= i + 1
    decreases end
  {
    if end <= first then 0.0 else Products(kern, ts, i, first, end - 1) + kern(end - 1) * ts(i - (end - 1))
  }

  /** What output c + i receives in a triangle step of size 2^s, and in a diagonal step, of this path. */
  function PlainTriangle(kern: Samples, ts: Samples, c: nat, s: nat, i: nat): real {
    WithoutTransform(kern, ts, 0, Pow2(s), c, c + Pow2(s), i)
  }

  function PlainDiagonal(kern: Samples, ts: Samples, c: Positive, i: nat): real
  {
    WithoutTransform(kern, ts, 0, 2 * LowBit(c), c - LowBit(c), c, i)
  }

  /** Every output of the step receives what it should: the inputs from c on, or those of the block before c. */
  ghost predicate TriangleRight(kern: Samples, ts: Samples, c: nat, s: nat) {
    forall i: nat :: i < Pow2(s) ==> PlainTriangle(kern, ts, c, s, i) == Taps(kern, ts, c + i, c, c + i + 1)
  }

  ghost predicate DiagonalRight(kern: Samples, ts: Samples, c: Positive)
  {
    forall i: nat :: i < LowBit(c) ==> PlainDiagonal(kern, ts, c, i) == Taps(kern, ts, c + i, c - LowBit(c), c)
  }

  /** Beyond the first step a triangle step of this path adds nothing at all. */
  lemma DropsTriangles(kern: Samples, ts: Samples, c: nat, s: nat, i: nat)
    requires 0 < c && s <= LsbIndex(c) && i < Pow2(s)
    ensures PlainTriangle(kern, ts, c, s, i) == 0.0
  {
    if s < LsbIndex(c) { Pow2Increases(s, LsbIndex(c)); }
  }

  /** A sum over kernel positions, turned into one over inputs. */
  lemma {:induction false} ProductsAreTaps(kern: Samples, ts: Samples, i: nat, end: nat)
    requires end <= i + 1
    ensures Products(kern, ts, i, 0, end) == Taps(kern, ts, i, i + 1 - end, i + 1)
  {
    if end > 0 {
      ProductsAreTaps(kern, ts, i, end - 1);
      var t := i + 1 - end;
      TapsSplit(kern, ts, i, t, t + 1, i + 1);
      assert Taps(kern, ts, i, t, t + 1) == At(kern, i - t) * ts(t);
    }
  }

  /** The kernel that delays by one, and the series of ones. */
  const DELAY: Samples := (k: nat) => if k == 1 then 1.0 else 0.0
  const KEEP: Samples := (k: nat) => if k == 0 then 1.0 else 0.0
  const ONES: Samples := (k: nat) => 1.0

  /** With the kernel that changes nothing, the triangle step at any c > 0 loses the input at c. */
  lemma TriangleFailsAt(c: nat, s: nat)
    requires 0 < c && s <= LsbIndex(c)
    ensures PlainTriangle(KEEP, ONES, c, s, 0) == 0.0 && Taps(KEEP, ONES, c, c, c + 1) == 1.0
  {
    DropsTriangles(KEEP, ONES, c, s, 0);
  }

  /** With the delay by one, the diagonal step at any c > 0 loses the input before c. */
  lemma DiagonalFailsAt(c: Positive)
    ensures PlainDiagonal(DELAY, ONES, c, 0) == 0.0 && Taps(DELAY, ONES, c, c - LowBit(c), c) == 1.0
  {
    TapsSplit(DELAY, ONES, c, c - LowBit(c), c - 1, c);
    TapsVanish(DELAY, ONES, c, c - LowBit(c), c - 1);
  }

  /** A triangle step of this path is right for every kernel and series if and only if it is at the beginning
      of the chunk. */
  lemma PlainTriangleRightIff(c: nat, s: nat)
    requires c > 0 ==> s <= LsbIndex(c)
    ensures (forall kern: Samples, ts: Samples :: TriangleRight(kern, ts, c, s)) <==> c == 0
  {
    if c == 0 {
      forall kern: Samples, ts: Samples, i: nat | i < Pow2(s)
        ensures PlainTriangle(kern, ts, c, s, i) == Taps(kern, ts, c + i, c, c + i + 1)
      {
        ProductsAreTaps(kern, ts, i, i + 1);
      }
    } else {
      TriangleFailsAt(c, s);
      assert !TriangleRight(KEEP, ONES, c, s);
    }
  }

  /** A diagonal step of this path, which there is for every c > 0, is never right for every kernel and series. */
  lemma PlainDiagonalNeverRight(c: Positive)
    ensures exists kern: Samples, ts: Samples :: !DiagonalRight(kern, ts, c)
  {
    DiagonalFailsAt(c);
    assert !DiagonalRight(DELAY, ONES, c);
  }
}
