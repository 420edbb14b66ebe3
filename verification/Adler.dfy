/** The blocked checksum stb_adler32 of src/imgui/imgui_draw.cpp against the definition of Adler-32 in
    section 2.2 of RFC 1950. */
module Adler {

  type Byte = b: int | 0 <= b < 256

  /** unsigned int; every assignment below is checked to stay in range. */
  type U32 = x: int | 0 <= x < 0x1_0000_0000

  const MOD := 65521
  const BLOCK := 5552

  datatype Sums = Sums(s1: nat, s2: nat)

  function Reduce(x: nat): (r: nat)
    ensures r < MOD
  {
    x % MOD
  }

  lemma ReduceAdd(x: nat, y: nat, b: nat)
    requires Reduce(x) == Reduce(y)
    ensures Reduce(x + b) == Reduce(y + b)
  {
  }

  lemma ReduceTwice(x: nat)
    ensures Reduce(Reduce(x)) == Reduce(x)
  {
  }

  /** The definition: both sums reduced after every byte. */
  function Bytewise(s: Sums, data: seq<Byte>): Sums {
    if data == [] then s
    else
      var p := Bytewise(s, data[..|data| - 1]);
      var s1 := Reduce(p.s1 + data[|data| - 1]);
      Sums(s1, Reduce(p.s2 + s1))
  }

  /** The same sums without any reduction. */
  function Plain(s: Sums, data: seq<Byte>): Sums {
    if data == [] then s
    else
      var p := Plain(s, data[..|data| - 1]);
      var s1 := p.s1 + data[|data| - 1];
      Sums(s1, p.s2 + s1)
  }

  function Unpack(adler: U32): (s: Sums)
    ensures s.s1 < 0x1_0000 && s.s2 < 0x1_0000
  {
    Sums(adler % 0x1_0000, adler / 0x1_0000)
  }

  function Pack(s: Sums): nat { s.s2 * 0x1_0000 + s.s1 }

  ghost predicate Congruent(s: Sums, t: Sums) { Reduce(s.s1) == Reduce(t.s1) && Reduce(s.s2) == Reduce(t.s2) }

  lemma {:induction false} PlainIsBytewise(s: Sums, t: Sums, data: seq<Byte>)
    requires Congruent(s, t)
    ensures Congruent(Plain(s, data), Bytewise(t, data))
    ensures data != [] ==> Bytewise(t, data).s1 < MOD && Bytewise(t, data).s2 < MOD
  {
    hide Reduce;
    if data != [] {
      var b := data[|data| - 1];
      PlainIsBytewise(s, t, data[..|data| - 1]);
      var p, q := Plain(s, data[..|data| - 1]), Bytewise(t, data[..|data| - 1]);
      ReduceAdd(p.s1, q.s1, b);
      ReduceTwice(q.s1 + b);
      ReduceAdd(p.s2, q.s2, p.s1 + b);
      ReduceAdd(p.s1 + b, Reduce(q.s1 + b), q.s2);
      ReduceTwice(q.s2 + Reduce(q.s1 + b));
    }
  }

  lemma {:induction false} BytewiseAppend(s: Sums, x: seq<Byte>, y: seq<Byte>)
    ensures Bytewise(s, x + y) == Bytewise(Bytewise(s, x), y)
    decreases |y|
  {
    if y == [] {
      assert x + y == x;
    } else {
      assert (x + y)[..|x + y| - 1] == x + y[..|y| - 1];
      BytewiseAppend(s, x, y[..|y| - 1]);
    }
  }

  // ----- The checksum as two sums -----

  /** b[0] + .. + b[k - 1] */
  function SumOf(b: seq<Byte>, k: nat): nat
    requires k <= |b|
  {
    if k == 0 then 0 else SumOf(b, k - 1) + b[k - 1]
  }

  /** (n - 0) * b[0] + .. + (n - (k - 1)) * b[k - 1] */
  function WeightedSum(b: seq<Byte>, n: nat, k: nat): nat
    requires k <= |b| && k <= n
  {
    if k == 0 then 0 else WeightedSum(b, n, k - 1) + (n - (k - 1)) * b[k - 1]
  }

  /** The Adler-32 checksum r of the bytes b from the start value a, as section 2.2 of RFC 1950 has it: the low half
      sums the bytes, the high half sums these sums, both modulo the largest prime below 65536. */
  ghost predicate IsChecksum(a: U32, b: seq<Byte>, r: nat) {
    var n, lo, hi := |b|, a % 65536, a / 65536;
    if n == 0 then r == a
    else
      && r % 65536 == (lo + SumOf(b, n)) % 65521
      && r / 65536 == (hi + n * lo + WeightedSum(b, n, n)) % 65521
  }

  lemma {:induction false} SumOfPrefix(b: seq<Byte>, m: nat, k: nat)
    requires k <= m <= |b|
    ensures SumOf(b[..m], k) == SumOf(b, k)
  {
    if k > 0 { SumOfPrefix(b, m, k - 1); }
  }

  /** With one byte more in view every weight is one more. */
  lemma {:induction false} WeightedMore(b: seq<Byte>, n: nat, k: nat)
    requires k <= n && n + 1 <= |b|
    ensures WeightedSum(b, n + 1, k) == WeightedSum(b[..n], n, k) + SumOf(b, k)
  {
    if k > 0 {
      WeightedMore(b, n, k - 1);
      assert (n + 1 - (k - 1)) * b[k - 1] == (n - (k - 1)) * b[k - 1] + b[k - 1];
    }
  }

  /** The unreduced sums in closed form. */
  lemma {:induction false} PlainIsSums(s: Sums, b: seq<Byte>)
    ensures Plain(s, b).s1 == s.s1 + SumOf(b, |b|)
    ensures Plain(s, b).s2 == s.s2 + |b| * s.s1 + WeightedSum(b, |b|, |b|)
  {
    if b != [] {
      var n := |b| - 1;
      PlainIsSums(s, b[..n]);
      SumOfPrefix(b, n, n);
      WeightedMore(b, n, n);
      assert (n + 1) * s.s1 == n * s.s1 + s.s1;
    }
  }

  /** Reducing after every byte and packing the halves gives the checksum. */
  lemma BytewiseIsChecksum(a: U32, b: seq<Byte>)
    ensures IsChecksum(a, b, Pack(Bytewise(Unpack(a), b)))
  {
    var s, t := Unpack(a), Bytewise(Unpack(a), b);
    if b != [] {
      PlainIsBytewise(s, s, b);
      PlainIsSums(s, b);
      SmallIsReduced(t);
      Halves(t.s2, t.s1);
    }
  }

  lemma Halves(hi: nat, lo: nat)
    requires lo < 65536
    ensures (hi * 65536 + lo) % 65536 == lo && (hi * 65536 + lo) / 65536 == hi
  {
  }

  /** There is only one. */
  lemma OneChecksum(a: U32, b: seq<Byte>, r: nat, q: nat)
    requires IsChecksum(a, b, r) && IsChecksum(a, b, q)
    ensures r == q
  {
  }

  // ----- The bound that makes 5552 the right block length -----

  function Triangle(n: nat): nat { if n == 0 then 0 else Triangle(n - 1) + n }

  lemma {:induction false} TriangleClosed(n: nat)
    ensures 2 * Triangle(n) == n * (n + 1)
  {
    if n > 0 { TriangleClosed(n - 1); }
  }

  lemma {:induction false} TriangleMonotone(m: nat, n: nat)
    requires m <= n
    ensures Triangle(m) <= Triangle(n)
    decreases n
  {
    if m < n { TriangleMonotone(m, n - 1); }
  }

  lemma {:induction false} PlainBound(s: Sums, data: seq<Byte>)
    requires s.s1 < 0x1_0000 && s.s2 < 0x1_0000
    ensures var n, p := |data|, Plain(s, data);
            p.s1 <= 0xFFFF + 255 * n && p.s2 <= 0xFFFF * (n + 1) + 255 * Triangle(n)
  {
    if data != [] { PlainBound(s, data[..|data| - 1]); }
  }

  /** No sum of a block leaves 32 bits, whatever 16-bit halves it starts from. */
  lemma BlockFits(s: Sums, data: seq<Byte>)
    requires s.s1 < 0x1_0000 && s.s2 < 0x1_0000 && |data| <= BLOCK
    ensures Plain(s, data).s1 < 0x1_0000_0000 && Plain(s, data).s2 < 0x1_0000_0000
  {
    PlainBound(s, data);
    TriangleMonotone(|data|, BLOCK);
    TriangleClosed(BLOCK);
  }

  /** Taking in byte i of a block. */
  lemma TakeByte(s: Sums, block: seq<Byte>, i: nat)
    requires s.s1 < 0x1_0000 && s.s2 < 0x1_0000 && i < |block| <= BLOCK
    ensures var p := Plain(s, block[..i]);
            && Plain(s, block[..i + 1]) == Sums(p.s1 + block[i], p.s2 + p.s1 + block[i])
            && p.s1 + block[i] < 0x1_0000_0000 && p.s2 + p.s1 + block[i] < 0x1_0000_0000
  {
    assert block[..i + 1][..i] == block[..i];
    BlockFits(s, block[..i + 1]);
  }

  lemma PlainNone(s: Sums)
    ensures Plain(s, []) == s
  {
  }

  /** s1 += byte, s2 += s1: the pair of additions the loops repeat. */
  method AddByte(a1: U32, a2: U32, b: Byte, ghost start: Sums, ghost block: seq<Byte>, ghost i: nat)
    returns (s1: U32, s2: U32)
    requires start.s1 < 0x1_0000 && start.s2 < 0x1_0000 && i < |block| <= BLOCK
    requires Sums(a1, a2) == Plain(start, block[..i]) && b == block[i]
    ensures Sums(s1, s2) == Plain(start, block[..i + 1])
  {
    TakeByte(start, block, i);
    s1 := a1 + b;
    s2 := a2 + s1;
  }

  /** The two inner loops of stb_adler32: one block, eight bytes at a time and then the rest. */
  method AddBlock(a1: U32, a2: U32, buffer: array<Byte>, p0: nat, blocklen: nat) returns (s1: U32, s2: U32)
    requires a1 < 0x1_0000 && a2 < 0x1_0000 && blocklen <= BLOCK && p0 + blocklen <= buffer.Length
    ensures Sums(s1, s2) == Plain(Sums(a1, a2), buffer[p0..p0 + blocklen])
  {
    hide Plain;
    ghost var start, block := Sums(a1, a2), buffer[p0..p0 + blocklen];
    PlainNone(start);
    s1, s2 := a1, a2;
    var p := p0;
    var i := 0;
    while i + 7 < blocklen
      invariant 0 <= i <= blocklen && p == p0 + i
      invariant Sums(s1, s2) == Plain(start, block[..i])
    {
      s1, s2 := AddByte(s1, s2, buffer[p], start, block, i);
      s1, s2 := AddByte(s1, s2, buffer[p + 1], start, block, i + 1);
      s1, s2 := AddByte(s1, s2, buffer[p + 2], start, block, i + 2);
      s1, s2 := AddByte(s1, s2, buffer[p + 3], start, block, i + 3);
      s1, s2 := AddByte(s1, s2, buffer[p + 4], start, block, i + 4);
      s1, s2 := AddByte(s1, s2, buffer[p + 5], start, block, i + 5);
      s1, s2 := AddByte(s1, s2, buffer[p + 6], start, block, i + 6);
      s1, s2 := AddByte(s1, s2, buffer[p + 7], start, block, i + 7);
      p := p + 8;
      i := i + 8;
    }
    while i < blocklen
      invariant 0 <= i <= blocklen && p == p0 + i
      invariant Sums(s1, s2) == Plain(start, block[..i])
    {
      s1, s2 := AddByte(s1, s2, buffer[p], start, block, i);
      p := p + 1;
      i := i + 1;
    }
    assert block[..i] == block;
  }

  /** State between blocks with p bytes taken in: before the first byte only the residues count. */
  ghost predicate Between(s: Sums, init: Sums, data: seq<Byte>, p: nat)
    requires p <= |data|
  {
    && s.s1 < 0x1_0000 && s.s2 < 0x1_0000
    && (if p == 0 then Congruent(s, init) else s == Bytewise(init, data[..p]))
    && (data == [] ==> s == init)
  }

  /** stb_adler32: reduces once a block; the first block takes the odd length and may be empty. */
  method Adler32(adler32: U32, buffer: array<Byte>, length: nat) returns (r: U32)
    requires length <= buffer.Length && length < 0x1_0000_0000
    ensures IsChecksum(adler32, buffer[..length], r)
    ensures r == Pack(Bytewise(Unpack(adler32), buffer[..length]))
  {
    BytewiseIsChecksum(adler32, buffer[..length]);
    hide Reduce;
    ghost var data, init := buffer[..length], Unpack(adler32);
    var s1: U32, s2: U32 := adler32 % 0x1_0000, adler32 / 0x1_0000;
    var buflen: U32 := length;
    var blocklen: U32 := buflen % BLOCK;
    var p := 0;
    while buflen > 0
      invariant p + buflen == length
      invariant blocklen == BLOCK || p == 0
      invariant blocklen <= BLOCK && GoodLength(buflen, blocklen)
      invariant Between(Sums(s1, s2), init, data, p)
      decreases buflen, BLOCK - blocklen
    {
      BlockLength(buflen, blocklen);
      ghost var start := Sums(s1, s2);
      assert buffer[p..p + blocklen] == data[p..p + blocklen];
      s1, s2 := AddBlock(s1, s2, buffer, p, blocklen);
      BlockDone(init, data, p, p + blocklen, start);
      ReduceIsMod(s1);
      ReduceIsMod(s2);
      s1, s2 := s1 % MOD, s2 % MOD;
      p := p + blocklen;
      buflen := buflen - blocklen;
      blocklen := BLOCK;
    }
    assert data[..p] == data;
    r := s2 * 0x1_0000 + s1;
  }

  lemma ReduceIsMod(x: nat)
    ensures Reduce(x) == x % MOD
  {
  }

  ghost predicate GoodLength(buflen: nat, blocklen: nat) {
    blocklen == buflen % BLOCK || (blocklen == BLOCK && buflen % BLOCK == 0)
  }

  lemma BlockLength(buflen: nat, blocklen: nat)
    requires buflen > 0 && GoodLength(buflen, blocklen)
    ensures blocklen <= buflen && GoodLength(buflen - blocklen, BLOCK)
  {
  }

  /** The reduced sums after the block p0 .. p. */
  lemma BlockDone(init: Sums, data: seq<Byte>, p0: nat, p: nat, start: Sums)
    requires p0 <= p <= |data| && data != []
    requires Between(start, init, data, p0)
    ensures var q := Plain(start, data[p0..p]);
            Between(Sums(Reduce(q.s1), Reduce(q.s2)), init, data, p)
  {
    hide Reduce;
    var q := Plain(start, data[p0..p]);
    ReduceTwice(q.s1);
    ReduceTwice(q.s2);
    assert data[..p] == data[..p0] + data[p0..p];
    BytewiseAppend(init, data[..p0], data[p0..p]);
    assert data[..0] == [];
    var t := if p0 == 0 then init else start;
    PlainIsBytewise(start, t, data[p0..p]);
    if p0 > 0 { PlainIsBytewise(init, init, data[..p0]); }
    if p > p0 {
      SmallIsReduced(Bytewise(t, data[p0..p]));
    } else if p > 0 {
      SmallIsReduced(start);
    }
  }

  lemma SmallIsReduced(s: Sums)
    requires s.s1 < MOD && s.s2 < MOD
    ensures Reduce(s.s1) == s.s1 && Reduce(s.s2) == s.s2
  {
  }
}
