/** Powers of two, and the largest one that divides a number. */
module Powers {

  type Positive = n: nat | n > 0 witness 1

  function Pow2(k: nat): (p: nat)
    ensures p >= 1
  {
    if k == 0 then 1 else 2 * Pow2(k - 1)
  }

  /** Index of the lowest set bit: __builtin_ctz(x), or 31 - clz(x ^ (x - 1)); neither is defined for 0. */
  function LsbIndex(x: Positive): (s: nat)
    ensures Pow2(s) <= x
  {
    if x % 2 == 1 then 0 else 1 + LsbIndex(x / 2)
  }

  lemma {:induction false} Pow2Sum(a: nat, b: nat)
    ensures Pow2(a + b) == Pow2(a) * Pow2(b)
  {
    if a > 0 {
      Pow2Sum(a - 1, b);
      Double(Pow2(b), Pow2(a - 1));
    }
  }

  lemma Double(q: nat, p: nat)
    ensures q * (2 * p) == 2 * (q * p)
  {
  }
}

/** Machine words as numbers: what the bit operators of C++ do to them. */
module Bits {
  import opened Powers

  /** Bit i of a word. */
  predicate Bit(w: nat, i: nat) {
    if i == 0 then w % 2 == 1 else Bit(w / 2, i - 1)
  }

  function Digit(b: bool): nat { if b then 1 else 0 }

  function And(a: nat, b: nat): nat {
    if a == 0 || b == 0 then 0 else 2 * And(a / 2, b / 2) + Digit(a % 2 == 1 && b % 2 == 1)
  }

  function Or(a: nat, b: nat): nat
    decreases a + b
  {
    if a == 0 then b else if b == 0 then a else 2 * Or(a / 2, b / 2) + Digit(a % 2 == 1 || b % 2 == 1)
  }

  function Xor(a: nat, b: nat): nat
    decreases a + b
  {
    if a == 0 then b else if b == 0 then a else 2 * Xor(a / 2, b / 2) + Digit((a % 2 == 1) != (b % 2 == 1))
  }

  /** ~w in a word of the given width. */
  function Not(w: nat, width: nat): nat
    requires w < Pow2(width)
  {
    Pow2(width) - 1 - w
  }

  function Shr(w: nat, k: nat): nat { if k == 0 then w else Shr(w / 2, k - 1) }

  /** w << k, as long as nothing is shifted out. */
  function Shl(w: nat, k: nat): nat { if k == 0 then w else 2 * Shl(w, k - 1) }

  /** __builtin_popcount */
  function Popcount(w: nat): nat { if w == 0 then 0 else w % 2 + Popcount(w / 2) }

  /** The k lowest bits. */
  function Low(w: nat, k: nat): nat { if k == 0 then 0 else 2 * Low(w / 2, k - 1) + w % 2 }

  // ---------------------------------------------------------------- bit by bit

  lemma HalfDouble(x: nat, d: bool)
    ensures (2 * x + Digit(d)) / 2 == x && ((2 * x + Digit(d)) % 2 == 1 <==> d)
  {
  }

  lemma {:induction false} ZeroBits(i: nat)
    ensures !Bit(0, i)
  {
    if i > 0 { ZeroBits(i - 1); }
  }

  lemma {:induction false} AndBit(a: nat, b: nat, i: nat)
    ensures Bit(And(a, b), i) <==> Bit(a, i) && Bit(b, i)
  {
    ZeroBits(i);
    if a != 0 && b != 0 {
      HalfDouble(And(a / 2, b / 2), a % 2 == 1 && b % 2 == 1);
      if i > 0 { AndBit(a / 2, b / 2, i - 1); }
    }
  }

  lemma {:induction false} OrBit(a: nat, b: nat, i: nat)
    ensures Bit(Or(a, b), i) <==> Bit(a, i) || Bit(b, i)
  {
    ZeroBits(i);
    if a != 0 && b != 0 {
      HalfDouble(Or(a / 2, b / 2), a % 2 == 1 || b % 2 == 1);
      if i > 0 { OrBit(a / 2, b / 2, i - 1); }
    }
  }

  lemma {:induction false} XorBit(a: nat, b: nat, i: nat)
    ensures Bit(Xor(a, b), i) <==> Bit(a, i) != Bit(b, i)
  {
    ZeroBits(i);
    if a != 0 && b != 0 {
      HalfDouble(Xor(a / 2, b / 2), (a % 2 == 1) != (b % 2 == 1));
      if i > 0 { XorBit(a / 2, b / 2, i - 1); }
    }
  }

  lemma {:induction false} NotBit(w: nat, width: nat, i: nat)
    requires w < Pow2(width) && i < width
    ensures Bit(Not(w, width), i) <==> !Bit(w, i)
  {
    HalfDouble(Pow2(width - 1) - 1 - w / 2, w % 2 == 0);
    if i > 0 { NotBit(w / 2, width - 1, i - 1); }
  }

  /** Nothing beyond the width. */
  lemma {:induction false} HighBits(w: nat, width: nat, i: nat)
    requires w < Pow2(width) && width <= i
    ensures !Bit(w, i)
  {
    if i == 0 {
    } else if width == 0 {
      ZeroBits(i);
    } else {
      HighBits(w / 2, width - 1, i - 1);
    }
  }

  /** (1 << k) - 1 */
  lemma MaskBit(k: nat, i: nat)
    ensures Bit(Pow2(k) - 1, i) <==> i < k
  {
    if i < k {
      NotBit(0, k, i);
      ZeroBits(i);
    } else {
      HighBits(Pow2(k) - 1, k, i);
    }
  }

  lemma {:induction false} ShrBit(w: nat, k: nat, i: nat)
    ensures Bit(Shr(w, k), i) <==> Bit(w, i + k)
  {
    if k > 0 { ShrBit(w / 2, k - 1, i); }
  }

  lemma {:induction false} OneBit(k: nat, i: nat)
    ensures Shl(1, k) == Pow2(k)
    ensures Bit(Shl(1, k), i) <==> i == k
  {
    if k == 0 {
      if i > 0 { ZeroBits(i - 1); }
    } else {
      HalfDouble(Shl(1, k - 1), false);
      OneBit(k - 1, if i > 0 then i - 1 else 0);
    }
  }

  /** A word is determined by its bits. */
  lemma {:induction false} SameBits(a: nat, b: nat, width: nat)
    requires a < Pow2(width) && b < Pow2(width)
    requires forall i: nat :: i < width ==> (Bit(a, i) <==> Bit(b, i))
    ensures a == b
  {
    if width > 0 {
      forall i: nat | i < width - 1
        ensures Bit(a / 2, i) <==> Bit(b / 2, i)
      {
        assert Bit(a, i + 1) <==> Bit(b, i + 1);
      }
      SameBits(a / 2, b / 2, width - 1);
      assert Bit(a, 0) <==> Bit(b, 0);
    }
  }

  /** The lowest bit that is set. */
  lemma {:induction false} LsbBit(w: nat, i: nat)
    requires w > 0
    ensures Bit(w, LsbIndex(w)) && (i < LsbIndex(w) ==> !Bit(w, i))
  {
    if w % 2 == 0 {
      LsbBit(w / 2, if i > 0 then i - 1 else 0);
    }
  }

  lemma {:induction false} LowBit(w: nat, k: nat, i: nat)
    ensures Low(w, k) < Pow2(k)
    ensures Bit(Low(w, k), i) <==> i < k && Bit(w, i)
  {
    if k == 0 {
      ZeroBits(i);
    } else {
      HalfDouble(Low(w / 2, k - 1), w % 2 == 1);
      LowBit(w / 2, k - 1, if i > 0 then i - 1 else 0);
    }
  }

  /** The k lowest bits are the remainder. */
  lemma {:induction false} LowIsRemainder(w: nat, k: nat)
    ensures Low(w, k) == w % Pow2(k)
  {
    if k > 0 {
      LowIsRemainder(w / 2, k - 1);
      RemainderHalf(w, Pow2(k - 1));
    }
  }

  lemma RemainderHalf(w: nat, p: Positive)
    ensures w % (2 * p) == 2 * (w / 2 % p) + w % 2
  {
    var h := w / 2;
    var q, r := h / p, h % p;
    assert h == q * p + r && w == 2 * h + w % 2;
    assert 2 * (q * p) == q * (2 * p);
    Remainder(w, q, 2 * p, 2 * r + w % 2);
  }

  lemma Remainder(w: nat, q: nat, d: nat, r: nat)
    requires w == q * d + r && r < d
    ensures w % d == r
  {
    var q2, r2 := w / d, w % d;
    assert w == q2 * d + r2;
    if q < q2 {
      Distribute(q2, q, d);
      AtLeastOnce(q2 - q, d);
    } else if q > q2 {
      Distribute(q, q2, d);
      AtLeastOnce(q - q2, d);
    }
  }

  lemma Distribute(a: int, b: int, d: int)
    ensures a * d - b * d == (a - b) * d
  {
  }

  lemma {:induction false} AtLeastOnce(k: nat, d: nat)
    requires k > 0
    ensures k * d >= d
  {
    if k > 1 {
      AtLeastOnce(k - 1, d);
      Distribute(k, 1, d);
    }
  }

  // ---------------------------------------------------------------- bounds

  lemma {:induction false} OpsFit(a: nat, b: nat, width: nat)
    requires a < Pow2(width) && b < Pow2(width)
    ensures And(a, b) < Pow2(width) && Or(a, b) < Pow2(width) && Xor(a, b) < Pow2(width)
  {
    if width > 0 && a != 0 && b != 0 {
      OpsFit(a / 2, b / 2, width - 1);
    }
  }

  lemma {:induction false} Pow2Grows(a: nat, b: nat)
    requires a <= b
    ensures Pow2(a) <= Pow2(b)
  {
    if a < b { Pow2Grows(a, b - 1); }
  }

  /** x &= ~(width - 1) rounds down to a multiple, when width is a power of 2. */
  lemma {:induction false} AlignDown(x: nat, e: nat, n: nat)
    requires x < Pow2(n) && e <= n
    ensures Pow2(e) <= Pow2(n)
    ensures And(x, Not(Pow2(e) - 1, n)) == x - x % Pow2(e)
  {
    Pow2Grows(e, n);
    if e == 0 {
      AllOnes(x, n);
    } else {
      AlignDown(x / 2, e - 1, n - 1);
      Pow2Grows(e - 1, n - 1);
      RemainderHalf(x, Pow2(e - 1));
      var m := Not(Pow2(e - 1) - 1, n - 1);
      assert Not(Pow2(e) - 1, n) == 2 * m;
      AndEven(x, m);
    }
  }

  lemma AndEven(x: nat, m: nat)
    ensures And(x, 2 * m) == 2 * And(x / 2, m)
  {
    HalfDouble(m, false);
  }

  lemma {:induction false} AllOnes(x: nat, n: nat)
    requires x < Pow2(n)
    ensures And(x, Pow2(n) - 1) == x
  {
    if x != 0 {
      AllOnes(x / 2, n - 1);
      HalfDouble(Pow2(n - 1) - 1, true);
    }
  }
}

/** Bits numbered through an array of words. */
module Packed {
  import opened Powers
  import opened Bits

  function WordOf(p: nat, wordBits: Positive): nat
  {
    p / wordBits
  }

  function PlaceOf(p: nat, wordBits: Positive): (i: nat)
    ensures i < wordBits
  {
    p % wordBits
  }

  /** The first number of word k. */
  function Start(k: nat, wordBits: Positive): nat { k * wordBits }

  lemma Position(p: nat, wordBits: Positive)
    ensures p == Start(WordOf(p, wordBits), wordBits) + PlaceOf(p, wordBits)
  {
  }

  lemma PositionIs(k: nat, i: nat, wordBits: Positive)
    requires i < wordBits
    ensures WordOf(Start(k, wordBits) + i, wordBits) == k && PlaceOf(Start(k, wordBits) + i, wordBits) == i
  {
    Remainder(k * wordBits + i, k, wordBits, i);
    var p := k * wordBits + i;
    assert p == p / wordBits * wordBits + i;
    SameMultiple(k, p / wordBits, wordBits);
  }

  lemma SameMultiple(a: nat, b: nat, d: nat)
    requires d > 0 && a * d == b * d
    ensures a == b
  {
    if a < b {
      Distribute(b, a, d);
      AtLeastOnce(b - a, d);
    } else if b < a {
      Distribute(a, b, d);
      AtLeastOnce(a - b, d);
    }
  }

  lemma NextStart(k: nat, wordBits: Positive)
    ensures Start(k + 1, wordBits) == Start(k, wordBits) + wordBits && Start(0, wordBits) == 0
  {
  }

  /** A number below the end of the words has a word. */
  lemma WordInRange(p: nat, n: nat, wordBits: Positive)
    ensures p < Start(n, wordBits) <==> WordOf(p, wordBits) < n
  {
    Position(p, wordBits);
    var k := WordOf(p, wordBits);
    if k < n {
      Distribute(n, k, wordBits);
      AtLeastOnce(n - k, wordBits);
    } else {
      Distribute(k, n, wordBits);
      assert (k - n) * wordBits >= 0;
    }
  }

  /** Bit p of the whole array. */
  predicate Member(words: seq<nat>, wordBits: Positive, p: nat)
  {
    WordOf(p, wordBits) < |words| && Bit(words[WordOf(p, wordBits)], PlaceOf(p, wordBits))
  }

  lemma MemberIs(words: seq<nat>, wordBits: Positive, p: nat)
    requires WordOf(p, wordBits) < |words|
    ensures Member(words, wordBits, p) <==> Bit(words[WordOf(p, wordBits)], PlaceOf(p, wordBits))
  {
  }

  ghost predicate Fits(words: seq<nat>, wordBits: Positive) {
    forall k :: 0 <= k < |words| ==> words[k] < Pow2(wordBits)
  }

  /** Changing one bit of one word changes one member. */
  lemma OneMember(words: seq<nat>, wordBits: Positive, index: nat, w: nat, value: bool, p: nat)
    requires WordOf(index, wordBits) < |words|
    requires forall j: nat :: Bit(w, j) <==>
               if j == PlaceOf(index, wordBits) then value else Bit(words[WordOf(index, wordBits)], j)
    ensures Member(words[WordOf(index, wordBits) := w], wordBits, p) <==>
            if p == index then value else Member(words, wordBits, p)
  {
    hide WordOf, PlaceOf;
    Position(p, wordBits);
    Position(index, wordBits);
  }

  lemma ShlFits(k: nat, width: nat)
    requires k < width
    ensures Shl(1, k) < Pow2(width)
  {
    OneBit(k, 0);
    Pow2Grows(k + 1, width);
  }

  /** w with bit i set, cleared, or turned over. */
  lemma BitChanged(w: nat, i: nat, width: nat, j: nat)
    requires w < Pow2(width) && i < width
    ensures Shl(1, i) < Pow2(width)
    ensures Bit(Or(w, Shl(1, i)), j) <==> j == i || Bit(w, j)
    ensures Bit(And(w, Not(Shl(1, i), width)), j) <==> j != i && Bit(w, j)
    ensures Bit(Xor(w, Shl(1, i)), j) <==> (j == i) != Bit(w, j)
    ensures Or(w, Shl(1, i)) < Pow2(width) && Xor(w, Shl(1, i)) < Pow2(width)
    ensures And(w, Not(Shl(1, i), width)) < Pow2(width)
  {
    ShlFits(i, width);
    OneBit(i, j);
    OrBit(w, Shl(1, i), j);
    XorBit(w, Shl(1, i), j);
    var m := Not(Shl(1, i), width);
    AndBit(w, m, j);
    if j < width { NotBit(Shl(1, i), width, j); } else { HighBits(w, width, j); }
    OpsFit(w, Shl(1, i), width);
    OpsFit(w, m, width);
  }
}
