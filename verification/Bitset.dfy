/** Sets of small numbers packed into words: src/jw_util/bitset.h. */
module Bitset {
  import opened Bits
  import opened Powers
  import opened Packed

  function NumWords(size: nat, wordBits: Positive): nat
  {
    (size + wordBits - 1) / wordBits
  }

  /** The words reach as far as the size, and the last one begins before it. */
  lemma WordsReach(size: Positive, wordBits: Positive)
    ensures NumWords(size, wordBits) > 0
    ensures Start(NumWords(size, wordBits) - 1, wordBits) < size <= Start(NumWords(size, wordBits), wordBits)
  {
    var n, s := NumWords(size, wordBits), size + wordBits - 1;
    assert s == n * wordBits + s % wordBits;
    if n > 0 { NextStart(n - 1, wordBits); }
  }

  // ---------------------------------------------------------------- members

  /** The members below n, in order. */
  function MembersBelow(words: seq<nat>, wordBits: Positive, n: nat): seq<nat>
  {
    if n == 0 then []
    else MembersBelow(words, wordBits, n - 1) + if Member(words, wordBits, n - 1) then [n - 1] else []
  }

  lemma {:induction false} MembersBelowAre(words: seq<nat>, wordBits: Positive, n: nat)
    ensures forall p: nat :: p in MembersBelow(words, wordBits, n) <==> p < n && Member(words, wordBits, p)
    ensures forall i, j :: 0 <= i < j < |MembersBelow(words, wordBits, n)| ==>
              MembersBelow(words, wordBits, n)[i] < MembersBelow(words, wordBits, n)[j]
  {
    hide Member;
    if n > 0 {
      MembersBelowAre(words, wordBits, n - 1);
      var before := MembersBelow(words, wordBits, n - 1);
      forall i | 0 <= i < |before|
        ensures before[i] < n - 1
      {
        assert before[i] in before;
      }
    }
  }

  /** Numbers that are not members add nothing. */
  lemma {:induction false} MembersSkip(words: seq<nat>, wordBits: Positive, n: nat, m: nat)
    requires n <= m && forall p: nat :: n <= p < m ==> !Member(words, wordBits, p)
    ensures MembersBelow(words, wordBits, m) == MembersBelow(words, wordBits, n)
  {
    if n < m { MembersSkip(words, wordBits, n, m - 1); }
  }

  /** The bits of word k are counted with it. */
  lemma {:induction false} WordCount(words: seq<nat>, wordBits: Positive, k: nat, i: nat)
    requires k < |words| && i <= wordBits && wordBits > 0
    ensures |MembersBelow(words, wordBits, Start(k, wordBits) + i)| ==
            |MembersBelow(words, wordBits, Start(k, wordBits))| + Popcount(Low(words[k], i))
  {
    if i > 0 {
      WordCount(words, wordBits, k, i - 1);
      PositionIs(k, i - 1, wordBits);
      PopcountLow(words[k], i - 1);
    }
  }

  lemma {:induction false} PopcountLow(w: nat, i: nat)
    ensures Popcount(Low(w, i + 1)) == Popcount(Low(w, i)) + Digit(Bit(w, i))
  {
    HalfDouble(Low(w / 2, i), w % 2 == 1);
    if i > 0 {
      PopcountLow(w / 2, i - 1);
      HalfDouble(Low(w / 2, i - 1), w % 2 == 1);
    } else {
      assert Low(w / 2, 0) == 0;
    }
  }

  lemma LowAll(w: nat, width: nat)
    requires w < Pow2(width)
    ensures Low(w, width) == w
  {
    LowBit(w, width, 0);
    forall i: nat | i < width
      ensures Bit(Low(w, width), i) <==> Bit(w, i)
    {
      LowBit(w, width, i);
    }
    SameBits(Low(w, width), w, width);
  }

  // ---------------------------------------------------------------- words and members

  /** Numbers whose word and bit are both kept. */
  function Kept(size: Positive, wordBits: Positive): (n: nat)
  {
    WordsReach(size, wordBits);
    Start(NumWords(size, wordBits) - 1, wordBits) + size % wordBits
  }

  /** maskLastWord keeps all numbers below the size exactly when the size is no multiple of the word width:
      for a multiple the mask is 0, and it takes the whole last word out. */
  lemma MaskKeepsAllIff(size: Positive, wordBits: Positive)
    ensures Kept(size, wordBits) == size <==> size % wordBits != 0
    ensures Kept(size, wordBits) <= size
    ensures size % wordBits == 0 ==> Kept(size, wordBits) + wordBits == size
  {
    WordsReach(size, wordBits);
    var k, q, r := NumWords(size, wordBits) - 1, size / wordBits, size % wordBits;
    NextStart(k, wordBits);
    assert size == Start(q, wordBits) + r;
    if r == 0 {
      NextStart(q - 1, wordBits);
      Between(q - 1, k, wordBits, wordBits);
    } else {
      Between(q, k, r, wordBits);
    }
  }

  lemma Between(q: nat, k: nat, r: nat, wordBits: Positive)
    requires 0 < r <= wordBits && Start(k, wordBits) < Start(q, wordBits) + r <= Start(k, wordBits) + wordBits
    ensures q == k
  {
    if q < k {
      Distribute(k, q, wordBits);
      AtLeastOnce(k - q, wordBits);
    } else if k < q {
      Distribute(q, k, wordBits);
      AtLeastOnce(q - k, wordBits);
    }
  }

  lemma MaskedMember(words: seq<nat>, wordBits: Positive, size: Positive, p: nat)
    requires |words| == NumWords(size, wordBits) && Fits(words, wordBits)
    requires NumWords(size, wordBits) > 0
    ensures var last := |words| - 1;
            Member(words[last := And(words[last], Pow2(size % wordBits) - 1)], wordBits, p) <==>
            Member(words, wordBits, p) && p < Kept(size, wordBits)
  {
    hide WordOf, PlaceOf, NumWords, Kept, Start, Pow2, Bit;
    var last, i, k, r := |words| - 1, PlaceOf(p, wordBits), WordOf(p, wordBits), size % wordBits;
    KeptIs(size, wordBits);
    Position(p, wordBits);
    if k == last {
      AndBit(words[last], Pow2(r) - 1, i);
      MaskBit(r, i);
    } else if k < last {
      Earlier(k, last, wordBits);
    }
  }

  lemma KeptIs(size: Positive, wordBits: Positive)
    ensures NumWords(size, wordBits) > 0
    ensures Kept(size, wordBits) == Start(NumWords(size, wordBits) - 1, wordBits) + size % wordBits
  {
    WordsReach(size, wordBits);
  }

  /** An earlier word ends before a later one begins. */
  lemma Earlier(k: nat, last: nat, wordBits: Positive)
    requires k < last
    ensures Start(k, wordBits) + wordBits <= Start(last, wordBits)
  {
    Distribute(last, k, wordBits);
    AtLeastOnce(last - k, wordBits);
  }

  lemma MaskFits(k: nat, width: nat)
    requires k < width
    ensures Pow2(k) - 1 < Pow2(width)
  {
    Pow2Grows(k, width);
  }

  lemma InRange(size: Positive, wordBits: Positive, index: nat)
    requires index < size
    ensures WordOf(index, wordBits) < NumWords(size, wordBits)
  {
    WordsReach(size, wordBits);
    WordInRange(index, NumWords(size, wordBits), wordBits);
  }

  /** What the mask keeps has a word. */
  lemma KeptInWords(size: Positive, wordBits: Positive)
    ensures forall p: nat :: p < Kept(size, wordBits) ==> WordOf(p, wordBits) < NumWords(size, wordBits)
  {
    MaskKeepsAllIff(size, wordBits);
    forall p: nat | p < Kept(size, wordBits) { InRange(size, wordBits, p); }
  }

  lemma FilledMember(words: seq<nat>, wordBits: Positive, value: bool, p: nat)
    requires forall k :: 0 <= k < |words| ==> words[k] == if value then Not(0, wordBits) else 0
    ensures Member(words, wordBits, p) <==> value && WordOf(p, wordBits) < |words|
  {
    ZeroBits(PlaceOf(p, wordBits));
    NotBit(0, wordBits, PlaceOf(p, wordBits));
  }

  ghost predicate Negated(words: seq<nat>, not: seq<nat>, wordBits: Positive) {
    && |words| == |not| && Fits(words, wordBits)
    && forall k :: 0 <= k < |words| ==> words[k] < Pow2(wordBits) && not[k] == Not(words[k], wordBits)
  }

  lemma NegatedMember(words: seq<nat>, not: seq<nat>, wordBits: Positive, p: nat)
    requires Negated(words, not, wordBits)
    ensures Member(not, wordBits, p) <==> !Member(words, wordBits, p) && WordOf(p, wordBits) < |words|
  {
    if WordOf(p, wordBits) < |words| {
      NotBit(words[WordOf(p, wordBits)], wordBits, PlaceOf(p, wordBits));
    }
  }

  lemma NotFits(words: seq<nat>, not: seq<nat>, wordBits: Positive)
    requires Negated(words, not, wordBits)
    ensures Fits(not, wordBits)
  {
  }

  lemma NoMembers(words: seq<nat>, wordBits: Positive)
    ensures MembersBelow(words, wordBits, 0) == []
  {
  }

  /** A word that is not zero has a member. */
  lemma SomeMember(words: seq<nat>, wordBits: Positive, k: nat)
    requires Fits(words, wordBits) && k < |words| && words[k] != 0
    ensures exists p: nat :: Member(words, wordBits, p)
  {
    var i := LsbIndex(words[k]);
    LsbBit(words[k], 0);
    if i >= wordBits { HighBits(words[k], wordBits, i); }
    PositionIs(k, i, wordBits);
    assert Member(words, wordBits, Start(k, wordBits) + i);
  }

  /** Equal members mean equal words. */
  lemma SameWord(a: seq<nat>, b: seq<nat>, wordBits: Positive, k: nat)
    requires Fits(a, wordBits) && Fits(b, wordBits) && k < |a| == |b|
    requires forall p: nat :: Member(a, wordBits, p) <==> Member(b, wordBits, p)
    ensures a[k] == b[k]
  {
    forall i: nat | i < wordBits
      ensures Bit(a[k], i) <==> Bit(b[k], i)
    {
      PositionIs(k, i, wordBits);
      var p := Start(k, wordBits) + i;
      assert Member(a, wordBits, p) <==> Member(b, wordBits, p);
    }
    SameBits(a[k], b[k], wordBits);
  }

  // ---------------------------------------------------------------- the class

  class Bitset {
    const size: Positive
    const wordBits: Positive
    const words: array<nat>

    /** The words of a new bitset hold anything. */
    constructor (size: Positive, wordBits: Positive)
      ensures this.size == size && this.wordBits == wordBits && fresh(words) && Valid()
    {
      this.size, this.wordBits := size, wordBits;
      words := new nat[NumWords(size, wordBits)](_ => 0);
    }

    ghost predicate Valid()
      reads words
    {
      words.Length == NumWords(size, wordBits) && Fits(words[..], wordBits)
    }

    ghost predicate Has(p: nat)
      reads words
    {
      Member(words[..], wordBits, p)
    }

    /** The padding of the last word is zero. */
    ghost predicate Clean()
      reads words
    {
      forall p: nat :: Has(p) ==> p < size
    }

    /** Its members in order. */
    ghost function Contents(): seq<nat>
      reads words
    {
      MembersBelow(words[..], wordBits, size)
    }

    method MaskLastWord()
      requires Valid()
      modifies words
      ensures Valid() && Clean()
      ensures forall p: nat :: Has(p) <==> old(Has(p)) && p < Kept(size, wordBits)
    {
      hide Member, Kept, NumWords, And, Pow2;
      WordsReach(size, wordBits);
      ghost var was := words[..];
      var last := words.Length - 1;
      MaskFits(size % wordBits, wordBits);
      OpsFit(words[last], Pow2(size % wordBits) - 1, wordBits);
      words[last] := And(words[last], Pow2(size % wordBits) - 1);
      assert words[..] == was[last := And(was[last], Pow2(size % wordBits) - 1)];
      forall p: nat
        ensures Has(p) <==> Member(was, wordBits, p) && p < Kept(size, wordBits)
      {
        MaskedMember(was, wordBits, size, p);
      }
      MaskKeepsAllIff(size, wordBits);
    }

    /** Filled with true, it holds the numbers that the mask keeps: all of them unless the size is a
        multiple of the word width. */
    method Fill(value: bool)
      requires Valid()
      modifies words
      ensures Valid() && Clean()
      ensures forall p: nat :: Has(p) <==> value && p < Kept(size, wordBits)
    {
      hide Kept, NumWords;
      for i := 0 to words.Length
        invariant forall k :: 0 <= k < i ==> words[k] == if value then Not(0, wordBits) else 0
        invariant forall k :: i <= k < words.Length ==> words[k] == old(words[k])
      {
        words[i] := if value then Not(0, wordBits) else 0;
      }
      forall p: nat { FilledMember(words[..], wordBits, value, p); }
      if value {
        MaskLastWord();
        KeptInWords(size, wordBits);
      }
    }

    method Set(index: nat, value: bool)
      requires Valid() && index < size
      modifies words
      ensures Valid()
      ensures forall p: nat :: Has(p) <==> if p == index then value else old(Has(p))
    {
      hide Bit, WordOf, PlaceOf, NumWords, Member;
      InRange(size, wordBits, index);
      ghost var was := words[..];
      var k, i := WordOf(index, wordBits), PlaceOf(index, wordBits);
      forall j: nat { BitChanged(was[k], i, wordBits, j); }
      BitChanged(was[k], i, wordBits, 0);
      if value {
        words[k] := Or(words[k], Shl(1, i));
      } else {
        words[k] := And(words[k], Not(Shl(1, i), wordBits));
      }
      assert words[..] == was[k := words[k]];
      forall p: nat
        ensures Has(p) <==> if p == index then value else Member(was, wordBits, p)
      {
        OneMember(was, wordBits, index, words[k], value, p);
      }
    }

    method Get(index: nat) returns (value: bool)
      requires Valid() && index < size
      ensures value <==> Has(index)
    {
      InRange(size, wordBits, index);
      ShrBit(words[WordOf(index, wordBits)], PlaceOf(index, wordBits), 0);
      value := Shr(words[WordOf(index, wordBits)], PlaceOf(index, wordBits)) % 2 == 1;
    }

    /** The number of members; bits of the padding would be counted too. */
    method Count() returns (count: nat)
      requires Valid()
      ensures count == |MembersBelow(words[..], wordBits, Start(words.Length, wordBits))|
      ensures Clean() ==> count == |Contents()|
    {
      hide MembersBelow, Member;
      count := 0;
      NextStart(0, wordBits);
      NoMembers(words[..], wordBits);
      for i := 0 to words.Length
        invariant count == |MembersBelow(words[..], wordBits, Start(i, wordBits))|
      {
        WordCount(words[..], wordBits, i, wordBits);
        LowAll(words[i], wordBits);
        NextStart(i, wordBits);
        count := count + Popcount(words[i]);
      }
      WordsReach(size, wordBits);
      if Clean() {
        assert forall p: nat :: Member(words[..], wordBits, p) ==> Has(p);
        MembersSkip(words[..], wordBits, size, Start(words.Length, wordBits));
      }
    }

    method IsNone() returns (none: bool)
      requires Valid()
      ensures none <==> forall p: nat :: !Has(p)
    {
      for i := 0 to words.Length
        invariant forall k :: 0 <= k < i ==> words[k] == 0
      {
        if words[i] != 0 {
          SomeMember(words[..], wordBits, i);
          ghost var p: nat :| Member(words[..], wordBits, p);
          assert Has(p);
          return false;
        }
      }
      forall p: nat { ZeroBits(PlaceOf(p, wordBits)); }
      return true;
    }

    /** operator~: the complement within what the mask keeps. */
    method Complement() returns (res: Bitset)
      requires Valid()
      ensures fresh(res) && fresh(res.words) && res.Valid() && res.Clean()
      ensures res.size == size && res.wordBits == wordBits
      ensures forall p: nat :: res.Has(p) <==> !Has(p) && p < Kept(size, wordBits)
    {
      hide Kept, NumWords, Not;
      res := new Bitset(size, wordBits);
      for i := 0 to words.Length
        invariant forall k :: 0 <= k < i ==> res.words[k] == Not(words[k], wordBits)
        invariant forall k :: i <= k < words.Length ==> res.words[k] < Pow2(wordBits)
        modifies res.words
      {
        res.words[i] := Not(words[i], wordBits);
      }
      NotFits(words[..], res.words[..], wordBits);
      forall p: nat { NegatedMember(words[..], res.words[..], wordBits, p); }
      KeptInWords(size, wordBits);
      res.MaskLastWord();
    }

    method Intersection(other: Bitset) returns (res: Bitset)
      requires Valid() && other.Valid() && other.size == size && other.wordBits == wordBits
      ensures fresh(res) && fresh(res.words) && res.Valid() && res.size == size && res.wordBits == wordBits
      ensures forall p: nat :: res.Has(p) <==> Has(p) && other.Has(p)
    {
      res := new Bitset(size, wordBits);
      for i := 0 to words.Length
        invariant forall k :: 0 <= k < i ==> res.words[k] == And(words[k], other.words[k]) < Pow2(wordBits)
        invariant forall k :: i <= k < words.Length ==> res.words[k] < Pow2(wordBits)
        modifies res.words
      {
        OpsFit(words[i], other.words[i], wordBits);
        res.words[i] := And(words[i], other.words[i]);
      }
      forall p: nat | WordOf(p, wordBits) < words.Length {
        AndBit(words[WordOf(p, wordBits)], other.words[WordOf(p, wordBits)], PlaceOf(p, wordBits));
      }
    }

    method Union(other: Bitset) returns (res: Bitset)
      requires Valid() && other.Valid() && other.size == size && other.wordBits == wordBits
      ensures fresh(res) && fresh(res.words) && res.Valid() && res.size == size && res.wordBits == wordBits
      ensures forall p: nat :: res.Has(p) <==> Has(p) || other.Has(p)
    {
      res := new Bitset(size, wordBits);
      for i := 0 to words.Length
        invariant forall k :: 0 <= k < i ==> res.words[k] == Or(words[k], other.words[k]) < Pow2(wordBits)
        invariant forall k :: i <= k < words.Length ==> res.words[k] < Pow2(wordBits)
        modifies res.words
      {
        OpsFit(words[i], other.words[i], wordBits);
        res.words[i] := Or(words[i], other.words[i]);
      }
      forall p: nat | WordOf(p, wordBits) < words.Length {
        OrBit(words[WordOf(p, wordBits)], other.words[WordOf(p, wordBits)], PlaceOf(p, wordBits));
      }
    }

    method SymmetricDifference(other: Bitset) returns (res: Bitset)
      requires Valid() && other.Valid() && other.size == size && other.wordBits == wordBits
      ensures fresh(res) && fresh(res.words) && res.Valid() && res.size == size && res.wordBits == wordBits
      ensures forall p: nat :: res.Has(p) <==> Has(p) != other.Has(p)
    {
      res := new Bitset(size, wordBits);
      for i := 0 to words.Length
        invariant forall k :: 0 <= k < i ==> res.words[k] == Xor(words[k], other.words[k]) < Pow2(wordBits)
        invariant forall k :: i <= k < words.Length ==> res.words[k] < Pow2(wordBits)
        modifies res.words
      {
        OpsFit(words[i], other.words[i], wordBits);
        res.words[i] := Xor(words[i], other.words[i]);
      }
      forall p: nat | WordOf(p, wordBits) < words.Length {
        XorBit(words[WordOf(p, wordBits)], other.words[WordOf(p, wordBits)], PlaceOf(p, wordBits));
      }
    }

    /** operator==: the same members, the padding included. */
    method Equals(other: Bitset) returns (equal: bool)
      requires Valid() && other.Valid() && other.size == size && other.wordBits == wordBits
      ensures equal <==> forall p: nat :: Has(p) <==> other.Has(p)
    {
      for i := 0 to words.Length
        invariant forall k :: 0 <= k < i ==> words[k] == other.words[k]
      {
        if words[i] != other.words[i] {
          if forall p: nat :: Has(p) <==> other.Has(p) {
            assert forall p: nat :: (Member(words[..], wordBits, p) <==> Has(p)) &&
                                    (Member(other.words[..], wordBits, p) <==> other.Has(p));
            SameWord(words[..], other.words[..], wordBits, i);
          }
          return false;
        }
      }
      assert words[..] == other.words[..];
      return true;
    }
  }

  // ---------------------------------------------------------------- the iterator

  const UNSIGNED_BITS := 32   // the width of unsigned int
  const UNSIGNED_RANGE := 0x1_0000_0000

  lemma UnsignedRange()
    ensures Pow2(UNSIGNED_BITS) == UNSIGNED_RANGE
  {
    assert Pow2(4) == 16 by { assert Pow2(0) == 1 && Pow2(1) == 2 && Pow2(2) == 4 && Pow2(3) == 8; }
    Pow2Sum(4, 4);
    Pow2Sum(8, 8);
    Pow2Sum(16, 16);
  }

  /** The next member in the word of p: the lowest bit of what is left of that word. */
  lemma NextInWord(words: seq<nat>, wordBits: Positive, p: nat)
    requires Fits(words, wordBits) && WordOf(p, wordBits) < |words|
    requires Shr(words[WordOf(p, wordBits)], PlaceOf(p, wordBits)) != 0
    ensures var next := p + LsbIndex(Shr(words[WordOf(p, wordBits)], PlaceOf(p, wordBits)));
            Member(words, wordBits, next) && forall q: nat :: p <= q < next ==> !Member(words, wordBits, q)
  {
    hide WordOf, PlaceOf, Start;
    var k, i := WordOf(p, wordBits), PlaceOf(p, wordBits);
    var rest := Shr(words[k], i);
    var d := LsbIndex(rest);
    LsbBit(rest, 0);
    ShrBit(words[k], i, d);
    if d + i >= wordBits { HighBits(words[k], wordBits, d + i); }
    Position(p, wordBits);
    PositionIs(k, i + d, wordBits);
    forall q: nat | p <= q < p + d
      ensures !Member(words, wordBits, q)
    {
      PositionIs(k, i + (q - p), wordBits);
      LsbBit(rest, q - p);
      ShrBit(words[k], i, q - p);
    }
  }

  /** When nothing is left of the word of p, the search goes on at the next word. */
  lemma NoneInWord(words: seq<nat>, wordBits: Positive, p: nat)
    requires WordOf(p, wordBits) < |words|
    requires Shr(words[WordOf(p, wordBits)], PlaceOf(p, wordBits)) == 0
    ensures var next := p - PlaceOf(p, wordBits) + wordBits;
            p < next && forall q: nat :: p <= q < next ==> !Member(words, wordBits, q)
  {
    hide WordOf, PlaceOf, Start;
    var k, i := WordOf(p, wordBits), PlaceOf(p, wordBits);
    Position(p, wordBits);
    forall q: nat | p <= q < p - i + wordBits
      ensures !Member(words, wordBits, q)
    {
      PositionIs(k, i + (q - p), wordBits);
      ZeroBits(q - p);
      ShrBit(words[k], i, q - p);
    }
  }

  lemma WidthIs(e: nat, p: nat)
    requires p < UNSIGNED_RANGE && e <= UNSIGNED_BITS
    ensures Pow2(e) <= Pow2(UNSIGNED_BITS)
    ensures And(p, Not(Pow2(e) - 1, UNSIGNED_BITS)) == p - PlaceOf(p, Pow2(e))
  {
    UnsignedRange();
    AlignDown(p, e, UNSIGNED_BITS);
  }

  class ValueIterator {
    const bitset: Bitset
    ghost const e: nat   // the width of a word is 2^e
    var curValue: nat

    ghost predicate Valid()
      reads this, bitset.words
    {
      && bitset.Valid() && bitset.wordBits == Pow2(e) && e <= UNSIGNED_BITS
      && bitset.size + bitset.wordBits < UNSIGNED_RANGE
    }

    constructor (bitset: Bitset, ghost e: nat)
      requires bitset.Valid() && bitset.wordBits == Pow2(e) && e <= UNSIGNED_BITS
      requires bitset.size + bitset.wordBits < UNSIGNED_RANGE
      ensures Valid() && this.bitset == bitset && this.e == e
      ensures forall q: nat :: q < curValue ==> !bitset.Has(q)
      ensures HasValue() ==> bitset.Has(curValue)
    {
      this.bitset := bitset;
      this.e := e;
      curValue := 0;
      new;
      FindOne();
    }

    predicate HasValue()
      reads this
    {
      curValue < bitset.size
    }

    function Get(): nat
      reads this
    {
      curValue
    }

    method Advance()
      requires Valid() && HasValue()
      modifies this
      ensures Valid() && curValue > old(curValue)
      ensures forall q: nat :: old(curValue) < q < curValue ==> !bitset.Has(q)
      ensures HasValue() ==> bitset.Has(curValue)
    {
      curValue := curValue + 1;
      FindOne();
    }

    /** Turns the current value over. */
    method Flip()
      requires Valid() && HasValue()
      modifies bitset.words
      ensures Valid()
      ensures forall p: nat :: bitset.Has(p) <==> if p == curValue then !old(bitset.Has(p)) else old(bitset.Has(p))
    {
      hide Bit, WordOf, PlaceOf, NumWords, Member;
      InRange(bitset.size, bitset.wordBits, curValue);
      ghost var was := bitset.words[..];
      var k, i := WordOf(curValue, bitset.wordBits), PlaceOf(curValue, bitset.wordBits);
      forall j: nat { BitChanged(was[k], i, bitset.wordBits, j); }
      BitChanged(was[k], i, bitset.wordBits, 0);
      bitset.words[k] := Xor(bitset.words[k], Shl(1, i));
      assert bitset.words[..] == was[k := bitset.words[k]];
      ghost var value := !Bit(was[k], i);
      MemberIs(was, bitset.wordBits, curValue);
      forall p: nat
        ensures bitset.Has(p) <==> if p == curValue then value else Member(was, bitset.wordBits, p)
      {
        OneMember(was, bitset.wordBits, curValue, bitset.words[k], value, p);
      }
    }

    /** Moves on to the first member that is not before the current value. */
    method FindOne()
      requires Valid()
      modifies this
      ensures Valid() && curValue >= old(curValue)
      ensures forall q: nat :: old(curValue) <= q < curValue ==> !bitset.Has(q)
      ensures HasValue() ==> bitset.Has(curValue)
    {
      hide WordOf, PlaceOf, NumWords, Member, Shr, And, Pow2, Not;
      var words := bitset.words;
      var wordBits: nat := bitset.wordBits;
      while curValue < bitset.size
        invariant curValue >= old(curValue)
        invariant forall q: nat :: old(curValue) <= q < curValue ==> !Member(words[..], wordBits, q)
        decreases bitset.size - curValue
      {
        InRange(bitset.size, wordBits, curValue);
        var rest := Shr(words[WordOf(curValue, wordBits)], PlaceOf(curValue, wordBits));
        if rest != 0 {
          NextInWord(words[..], wordBits, curValue);
          curValue := curValue + LsbIndex(rest);
          assert bitset.Has(curValue);
          break;
        } else {
          NoneInWord(words[..], wordBits, curValue);
          WidthIs(e, curValue);
          curValue := And(curValue, Not(wordBits - 1, UNSIGNED_BITS));
          curValue := curValue + wordBits;
        }
      }
    }
  }

  /** p was yielded and turned over. */
  ghost predicate Flipped(flips: seq<bool>, yielded: seq<nat>, p: nat) {
    exists i :: 0 <= i < |yielded| && i < |flips| && flips[i] && yielded[i] == p
  }

  lemma FlippedNext(flips: seq<bool>, yielded: seq<nat>, c: nat, p: nat)
    ensures Flipped(flips, yielded + [c], p) <==>
            Flipped(flips, yielded, p) || (|yielded| < |flips| && flips[|yielded|] && p == c)
  {
    var next := yielded + [c];
    if Flipped(flips, yielded, p) {
      var i :| 0 <= i < |yielded| && i < |flips| && flips[i] && yielded[i] == p;
      assert next[i] == p;
    }
    if |yielded| < |flips| && flips[|yielded|] && p == c { assert next[|yielded|] == p; }
  }

  /** The members below the next position that the iterator stops at. */
  lemma MembersNext(words: seq<nat>, wordBits: Positive, cur: nat, next: nat)
    requires cur < next && Member(words, wordBits, cur)
    requires forall q: nat :: cur < q < next ==> !Member(words, wordBits, q)
    ensures MembersBelow(words, wordBits, next) == MembersBelow(words, wordBits, cur) + [cur]
  {
    MembersSkip(words, wordBits, cur + 1, next);
  }

  /** A use of the iterator: every member is yielded once, in increasing order, also when yielded
      values are turned over on the way; flips[i] says whether the i-th is. */
  method Traverse(bitset: Bitset, ghost e: nat, flips: seq<bool>) returns (yielded: seq<nat>)
    requires bitset.Valid() && bitset.wordBits == Pow2(e) && e <= UNSIGNED_BITS
    requires bitset.size + bitset.wordBits < UNSIGNED_RANGE
    modifies bitset.words
    ensures bitset.Valid() && yielded == old(bitset.Contents())
    ensures forall p: nat :: bitset.Has(p) <==> old(bitset.Has(p)) && !Flipped(flips, yielded, p)
  {
    hide MembersBelow, Member, NumWords, Flipped, Pow2;
    yielded := [];
    ghost var was := bitset.words[..];
    ghost var wordBits := bitset.wordBits;
    forall p: nat
      ensures bitset.Has(p) <==> Member(was, wordBits, p)
      ensures !Flipped(flips, yielded, p)
    {
      NoneFlipped(flips, p);
    }
    var it := new ValueIterator(bitset, e);
    NoMembers(was, wordBits);
    forall q: nat | q < it.curValue
      ensures !Member(was, wordBits, q)
    {
      assert !bitset.Has(q);
    }
    MembersSkip(was, wordBits, 0, it.curValue);
    if it.curValue >= bitset.size { MembersSkip(was, wordBits, 0, bitset.size); }
    while it.HasValue()
      invariant it.Valid() && it.bitset == bitset && it.e == e
      invariant yielded == MembersBelow(was, wordBits, it.curValue)
      invariant !it.HasValue() ==> yielded == MembersBelow(was, wordBits, bitset.size)
      invariant forall p: nat :: p >= it.curValue ==> !Flipped(flips, yielded, p)
      invariant it.HasValue() ==> bitset.Has(it.curValue)
      invariant forall p: nat :: bitset.Has(p) <==> Member(was, wordBits, p) && !Flipped(flips, yielded, p)
      decreases bitset.size - it.curValue
    {
      ghost var cur, before := it.curValue, yielded;
      if |yielded| < |flips| && flips[|yielded|] {
        it.Flip();
      }
      yielded := yielded + [it.Get()];
      forall p: nat { FlippedNext(flips, before, cur, p); }
      it.Advance();
      forall q: nat | cur < q < it.curValue
        ensures !Member(was, wordBits, q)
      {
        assert !bitset.Has(q);
      }
      MembersNext(was, wordBits, cur, it.curValue);
      if !it.HasValue() { MembersSkip(was, wordBits, bitset.size, it.curValue); }
    }
  }

  lemma NoneFlipped(flips: seq<bool>, p: nat)
    ensures !Flipped(flips, [], p)
  {
  }
}
