/** Numbers of any width written one after the other into words: src/jw_util/bitinterface.h. */
module BitInterface {
  import opened Bits
  import opened Powers
  import opened Packed

  /** The elements that n bits take. */
  function Elements(n: nat, wordBits: Positive): nat
  {
    (n + wordBits - 1) / wordBits
  }

  lemma ElementsIs(word: nat, curBit: nat, wordBits: Positive)
    requires curBit <= wordBits && wordBits > 0
    ensures Elements(Start(word, wordBits) + curBit, wordBits) == word + if curBit > 0 then 1 else 0
  {
    var n := Start(word, wordBits) + curBit;
    NextStart(word, wordBits);
    if curBit == 0 {
      PositionIs(word, wordBits - 1, wordBits);
    } else {
      PositionIs(word + 1, curBit - 1, wordBits);
    }
  }

  /** The width of an int, in which a single bit is shifted to its place. */
  const INT_BITS: nat := 32

  /** The element type: its width, and what shifting a bit by the width of an int or more happens to give, which the
      language leaves open. */
  datatype Element = Element(bits: Positive, overshift: (bool, nat) -> nat)

  /** bit << cur_bit as a number of the element type: shifted into the sign of an int, a bit is extended. */
  function IntShift(element: Element, bit: bool, k: nat): (m: nat)
    requires k < element.bits
    ensures m < Pow2(element.bits)
  {
    ShlFits(k, element.bits);
    ZeroFits(k, element.bits);
    if k >= INT_BITS then element.overshift(bit, k) % Pow2(element.bits)
    else if bit && k == INT_BITS - 1 && element.bits > INT_BITS then
      Pow2Grows(k, element.bits);
      Not(Pow2(k) - 1, element.bits)
    else Shl(Digit(bit), k)
  }

  lemma ZeroFits(k: nat, width: nat)
    ensures Shl(0, k) < Pow2(width)
  {
    ShlZero(k);
  }

  /** Writing a bit at q sets bit p. */
  ghost predicate Sets(element: Element, bit: bool, q: nat, p: nat)
  {
    && WordOf(p, element.bits) == WordOf(q, element.bits)
    && Bit(IntShift(element, bit, PlaceOf(q, element.bits)), PlaceOf(p, element.bits))
  }

  /** In elements of up to 32 bits, and below the last place of an int in others, a bit is set alone. */
  lemma SetsAlone(element: Element, bit: bool, q: nat, p: nat)
    requires element.bits <= 32 || PlaceOf(q, element.bits) < 31
    ensures Sets(element, bit, q, p) <==> bit && p == q
  {
    hide WordOf, PlaceOf, Bit, Shl, Pow2;
    Position(p, element.bits);
    Position(q, element.bits);
    OneBit(PlaceOf(q, element.bits), PlaceOf(p, element.bits));
    ShlZero(PlaceOf(q, element.bits));
    ZeroBits(PlaceOf(p, element.bits));
  }

  /** In wider ones the last bit of an int sets all that follow it in the element. */
  lemma SignSets(element: Element, bit: bool, word: nat, j: nat)
    requires 32 < element.bits && j < element.bits
    ensures Sets(element, bit, Start(word, element.bits) + 31, Start(word, element.bits) + j) <==> bit && 31 <= j
  {
    hide Bit, Shl, Pow2, WordOf, PlaceOf, Start;
    PositionIs(word, 31, element.bits);
    PositionIs(word, j, element.bits);
    Pow2Grows(31, element.bits);
    NotBit(Pow2(31) - 1, element.bits, j);
    MaskBit(31, j);
    ShlZero(31);
    ZeroBits(j);
  }

  /** ORing into one word. */
  lemma OrMember(words: seq<nat>, wordBits: Positive, index: nat, m: nat, p: nat)
    requires WordOf(index, wordBits) < |words|
    ensures var k := WordOf(index, wordBits);
            Member(words[k := Or(words[k], m)], wordBits, p) <==>
              Member(words, wordBits, p) || (WordOf(p, wordBits) == k && Bit(m, PlaceOf(p, wordBits)))
  {
    hide WordOf, PlaceOf, Bit, Or;
    OrBit(words[WordOf(index, wordBits)], m, PlaceOf(p, wordBits));
  }

  /** A position in an array of words, to read or to write at. */
  class BitInterface {
    const data: array<nat>
    const element: Element
    var word: nat     // where the pointer is, counted from the start of the array
    var curBit: nat

    constructor (data: array<nat>, element: Element)
      requires Fits(data[..], element.bits)
      ensures this.data == data && this.element == element && Valid() && Pos() == 0
    {
      this.data, this.element := data, element;
      word, curBit := 0, 0;
      new;
      NextStart(0, element.bits);
    }

    ghost predicate Valid()
      reads this, data
    {
      0 < element.bits && curBit <= element.bits && Fits(data[..], element.bits)
    }

    /** How many bits have been passed. */
    ghost function Pos(): nat
      reads this
    {
      Start(word, element.bits) + curBit
    }

    /** How many bits there are. */
    ghost function Capacity(): nat
      reads this
    {
      Start(data.Length, element.bits)
    }

    /** Goes to the next word at the end of one; the position is the same. */
    method LoadWord()
      requires Valid() && Pos() < Capacity()
      modifies this
      ensures Valid() && Pos() == old(Pos()) && curBit < element.bits && word < data.Length
      ensures word == WordOf(Pos(), element.bits) && curBit == PlaceOf(Pos(), element.bits)
    {
      if curBit == element.bits {
        NextStart(word, element.bits);
        word := word + 1;
        curBit := 0;
      }
      PositionIs(word, curBit, element.bits);
      WordInRange(Pos(), data.Length, element.bits);
    }

    method ReadBit() returns (val: bool)
      requires Valid() && Pos() < Capacity()
      modifies this
      ensures Valid() && Pos() == old(Pos()) + 1
      ensures val <==> Member(data[..], element.bits, old(Pos()))
    {
      hide Start, WordOf, PlaceOf;
      LoadWord();
      ShrBit(data[word], curBit, 0);
      val := And(Shr(data[word], curBit), 1) == 1;
      AndOne(Shr(data[word], curBit));
      curBit := curBit + 1;
    }

    /** ORs a bit in: a bit that is set already stays set. */
    method WriteBit(bit: bool)
      requires Valid() && Pos() < Capacity()
      modifies this, data
      ensures Valid() && Pos() == old(Pos()) + 1
      ensures forall p: nat :: Member(data[..], element.bits, p) <==>
                old(Member(data[..], element.bits, p)) || Sets(element, bit, old(Pos()), p)
    {
      hide Start, WordOf, PlaceOf, Member, Bit, IntShift;
      LoadWord();
      ghost var was, p0 := data[..], Pos();
      var m := IntShift(element, bit, curBit);
      forall p: nat { OrMember(was, element.bits, p0, m, p); }
      OpsFit(data[word], m, element.bits);
      data[word] := Or(data[word], m);
      assert data[..] == was[word := data[word]];
      curBit := curBit + 1;
    }

    /** Writes the lowest bits of a number, the lowest first. */
    method WriteNumberRaw(num: nat, bits: nat)
      requires Valid() && Pos() + bits <= Capacity()
      modifies this, data
      ensures Valid() && Pos() == old(Pos()) + bits
      ensures forall p: nat :: Member(data[..], element.bits, p) <==>
                old(Member(data[..], element.bits, p)) || Writes(element, num, bits, old(Pos()), p)
    {
      hide Member, Bit, Start;
      var rest := num;
      ghost var start := Pos();
      for i := 0 to bits
        invariant Valid() && Pos() == start + i && rest == Shr(num, i)
        invariant forall p: nat :: Member(data[..], element.bits, p) <==>
                old(Member(data[..], element.bits, p)) || Writes(element, num, i, start, p)
      {
        ShrBit(num, i, 0);
        ShrNext(num, i);
        AndOne(rest);
        forall p: nat { WritesNext(element, num, i, start, p); }
        WriteBit(And(rest, 1) == 1);
        rest := Shr(rest, 1);
      }
    }

    method ReadNumberRaw(bits: nat) returns (num: nat)
      requires Valid() && Pos() + bits <= Capacity()
      modifies this
      ensures Valid() && Pos() == old(Pos()) + bits && num < Pow2(bits)
      ensures forall i: nat :: i < bits ==> (Bit(num, i) <==> Member(data[..], element.bits, old(Pos()) + i))
    {
      hide Member, Bit, Start;
      num := 0;
      ghost var start := Pos();
      for i := 0 to bits
        invariant Valid() && Pos() == start + i && num < Pow2(i)
        invariant forall k: nat :: k < i ==> (Bit(num, k) <==> Member(data[..], element.bits, start + k))
      {
        var bit := ReadBit();
        ghost var was := num;
        num := Or(num, Shl(Digit(bit), i));
        TopBit(was, i, bit);
      }
    }

    function GetElementDelta(): (n: nat)
      requires Valid()
      reads this, data
      ensures n == Elements(Pos(), element.bits)
      ensures Pos() <= n * element.bits < Pos() + element.bits
    {
      ElementsIs(word, curBit, element.bits);
      word + if curBit > 0 then 1 else 0
    }

    function GetBitDelta(): (n: nat)
      requires Valid()
      reads this, data
      ensures n == Pos()
    {
      word * element.bits + curBit
    }
  }

  lemma AndOne(w: nat)
    ensures And(w, 1) == 1 <==> Bit(w, 0)
  {
    if w > 0 { assert And(w / 2, 0) == 0; }
  }

  lemma {:induction false} ShlZero(k: nat)
    ensures Shl(0, k) == 0
  {
    if k > 0 { ShlZero(k - 1); }
  }

  lemma {:induction false} ShrNext(w: nat, k: nat)
    ensures Shr(w, k + 1) == Shr(Shr(w, k), 1)
  {
    if k > 0 { ShrNext(w / 2, k - 1); }
  }

  /** Writing the number at start sets bit p. */
  ghost predicate Writes(element: Element, num: nat, bits: nat, start: nat, p: nat)
  {
    exists i: nat :: i < bits && Sets(element, Bit(num, i), start + i, p)
  }

  lemma WritesNext(element: Element, num: nat, i: nat, start: nat, p: nat)
    ensures Writes(element, num, i + 1, start, p) <==>
            Writes(element, num, i, start, p) || Sets(element, Bit(num, i), start + i, p)
  {
  }

  /** In elements no wider than an int each bit of the number is written to its own place. */
  lemma WritesAlone(element: Element, num: nat, bits: nat, start: nat, p: nat)
    requires element.bits <= INT_BITS
    ensures Writes(element, num, bits, start, p) <==> start <= p < start + bits && Bit(num, p - start)
  {
    hide Sets, Bit;
    forall i: nat { SetsAlone(element, Bit(num, i), start + i, p); }
    if start <= p < start + bits && Bit(num, p - start) {
      var i: nat := p - start;
      assert Sets(element, Bit(num, i), start + i, p);
    }
  }

  /** ORing a bit in above all others. */
  lemma TopBit(w: nat, i: nat, bit: bool)
    requires w < Pow2(i)
    ensures Or(w, Shl(Digit(bit), i)) < Pow2(i + 1)
    ensures forall k: nat :: k <= i ==> (Bit(Or(w, Shl(Digit(bit), i)), k) <==> if k == i then bit else Bit(w, k))
  {
    var top := Shl(Digit(bit), i);
    OneBit(i, i);
    ShlZero(i);
    OpsFit(w, top, i + 1);
    forall k: nat | k <= i
      ensures Bit(Or(w, top), k) <==> if k == i then bit else Bit(w, k)
    {
      OrBit(w, top, k);
      OneBit(i, k);
      ZeroBits(k);
      if k == i { HighBits(w, i, i); }
    }
  }

  // ---------------------------------------------------------------- round trips

  datatype Field = Field(num: nat, bits: nat)

  /** The bits that the first k fields take. */
  function Total(fields: seq<Field>, k: nat): nat
    requires k <= |fields|
  {
    if k == 0 then 0 else Total(fields, k - 1) + fields[k - 1].bits
  }

  lemma {:induction false} TotalGrows(fields: seq<Field>, k: nat, n: nat)
    requires k <= n <= |fields|
    ensures Total(fields, k) <= Total(fields, n)
  {
    if k < n { TotalGrows(fields, k, n - 1); }
  }

  lemma TotalNext(fields: seq<Field>, k: nat)
    requires k < |fields|
    ensures Total(fields, k + 1) == Total(fields, k) + fields[k].bits
  {
  }

  /** A number is determined by the bits that are read back: it is the remainder modulo 2^bits. */
  lemma ReadsBack(num: nat, bits: nat, read: nat)
    requires read < Pow2(bits) && forall i: nat :: i < bits ==> (Bit(read, i) <==> Bit(num, i))
    ensures read == num % Pow2(bits)
  {
    LowBit(num, bits, 0);
    forall i: nat | i < bits
      ensures Bit(Low(num, bits), i) <==> Bit(read, i)
    {
      LowBit(num, bits, i);
    }
    SameBits(Low(num, bits), read, bits);
    LowIsRemainder(num, bits);
  }

  /** Writing the first k fields from start on sets bit p. */
  ghost predicate WritesAny(element: Element, fields: seq<Field>, k: nat, start: nat, p: nat)
    requires k <= |fields|
  {
    k > 0 &&
    (WritesAny(element, fields, k - 1, start, p) ||
     Writes(element, fields[k - 1].num, fields[k - 1].bits, start + Total(fields, k - 1), p))
  }

  /** In elements no wider than an int fields do not touch each other. */
  lemma {:induction false} WritesOwn(element: Element, fields: seq<Field>, n: nat, start: nat, k: nat, i: nat)
    requires element.bits <= INT_BITS && n <= |fields| && k < |fields| && i < fields[k].bits
    ensures WritesAny(element, fields, n, start, start + Total(fields, k) + i) <==> k < n && Bit(fields[k].num, i)
  {
    hide Writes, Bit;
    if n > 0 {
      WritesOwn(element, fields, n - 1, start, k, i);
      WritesAlone(element, fields[n - 1].num, fields[n - 1].bits, start + Total(fields, n - 1),
                  start + Total(fields, k) + i);
      if k < n - 1 { TotalGrows(fields, k + 1, n - 1); }
      if k > n - 1 { TotalGrows(fields, n, k); }
    }
  }

  /** The bits after writing: those from before, and those of the fields. */
  ghost predicate Overlaid(words: seq<nat>, was: seq<nat>, element: Element, fields: seq<Field>, k: nat, start: nat)
  {
    k <= |fields| &&
    forall p: nat ::
      Member(words, element.bits, p) <==>
        Member(was, element.bits, p) || WritesAny(element, fields, k, start, p)
  }

  /** What is read in the place of field k: the bits that were set there, and those that are written there. */
  ghost predicate ReadOver(read: nat, was: seq<nat>, element: Element, fields: seq<Field>, k: nat, start: nat)
  {
    && k < |fields|
    && read < Pow2(fields[k].bits)
    && forall i: nat :: i < fields[k].bits ==>
         (Bit(read, i) <==> Member(was, element.bits, start + Total(fields, k) + i) ||
                            WritesAny(element, fields, |fields|, start, start + Total(fields, k) + i))
  }

  /** The bits that are set in a field's place before it is written. */
  ghost predicate HasAllOf(was: seq<nat>, wordBits: Positive, field: Field, start: nat)
  {
    forall i: nat :: i < field.bits && Member(was, wordBits, start + i) ==> Bit(field.num, i)
  }

  method WriteAll(writer: BitInterface, fields: seq<Field>)
    requires writer.Valid() && writer.Pos() + Total(fields, |fields|) <= writer.Capacity()
    modifies writer, writer.data
    ensures writer.Valid() && writer.Pos() == old(writer.Pos()) + Total(fields, |fields|)
    ensures Overlaid(writer.data[..], old(writer.data[..]), writer.element, fields, |fields|, old(writer.Pos()))
  {
    hide Member, Bit, Start, Pow2, Total, Writes;
    ghost var was, start := writer.data[..], writer.Pos();
    NoneTotal(fields);
    for k := 0 to |fields|
      invariant writer.Valid() && writer.Pos() == start + Total(fields, k)
      invariant Overlaid(writer.data[..], was, writer.element, fields, k, start)
    {
      TotalNext(fields, k);
      TotalGrows(fields, k + 1, |fields|);
      writer.WriteNumberRaw(fields[k].num, fields[k].bits);
    }
  }

  method ReadAll(reader: BitInterface, fields: seq<Field>, ghost was: seq<nat>) returns (read: seq<nat>)
    requires reader.Valid() && reader.Pos() + Total(fields, |fields|) <= reader.Capacity()
    requires Overlaid(reader.data[..], was, reader.element, fields, |fields|, reader.Pos())
    modifies reader
    ensures |read| == |fields|
    ensures forall k: nat :: k < |fields| ==> ReadOver(read[k], was, reader.element, fields, k, old(reader.Pos()))
  {
    hide Member, Bit, Start, Pow2, Total, WritesAny;
    ghost var start := reader.Pos();
    NoneTotal(fields);
    read := [];
    for k := 0 to |fields|
      invariant reader.Valid() && reader.Pos() == start + Total(fields, k)
      invariant |read| == k && forall j: nat :: j < k ==> ReadOver(read[j], was, reader.element, fields, j, start)
    {
      TotalNext(fields, k);
      TotalGrows(fields, k + 1, |fields|);
      var num := reader.ReadNumberRaw(fields[k].bits);
      read := read + [num];
    }
  }

  /** Fields are written at any position of a buffer that need not be zero, and read again: in elements no wider than
      an int each is read back if and only if its number has every bit that was set in its place. */
  method WriteThenRead(writer: BitInterface, reader: BitInterface, fields: seq<Field>) returns (read: seq<nat>)
    requires writer != reader && writer.Valid() && reader.Valid()
    requires writer.data == reader.data && writer.element == reader.element
    requires writer.Pos() == reader.Pos()
    requires writer.Pos() + Total(fields, |fields|) <= writer.Capacity()
    modifies writer, reader, writer.data
    ensures |read| == |fields|
    ensures forall k: nat :: k < |fields| ==>
              ReadOver(read[k], old(writer.data[..]), writer.element, fields, k, old(writer.Pos()))
    ensures writer.element.bits <= INT_BITS ==> forall k: nat :: k < |fields| ==>
              (read[k] == fields[k].num % Pow2(fields[k].bits) <==>
               HasAllOf(old(writer.data[..]), writer.element.bits, fields[k], old(writer.Pos()) + Total(fields, k)))
  {
    hide Member, Bit, Start, Pow2, Overlaid, Total, ReadOver, HasAllOf;
    ghost var was, start := writer.data[..], writer.Pos();
    WriteAll(writer, fields);
    read := ReadAll(reader, fields, was);
    if writer.element.bits <= INT_BITS {
      forall k: nat | k < |fields| { ReadOverIff(read[k], was, writer.element, fields, k, start); }
    }
  }

  lemma NoneTotal(fields: seq<Field>)
    ensures Total(fields, 0) == 0
  {
  }

  lemma ReadOverIff(read: nat, was: seq<nat>, element: Element, fields: seq<Field>, k: nat, start: nat)
    requires element.bits <= INT_BITS && k < |fields| && ReadOver(read, was, element, fields, k, start)
    ensures read == fields[k].num % Pow2(fields[k].bits) <==>
            HasAllOf(was, element.bits, fields[k], start + Total(fields, k))
  {
    hide Member, Bit, Pow2, WritesAny, Total;
    var at := start + Total(fields, k);
    forall i: nat | i < fields[k].bits
      ensures Bit(read, i) <==> Member(was, element.bits, at + i) || Bit(fields[k].num, i)
    {
      WritesOwn(element, fields, |fields|, start, k, i);
    }
    SameIff(fields[k].num, fields[k].bits, read);
  }

  ghost predicate SameLowBits(a: nat, b: nat, bits: nat) {
    forall i: nat :: i < bits ==> (Bit(a, i) <==> Bit(b, i))
  }

  /** A number is read back if and only if all its bits are. */
  lemma SameIff(num: nat, bits: nat, read: nat)
    requires read < Pow2(bits)
    ensures read == num % Pow2(bits) <==> SameLowBits(read, num, bits)
  {
    LowIsRemainder(num, bits);
    if SameLowBits(read, num, bits) {
      ReadsBack(num, bits, read);
    }
    if read == Low(num, bits) {
      forall i: nat | i < bits
        ensures Bit(read, i) <==> Bit(num, i)
      {
        LowBit(num, bits, i);
      }
    }
  }

  /** When the fields are written one after the other from the start of a zeroed buffer, each bit of field k is set
      there if and only if it is set in the number. */
  ghost predicate FieldTrips(element: Element, fields: seq<Field>, k: nat)
  {
    k < |fields| &&
    forall i: nat :: i < fields[k].bits ==>
      (WritesAny(element, fields, |fields|, 0, Total(fields, k) + i) <==> Bit(fields[k].num, i))
  }

  ghost predicate RoundTrips(element: Element, fields: seq<Field>)
  {
    forall k: nat :: k < |fields| ==> FieldTrips(element, fields, k)
  }

  /** The fields that are written into a zeroed buffer are read back, each modulo 2 to its width, if and only if they
      can be read back from elements of this type. */
  method RoundTrip(data: array<nat>, element: Element, fields: seq<Field>)
    returns (read: seq<nat>, bitDelta: nat, elementDelta: nat)
    requires forall k :: 0 <= k < data.Length ==> data[k] == 0
    requires Total(fields, |fields|) <= Start(data.Length, element.bits)
    modifies data
    ensures |read| == |fields|
    ensures (forall k :: 0 <= k < |fields| ==> read[k] == fields[k].num % Pow2(fields[k].bits)) <==>
            RoundTrips(element, fields)
    ensures bitDelta == Total(fields, |fields|)
    ensures elementDelta == Elements(bitDelta, element.bits)
  {
    hide Member, Bit, Start, Pow2, Overlaid, Elements, ReadOver, RoundTrips;
    ghost var was := data[..];
    ZeroFitsAll(was, element.bits);
    var writer := new BitInterface(data, element);
    WriteAll(writer, fields);
    bitDelta := writer.GetBitDelta();
    elementDelta := writer.GetElementDelta();

    var reader := new BitInterface(data, element);
    read := ReadAll(reader, fields, was);
    AllReadIff(read, was, element, fields);
  }

  lemma ZeroFitsAll(words: seq<nat>, wordBits: Positive)
    requires forall k :: 0 <= k < |words| ==> words[k] == 0
    ensures Fits(words, wordBits) && forall p: nat :: !Member(words, wordBits, p)
  {
    forall p: nat { ZeroBits(PlaceOf(p, wordBits)); }
  }

  lemma AllReadIff(read: seq<nat>, was: seq<nat>, element: Element, fields: seq<Field>)
    requires |read| == |fields| && forall p: nat :: !Member(was, element.bits, p)
    requires forall k: nat :: k < |fields| ==> ReadOver(read[k], was, element, fields, k, 0)
    ensures (forall k :: 0 <= k < |fields| ==> read[k] == fields[k].num % Pow2(fields[k].bits)) <==>
            RoundTrips(element, fields)
  {
    hide Member, Bit, Pow2, WritesAny, Total;
    forall k: nat | k < |fields|
      ensures read[k] == fields[k].num % Pow2(fields[k].bits) <==>
              FieldTrips(element, fields, k)
    {
      assert ReadOver(read[k], was, element, fields, k, 0);
      SameIff(fields[k].num, fields[k].bits, read[k]);
    }
  }

  /** All field lists are read back if and only if an element is no wider than an int. */
  lemma RoundTripsIff(element: Element)
    ensures (forall fields: seq<Field> :: RoundTrips(element, fields)) <==> element.bits <= 32
  {
    hide RoundTrips;
    if element.bits <= INT_BITS {
      forall fields: seq<Field> { NarrowRoundTrips(element, fields); }
    } else {
      WideFails(element);
    }
  }

  lemma NarrowRoundTrips(element: Element, fields: seq<Field>)
    requires element.bits <= INT_BITS
    ensures RoundTrips(element, fields)
  {
    hide WritesAny, Total, Bit;
    forall k: nat | k < |fields|
      ensures FieldTrips(element, fields, k)
    {
      forall i: nat | i < fields[k].bits { WritesOwn(element, fields, |fields|, 0, k, i); }
    }
  }

  /** The failing list: the last bit of an int, and zeros up to the end of the element.  They are read back as ones,
      whatever the shifts give that the language leaves open. */
  lemma WideFails(element: Element)
    requires element.bits > 32
    ensures !RoundTrips(element, [Field(Pow2(31), 32), Field(0, element.bits - 32)])
  {
    hide Pow2, Bit;
    var fields := [Field(Pow2(31), 32), Field(0, element.bits - 32)];
    OneBit(31, 31);
    SignSets(element, true, 0, 32);
    NextStart(0, element.bits);
    assert Writes(element, fields[0].num, fields[0].bits, 0, 32);
    assert Total(fields, 0) == 0 && Total(fields, 1) == 32;
    assert WritesAny(element, fields, 1, 0, 32) && WritesAny(element, fields, 2, 0, 32);
    ZeroBits(0);
    assert !Bit(fields[1].num, 0) && !FieldTrips(element, fields, 1);
  }
}
