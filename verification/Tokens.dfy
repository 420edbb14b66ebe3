/** The byte format of stb_decompress, src/imgui/imgui_draw.cpp: reading and writing tokens. */
module Tokens {
  import opened Adler

  /** One step of the format: copy `length` bytes from `distance` back, or take literal bytes. */
  datatype Token = Match(distance: nat, length: nat) | Literal(bytes: seq<Byte>)

  /** What stb_decompress_token finds at a position.  Overrun is a read past the end of the input,
      ShortLiteral a literal whose bytes are not all there. */
  datatype Found = Found(token: Token, next: nat) | NoToken | Overrun | ShortLiteral(length: nat)

  function At(s: seq<Byte>, i: nat): (r: nat)
    requires i < |s|
    ensures r < 0x100
  {
    s[i]
  }

  function In2(s: seq<Byte>, i: nat): (r: nat)
    requires i + 2 <= |s|
  {
    At(s, i) * 0x100 + At(s, i + 1)
  }

  function In3(s: seq<Byte>, i: nat): nat
    requires i + 3 <= |s|
  {
    At(s, i) * 0x1_0000 + In2(s, i + 1)
  }

  function In4(s: seq<Byte>, i: nat): (r: nat)
    requires i + 4 <= |s|
    ensures r < 0x1_0000_0000
  {
    At(s, i) * 0x100_0000 + In3(s, i + 1)
  }

  function LiteralAt(s: seq<Byte>, from: nat, length: nat): Found {
    if from + length <= |s| then Found(Literal(s[from..from + length]), from + length) else ShortLiteral(length)
  }

  function ReadToken(s: seq<Byte>, i: nat): Found {
    if i >= |s| then Overrun
    else if At(s, i) >= 0x80 then
      if i + 2 > |s| then Overrun else Found(Match(At(s, i + 1) + 1, At(s, i) - 0x80 + 1), i + 2)
    else if At(s, i) >= 0x40 then
      if i + 3 > |s| then Overrun else Found(Match(In2(s, i) - 0x4000 + 1, At(s, i + 2) + 1), i + 3)
    else if At(s, i) >= 0x20 then
      LiteralAt(s, i + 1, At(s, i) - 0x20 + 1)
    else if At(s, i) >= 0x18 then
      if i + 4 > |s| then Overrun else Found(Match(In3(s, i) - 0x18_0000 + 1, At(s, i + 3) + 1), i + 4)
    else if At(s, i) >= 0x10 then
      if i + 5 > |s| then Overrun else Found(Match(In3(s, i) - 0x10_0000 + 1, In2(s, i + 3) + 1), i + 5)
    else if At(s, i) >= 0x08 then
      if i + 2 > |s| then Overrun else LiteralAt(s, i + 2, In2(s, i) - 0x0800 + 1)
    else if At(s, i) == 0x07 then
      if i + 3 > |s| then Overrun else LiteralAt(s, i + 3, In2(s, i + 1) + 1)
    else if At(s, i) == 0x06 then
      if i + 5 > |s| then Overrun else Found(Match(In3(s, i + 1) + 1, At(s, i + 4) + 1), i + 5)
    else if At(s, i) == 0x04 then
      if i + 6 > |s| then Overrun else Found(Match(In3(s, i + 1) + 1, In2(s, i + 4) + 1), i + 6)
    else NoToken
  }

  lemma TokensAdvance(s: seq<Byte>, i: nat)
    ensures ReadToken(s, i).Found? ==>
              && i < ReadToken(s, i).next <= |s|
              && (match ReadToken(s, i).token
                  case Match(distance, length) => distance >= 1 && length >= 1
                  case Literal(bytes) => |bytes| >= 1)
  {
  }

  // ----- Writing -----

  /** The nine ways to write a token, by first byte. */
  datatype Form = M80 | M40 | L20 | M18 | M10 | L08 | L07 | M06 | M04

  predicate Fits(t: Token, f: Form) {
    match t
    case Match(d, n) =>
      d >= 1 && n >= 1 &&
      (match f
       case M80 => d <= 0x100 && n <= 0x80
       case M40 => d <= 0x4000 && n <= 0x100
       case M18 => d <= 0x8_0000 && n <= 0x100
       case M10 => d <= 0x8_0000 && n <= 0x1_0000
       case M06 => d <= 0x100_0000 && n <= 0x100
       case M04 => d <= 0x100_0000 && n <= 0x1_0000
       case _ => false)
    case Literal(bytes) =>
      match f
      case L20 => 1 <= |bytes| <= 0x20
      case L08 => 1 <= |bytes| <= 0x800
      case L07 => 1 <= |bytes| <= 0x1_0000
      case _ => false
  }

  function Out2(x: nat): (r: seq<Byte>)
    requires x < 0x1_0000
    ensures |r| == 2
  {
    [x / 0x100, x % 0x100]
  }

  function Out3(x: nat): (r: seq<Byte>)
    requires x < 0x100_0000
    ensures |r| == 3
  {
    [x / 0x1_0000] + Out2(x % 0x1_0000)
  }

  function Out4(x: nat): (r: seq<Byte>)
    requires x < 0x1_0000_0000
    ensures |r| == 4
  {
    [x / 0x100_0000] + Out3(x % 0x100_0000)
  }

  function Write(t: Token, f: Form): (r: seq<Byte>)
    requires Fits(t, f)
    ensures |r| >= 1
  {
    match t
    case Match(d, n) =>
      (match f
       case M80 => [0x80 + (n - 1), d - 1]
       case M40 => Out2(0x4000 + (d - 1)) + [n - 1]
       case M18 => Out3(0x18_0000 + (d - 1)) + [n - 1]
       case M10 => Out3(0x10_0000 + (d - 1)) + Out2(n - 1)
       case M06 => [0x06] + Out3(d - 1) + [n - 1]
       case M04 => [0x04] + Out3(d - 1) + Out2(n - 1))
    case Literal(bytes) =>
      match f
      case L20 => [0x20 + (|bytes| - 1)] + bytes
      case L08 => Out2(0x0800 + (|bytes| - 1)) + bytes
      case L07 => [0x07] + Out2(|bytes| - 1) + bytes
  }

  lemma In2Out2(s: seq<Byte>, i: nat, x: nat)
    requires x < 0x1_0000 && i + 2 <= |s| && s[i..i + 2] == Out2(x)
    ensures In2(s, i) == x && s[i] == x / 0x100
  {
    assert s[i] == s[i..i + 2][0] && s[i + 1] == s[i..i + 2][1];
  }

  lemma In3Out3(s: seq<Byte>, i: nat, x: nat)
    requires x < 0x100_0000 && i + 3 <= |s| && s[i..i + 3] == Out3(x)
    ensures In3(s, i) == x && s[i] == x / 0x1_0000
  {
    assert s[i] == s[i..i + 3][0];
    assert s[i + 1..i + 3] == s[i..i + 3][1..] == Out2(x % 0x1_0000);
    In2Out2(s, i + 1, x % 0x1_0000);
  }

  lemma In4Out4(s: seq<Byte>, i: nat, x: nat)
    requires x < 0x1_0000_0000 && i + 4 <= |s| && s[i..i + 4] == Out4(x)
    ensures In4(s, i) == x
  {
    assert s[i] == s[i..i + 4][0];
    assert s[i + 1..i + 4] == s[i..i + 4][1..] == Out3(x % 0x100_0000);
    In3Out3(s, i + 1, x % 0x100_0000);
  }

  lemma SliceOfSlice(s: seq<Byte>, i: nat, n: nat, a: nat, b: nat)
    requires i + n <= |s| && a <= b <= n
    ensures s[i..i + n][a..b] == s[i + a..i + b]
  {
    var l, r := s[i..i + n][a..b], s[i + a..i + b];
    assert forall k :: 0 <= k < |r| ==> l[k] == r[k];
  }

  /** Reading what was written gives the token back, in every form that can hold it. */
  lemma ReadWritten(s: seq<Byte>, i: nat, t: Token, f: Form)
    requires Fits(t, f) && i + |Write(t, f)| <= |s|
    requires s[i..i + |Write(t, f)|] == Write(t, f)
    ensures ReadToken(s, i) == Found(t, i + |Write(t, f)|)
  {
    var w := Write(t, f);
    assert forall k :: 0 <= k < |w| ==> s[i + k] == s[i..i + |w|][k] == w[k];
    match t
    case Match(d, n) => ReadWrittenMatch(s, i, d, n, f);
    case Literal(bytes) => ReadWrittenLiteral(s, i, bytes, f);
  }

  lemma ReadWrittenMatch(s: seq<Byte>, i: nat, d: nat, n: nat, f: Form)
    requires Fits(Match(d, n), f) && i + |Write(Match(d, n), f)| <= |s|
    requires s[i..i + |Write(Match(d, n), f)|] == Write(Match(d, n), f)
    ensures ReadToken(s, i) == Found(Match(d, n), i + |Write(Match(d, n), f)|)
  {
    var w := Write(Match(d, n), f);
    assert s[i] == s[i..i + |w|][0] == w[0];
    match f
    case M80 =>
      assert s[i + 1] == s[i..i + |w|][1];
    case M40 =>
      assert s[i..i + 2] == s[i..i + |w|][..2];
      assert s[i + 2] == s[i..i + |w|][2];
      In2Out2(s, i, 0x4000 + (d - 1));
    case M18 =>
      assert s[i..i + 3] == s[i..i + |w|][..3];
      assert s[i + 3] == s[i..i + |w|][3];
      In3Out3(s, i, 0x18_0000 + (d - 1));
    case M10 =>
      assert s[i..i + 3] == s[i..i + |w|][..3];
      assert s[i + 3..i + 5] == s[i..i + |w|][3..5];
      In3Out3(s, i, 0x10_0000 + (d - 1));
      In2Out2(s, i + 3, n - 1);
    case M06 =>
      assert s[i + 1..i + 4] == s[i..i + |w|][1..4];
      assert s[i + 4] == s[i..i + |w|][4];
      In3Out3(s, i + 1, d - 1);
    case M04 =>
      assert s[i + 1..i + 4] == s[i..i + |w|][1..4];
      assert s[i + 4..i + 6] == s[i..i + |w|][4..6];
      In3Out3(s, i + 1, d - 1);
      In2Out2(s, i + 4, n - 1);
  }

  lemma ReadWrittenLiteral(s: seq<Byte>, i: nat, bytes: seq<Byte>, f: Form)
    requires Fits(Literal(bytes), f) && i + |Write(Literal(bytes), f)| <= |s|
    requires s[i..i + |Write(Literal(bytes), f)|] == Write(Literal(bytes), f)
    ensures ReadToken(s, i) == Found(Literal(bytes), i + |Write(Literal(bytes), f)|)
  {
    var w := Write(Literal(bytes), f);
    var k := |w| - |bytes|;
    assert s[i] == s[i..i + |w|][0] == w[0];
    assert s[i + k..i + |w|] == s[i..i + |w|][k..] == bytes;
    match f
    case L20 =>
    case L08 =>
      assert s[i..i + 2] == s[i..i + |w|][..2];
      In2Out2(s, i, 0x0800 + (|bytes| - 1));
    case L07 =>
      assert w[1..3] == Out2(|bytes| - 1);
      SliceOfSlice(s, i, |w|, 1, 3);
      In2Out2(s, i + 1, |bytes| - 1);
  }
}
