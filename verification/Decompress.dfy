/** stb_decompress itself. */
module Decompress {
  import opened Adler
  import opened Tokens

  // ----- What tokens mean -----

  /** Copying forward one byte at a time: a copy longer than its distance repeats what it has just
      written. */
  function Copy(out: seq<Byte>, distance: nat, length: nat): (r: seq<Byte>)
    requires 1 <= distance <= |out|
    ensures |r| == |out| + length
    decreases length
  {
    if length == 0 then out
    else var r := Copy(out, distance, length - 1); r + [r[|r| - distance]]
  }

  /** Stated without steps: the old bytes stay, and every new byte equals the one `distance` before it. */
  lemma {:induction false} CopyIsPeriodic(out: seq<Byte>, distance: nat, length: nat, k: nat)
    requires 1 <= distance <= |out| && k < |out| + length
    ensures Copy(out, distance, length)[k]
         == if k < |out| then out[k] else Copy(out, distance, length)[k - distance]
    decreases length
  {
    if length > 0 && k < |out| + length - 1 { CopyIsPeriodic(out, distance, length - 1, k); }
  }

  /** The token can be carried out with `out` written so far. */
  predicate Possible(out: seq<Byte>, t: Token) {
    t.Match? ==> 1 <= t.distance <= |out|
  }

  function Expand(out: seq<Byte>, t: Token): seq<Byte>
    requires Possible(out, t)
  {
    match t
    case Match(distance, length) => Copy(out, distance, length)
    case Literal(bytes) => out + bytes
  }

  /** A token list is well formed after `out`, and its expansion. */
  predicate AllPossible(out: seq<Byte>, ts: seq<Token>)
    decreases |ts|
  {
    ts == [] || (Possible(out, ts[0]) && AllPossible(Expand(out, ts[0]), ts[1..]))
  }

  function ExpandAll(out: seq<Byte>, ts: seq<Token>): (r: seq<Byte>)
    requires AllPossible(out, ts)
    ensures |r| >= |out|
    decreases |ts|
  {
    if ts == [] then out
    else
      assert |Expand(out, ts[0])| >= |out|;
      ExpandAll(Expand(out, ts[0]), ts[1..])
  }

  // ----- The same, token by token -----

  /** How many bytes a token stands for. */
  function Length(t: Token): nat { if t.Match? then t.length else |t.bytes| }

  /** Where the bytes of token k begin. */
  function StartOf(ts: seq<Token>, k: nat): nat
    requires k <= |ts|
  {
    if k == 0 then 0 else StartOf(ts, k - 1) + Length(ts[k - 1])
  }

  /** No match reaches back before the first byte. */
  ghost predicate MatchesReach(ts: seq<Token>, n: nat) {
    forall k :: 0 <= k < |ts| && ts[k].Match? ==> 1 <= ts[k].distance <= n + StartOf(ts, k)
  }

  /** The bytes of token k: those of a literal, or those that stand `distance` before. */
  ghost predicate HoldsToken(r: seq<Byte>, at: nat, t: Token) {
    && at + Length(t) <= |r|
    && match t
       case Literal(bytes) => r[at..at + |bytes|] == bytes
       case Match(distance, length) =>
         1 <= distance <= at && forall j :: at <= j < at + length ==> r[j] == r[j - distance]
  }

  /** r holds the tokens one after the other, behind its first n bytes, and nothing more. */
  ghost predicate HoldsAll(r: seq<Byte>, n: nat, ts: seq<Token>) {
    && |r| == n + StartOf(ts, |ts|)
    && forall k :: 0 <= k < |ts| ==> HoldsToken(r, n + StartOf(ts, k), ts[k])
  }

  lemma {:induction false} StartOfTail(ts: seq<Token>, k: nat)
    requires k < |ts|
    ensures StartOf(ts, k + 1) == Length(ts[0]) + StartOf(ts[1..], k)
  {
    if k > 0 { StartOfTail(ts, k - 1); }
  }

  /** When a list can be carried out. */
  lemma {:induction false} AllPossibleIff(out: seq<Byte>, ts: seq<Token>)
    ensures AllPossible(out, ts) <==> MatchesReach(ts, |out|)
    decreases |ts|
  {
    if ts != [] {
      forall k | 0 <= k < |ts[1..]|
        ensures StartOf(ts, k + 1) == Length(ts[0]) + StartOf(ts[1..], k) && ts[k + 1] == ts[1..][k]
      {
        StartOfTail(ts, k);
      }
      if Possible(out, ts[0]) {
        AllPossibleIff(Expand(out, ts[0]), ts[1..]);
        if MatchesReach(ts[1..], |Expand(out, ts[0])|) {
          forall k | 0 <= k < |ts| && ts[k].Match?
            ensures 1 <= ts[k].distance <= |out| + StartOf(ts, k)
          {
            if k > 0 { assert ts[k] == ts[1..][k - 1]; }
          }
        }
      } else {
        assert ts[0].Match? && StartOf(ts, 0) == 0;
      }
    }
  }

  /** What the expansion is. */
  lemma {:induction false} ExpandAllHolds(out: seq<Byte>, ts: seq<Token>)
    requires AllPossible(out, ts)
    ensures out <= ExpandAll(out, ts) && HoldsAll(ExpandAll(out, ts), |out|, ts)
    decreases |ts|
  {
    hide HoldsToken, StartOf, Expand, Length;
    NoStart(ts);
    if ts != [] {
      var next, r := Expand(out, ts[0]), ExpandAll(out, ts);
      ExpandHolds(out, ts[0]);
      ExpandAllHolds(next, ts[1..]);
      StartOfTail(ts, |ts| - 1);
      HoldsMore(next, r, |out|, ts[0]);
      forall k | 1 <= k < |ts|
        ensures HoldsToken(r, |out| + StartOf(ts, k), ts[k])
      {
        StartOfTail(ts, k - 1);
        assert ts[k] == ts[1..][k - 1];
      }
    }
  }

  lemma NoStart(ts: seq<Token>)
    ensures StartOf(ts, 0) == 0
  {
  }

  lemma HoldsMore(q: seq<Byte>, r: seq<Byte>, at: nat, t: Token)
    requires q <= r && HoldsToken(q, at, t)
    ensures HoldsToken(r, at, t)
  {
    assert q == r[..|q|];
  }

  lemma ExpandHolds(out: seq<Byte>, t: Token)
    requires Possible(out, t)
    ensures out <= Expand(out, t) && |Expand(out, t)| == |out| + Length(t) && HoldsToken(Expand(out, t), |out|, t)
  {
    if t.Match? {
      var r := Copy(out, t.distance, t.length);
      forall j: nat | j < |out|
        ensures r[j] == out[j]
      {
        CopyIsPeriodic(out, t.distance, t.length, j);
      }
      forall j: nat | |out| <= j < |r|
        ensures r[j] == r[j - t.distance]
      {
        CopyIsPeriodic(out, t.distance, t.length, j);
      }
    }
  }

  /** The token that byte j belongs to. */
  lemma {:induction false} TokenAt(ts: seq<Token>, n: nat, j: nat) returns (k: nat)
    requires n <= |ts| && j < StartOf(ts, n)
    ensures k < n && StartOf(ts, k) <= j < StartOf(ts, k) + Length(ts[k])
  {
    if j < StartOf(ts, n - 1) { k := TokenAt(ts, n - 1, j); } else { k := n - 1; }
  }

  /** There is only one such expansion. */
  lemma {:induction false} HoldsOnce(r: seq<Byte>, q: seq<Byte>, ts: seq<Token>, j: nat)
    requires HoldsAll(r, 0, ts) && HoldsAll(q, 0, ts) && j < |r|
    ensures |r| == |q| && r[j] == q[j]
    decreases j
  {
    hide HoldsToken, StartOf;
    var k := TokenAt(ts, |ts|, j);
    var at, t := StartOf(ts, k), ts[k];
    assert HoldsToken(r, 0 + at, t) && HoldsToken(q, 0 + at, t);
    HoldsAt(r, at, t, j);
    HoldsAt(q, at, t, j);
    if t.Match? { HoldsOnce(r, q, ts, j - t.distance); }
  }

  lemma HoldsAt(r: seq<Byte>, at: nat, t: Token, j: nat)
    requires HoldsToken(r, at, t) && at <= j < at + Length(t)
    ensures j < |r|
    ensures t.Match? ==> 1 <= t.distance <= j && r[j] == r[j - t.distance]
    ensures t.Literal? ==> r[j] == t.bytes[j - at]
  {
    if t.Literal? { assert r[j] == r[at..at + |t.bytes|][j - at]; }
  }

  // ----- Running over the input -----

  /** Zero is what the source returns on every error; Ran is a read past the input, which the source
      does not check for. */
  datatype Outcome = Size(n: nat) | Zero | Ran

  /** The tokens from position i on, and where they end. */
  function Tokenize(s: seq<Byte>, i: nat): (r: (seq<Token>, nat))
    decreases |s| - i
  {
    match ReadToken(s, i)
    case Found(t, next) =>
      TokensAdvance(s, i);
      var rest := Tokenize(s, next);
      ([t] + rest.0, rest.1)
    case _ => ([], i)
  }

  /** The end marker and behind it the checksum of the output, at position i. */
  predicate GoodEnd(s: seq<Byte>, i: nat, out: seq<Byte>) {
    && i + 6 <= |s| && s[i] == 0x05 && s[i + 1] == 0xfa
    && Pack(Bytewise(Unpack(1), out)) == In4(s, i + 2)
  }

  /** Four bytes, the highest first. */
  function BigEndian(s: seq<Byte>, i: nat): nat
    requires i + 4 <= |s|
  {
    At(s, i) * 0x100_0000 + At(s, i + 1) * 0x1_0000 + At(s, i + 2) * 0x100 + At(s, i + 3)
  }

  /** At position i stand the end marker and the checksum of the output. */
  ghost predicate EndsWell(s: seq<Byte>, i: nat, out: seq<Byte>) {
    i + 6 <= |s| && s[i] == 0x05 && s[i + 1] == 0xfa && IsChecksum(1, out, BigEndian(s, i + 2))
  }

  lemma GoodEndIff(s: seq<Byte>, i: nat, out: seq<Byte>)
    ensures GoodEnd(s, i, out) <==> EndsWell(s, i, out)
  {
    hide IsChecksum, Bytewise, Unpack, Pack;
    BytewiseIsChecksum(1, out);
    if EndsWell(s, i, out) { OneChecksum(1, out, BigEndian(s, i + 2), Pack(Bytewise(Unpack(1), out))); }
  }

  /** What happens where no token begins. */
  function Ending(s: seq<Byte>, i: nat, out: seq<Byte>, olen: nat): Outcome
    requires i < |s|
  {
    if s[i] == 0x05 && i + 1 >= |s| then Ran
    else if !(s[i] == 0x05 && s[i + 1] == 0xfa) then Zero
    else if |out| != olen then Zero
    else if i + 6 > |s| then Ran
    else if GoodEnd(s, i, out) then Size(olen) else Zero
  }

  /** The main loop, from position i with `out` written: the outcome and the output so far. */
  function Loop(s: seq<Byte>, i: nat, out: seq<Byte>, olen: nat): (r: (Outcome, seq<Byte>))
    decreases |s| - i
  {
    match ReadToken(s, i)
    case Overrun => (Ran, out)
    case ShortLiteral(n) => (if |out| + n > olen then Zero else Ran, out)
    case NoToken => (Ending(s, i, out, olen), out)
    case Found(t, next) =>
      TokensAdvance(s, i);
      if !Possible(out, t) || |Expand(out, t)| > olen then (Zero, out) else Loop(s, next, Expand(out, t), olen)
  }

  /** The loop succeeds exactly when all tokens can be carried out, their expansion has the promised
      length, and the end marker with its checksum follows. */
  lemma {:induction false} LoopSucceedsIff(s: seq<Byte>, i: nat, out: seq<Byte>, olen: nat)
    ensures var (ts, end) := Tokenize(s, i);
            Loop(s, i, out, olen).0.Size? <==>
              AllPossible(out, ts) && |ExpandAll(out, ts)| == olen && EndsWell(s, end, ExpandAll(out, ts))
    ensures Loop(s, i, out, olen).0.Size? ==>
              Loop(s, i, out, olen) == (Size(olen), ExpandAll(out, Tokenize(s, i).0))
    decreases |s| - i
  {
    hide EndsWell;
    match ReadToken(s, i)
    case Found(t, next) =>
      TokensAdvance(s, i);
      var (ts, end) := Tokenize(s, i);
      var (rest, end') := Tokenize(s, next);
      assert ts == [t] + rest && end == end' && ts[1..] == rest;
      if Possible(out, t) {
        LoopSucceedsIff(s, next, Expand(out, t), olen);
      }
    case NoToken =>
      GoodEndIff(s, i, out);
    case Overrun =>
      GoodEndIff(s, i, out);
    case ShortLiteral(_) =>
      NoEndHere(s, i);
      GoodEndIff(s, i, out);
  }

  lemma NoEndHere(s: seq<Byte>, i: nat)
    requires ReadToken(s, i).ShortLiteral?
    ensures i < |s| && s[i] != 0x05
  {
  }

  /** stb_decompress as a whole, before the output buffer is considered. */
  function Header(s: seq<Byte>): Outcome {
    if |s| < 4 then Ran
    else if In4(s, 0) != 0x57bc_0000 then Zero
    else if |s| < 8 then Ran
    else if In4(s, 4) != 0 then Zero
    else if |s| < 12 then Ran
    else Size(In4(s, 8))
  }

  function Result(s: seq<Byte>): (Outcome, seq<Byte>) {
    match Header(s)
    case Size(olen) => Loop(s, 16, [], olen)
    case other => (other, [])
  }

  // ----- The decoder -----

  /** The static variables of the source, positions counted from the start of the output. */
  class Decoder {
    const input: seq<Byte>
    const output: array<Byte>
    const olen: nat
    var dout: int

    constructor (input: seq<Byte>, output: array<Byte>, olen: nat)
      ensures this.input == input && this.output == output && this.olen == olen && dout == 0
    {
      this.input, this.output, this.olen, dout := input, output, olen, 0;
    }

    /** Everything up to dout is written. */
    ghost predicate Valid()
      reads this
    {
      0 <= dout <= olen <= output.Length
    }

    /** The token was carried out after `before`, or dout has left the output because it could not be. */
    ghost predicate Done(before: seq<Byte>, t: Token)
      reads this, output
    {
      && olen <= output.Length
      && (dout <= olen <==> Possible(before, t) && |Expand(before, t)| <= olen)
      && (dout <= olen ==> dout >= 0 && Possible(before, t) && output[..dout] == Expand(before, t))
    }

    /** stb__match */
    method CopyMatch(data: int, length: nat)
      requires Valid() && data < dout
      modifies this, output
      ensures output[olen..] == old(output[olen..])
      ensures Done(old(output[..dout]), Match(old(dout) - data, length))
    {
      if dout + length > olen { dout := dout + length; return; }
      if data < 0 { dout := olen + 1; return; }
      ghost var before, distance := output[..dout], dout - data;
      var from, left := data, length;
      while left > 0
        invariant 0 <= left <= length && 0 <= from
        invariant dout == |before| + (length - left) && from == dout - distance
        invariant dout + left <= olen
        invariant output[olen..] == old(output[olen..])
        invariant output[..dout] == Copy(before, distance, length - left)
      {
        ghost var was := output[..dout];
        var b := output[from];
        output[dout] := b;
        dout := dout + 1;
        from := from + 1;
        left := left - 1;
        assert output[..dout] == was + [b];
      }
    }

    /** stb__lit; the test against stb__barrier_in_b cannot fail, literals lie behind the header. */
    method CopyLiteral(from: nat, length: nat) returns (ran: bool)
      requires Valid()
      modifies this, output
      ensures output[olen..] == old(output[olen..])
      ensures ran <==> old(dout) + length <= olen && from + length > |input|
      ensures ran ==> dout == old(dout) && output[..] == old(output[..])
      ensures !ran && old(dout) + length > olen ==> dout > olen
      ensures !ran && from + length <= |input| ==> Done(old(output[..dout]), Literal(input[from..from + length]))
    {
      if dout + length > olen { dout := dout + length; return false; }
      if from + length > |input| { return true; }
      ghost var before := output[..dout];
      var k := 0;
      while k < length
        invariant 0 <= k <= length && dout == old(dout)
        invariant output[olen..] == old(output[olen..])
        invariant output[..dout + k] == before + input[from..from + k]
      {
        output[dout + k] := input[from + k];
        assert output[..dout + k + 1] == output[..dout + k] + [input[from + k]];
        k := k + 1;
      }
      dout := dout + length;
      ran := false;
    }

    /** What was found at i has been carried out after `before`, with `was` in the buffer.  next == i means that
        there is no token, or that dout has left the output. */
    ghost predicate Decoded(i: nat, before: seq<Byte>, was: seq<Byte>, next: nat, ran: bool)
      reads this, output
    {
      match ReadToken(input, i)
      case Overrun => ran
      case ShortLiteral(n) => (ran <==> |before| + n <= olen) && (!ran ==> dout > olen && next > i)
      case NoToken => !ran && next == i && dout == |before| && output[..] == was
      case Found(t, after) => !ran && next == after > i && Done(before, t)
    }

    /** stb_decompress_token: carries out the token at i, if there is one. */
    method DecodeToken(i: nat) returns (next: nat, ran: bool)
      requires Valid()
      modifies this, output
      ensures output[olen..] == old(output[olen..])
      ensures Decoded(i, old(output[..dout]), old(output[..]), next, ran)
    {
      if i >= |input| { return i, true; }
      if At(input, i) >= 0x20 {
        next, ran := DecodeSmall(i);
      } else {
        next, ran := DecodeLarge(i);
      }
    }

    /** The tokens that expand small. */
    method DecodeSmall(i: nat) returns (next: nat, ran: bool)
      requires Valid() && i < |input| && At(input, i) >= 0x20
      modifies this, output
      ensures output[olen..] == old(output[olen..])
      ensures Decoded(i, old(output[..dout]), old(output[..]), next, ran)
    {
      hide Done;
      var b := At(input, i);
      ran := false;
      if b >= 0x80 {
        if i + 2 > |input| { return i, true; }
        CopyMatch(dout - At(input, i + 1) - 1, b - 0x80 + 1);
        next := i + 2;
      } else if b >= 0x40 {
        if i + 3 > |input| { return i, true; }
        CopyMatch(dout - (In2(input, i) - 0x4000 + 1), At(input, i + 2) + 1);
        next := i + 3;
      } else {
        ran := CopyLiteral(i + 1, b - 0x20 + 1);
        next := i + 1 + (b - 0x20 + 1);
      }
    }

    /** The tokens that expand large. */
    method DecodeLarge(i: nat) returns (next: nat, ran: bool)
      requires Valid() && i < |input| && At(input, i) < 0x20
      modifies this, output
      ensures output[olen..] == old(output[olen..])
      ensures Decoded(i, old(output[..dout]), old(output[..]), next, ran)
    {
      hide Done, In3;
      TokensAdvance(input, i);
      next, ran := i, false;
      var b := At(input, i);
      if b >= 0x18 {
        if i + 4 > |input| { return i, true; }
        CopyMatch(dout - (In3(input, i) - 0x18_0000 + 1), At(input, i + 3) + 1);
        next := i + 4;
      } else if b >= 0x10 {
        if i + 5 > |input| { return i, true; }
        CopyMatch(dout - (In3(input, i) - 0x10_0000 + 1), In2(input, i + 3) + 1);
        next := i + 5;
      } else if b >= 0x08 {
        if i + 2 > |input| { return i, true; }
        ran := CopyLiteral(i + 2, In2(input, i) - 0x0800 + 1);
        next := i + 2 + (In2(input, i) - 0x0800 + 1);
      } else if b == 0x07 {
        if i + 3 > |input| { return i, true; }
        ran := CopyLiteral(i + 3, In2(input, i + 1) + 1);
        next := i + 3 + (In2(input, i + 1) + 1);
      } else if b == 0x06 {
        if i + 5 > |input| { return i, true; }
        CopyMatch(dout - (In3(input, i + 1) + 1), At(input, i + 4) + 1);
        next := i + 5;
      } else if b == 0x04 {
        if i + 6 > |input| { return i, true; }
        CopyMatch(dout - (In3(input, i + 1) + 1), In2(input, i + 4) + 1);
        next := i + 6;
      }
    }
  }

  /** stb_decompress: a file of tokens gives their bytes; success means that the bytes are those of the tokens and
      the checksum is theirs; and every byte behind the promised length stays untouched, whatever the input. */
  method StbDecompress(output: array<Byte>, input: seq<Byte>) returns (r: Outcome)
    requires Header(input).Size? ==> Header(input).n <= output.Length
    modifies output
    ensures r == Result(input).0
    ensures r.Size? ==> r.n <= output.Length && output[..r.n] == Result(input).1
    ensures forall fs, out :: AllFit(fs) && MatchesReach(TokensOf(fs), 0) && IsFile(input, fs, out) ==>
              r == Size(|out|) && output[..|out|] == out
    ensures r.Size? ==>
              && HoldsAll(output[..r.n], 0, Tokenize(input, 16).0)
              && EndsWell(input, Tokenize(input, 16).1, output[..r.n])
    ensures var olen := if Header(input).Size? then Header(input).n else 0;
            output[olen..] == old(output[olen..])
  {
    hide IsFile, HoldsAll, EndsWell, MatchesReach;
    r := Run(output, input);
    Succeeded(input);
    forall fs, out | AllFit(fs) && MatchesReach(TokensOf(fs), 0) && IsFile(input, fs, out) {
      FileDecompresses(input, fs, out);
    }
  }

  lemma Succeeded(s: seq<Byte>)
    ensures Result(s).0.Size? ==>
              && HoldsAll(Result(s).1, 0, Tokenize(s, 16).0)
              && EndsWell(s, Tokenize(s, 16).1, Result(s).1)
  {
    hide EndsWell;
    if Header(s).Size? {
      LoopSucceedsIff(s, 16, [], Header(s).n);
      if Result(s).0.Size? { ExpandAllHolds([], Tokenize(s, 16).0); }
    }
  }

  /** Its body, against the functions. */
  method Run(output: array<Byte>, input: seq<Byte>) returns (r: Outcome)
    requires Header(input).Size? ==> Header(input).n <= output.Length
    modifies output
    ensures r == Result(input).0
    ensures r.Size? ==> r.n <= output.Length && output[..r.n] == Result(input).1
    ensures var olen := if Header(input).Size? then Header(input).n else 0;
            output[olen..] == old(output[olen..])
  {
    if |input| < 4 { return Ran; }
    if In4(input, 0) != 0x57bc_0000 { return Zero; }
    if |input| < 8 { return Ran; }
    if In4(input, 4) != 0 { return Zero; }
    if |input| < 12 { return Ran; }
    var olen := In4(input, 8);
    var d := new Decoder(input, output, olen);
    var i := 16;
    assert output[..0] == [];
    while true
      invariant d.Valid() && d.output == output && d.input == input && d.olen == olen && fresh(d)
      invariant output[olen..] == old(output[olen..])
      invariant Result(input) == Loop(input, i, output[..d.dout], olen)
      decreases |input| - i
    {
      var oldI := i;
      TokensAdvance(input, i);
      var ran;
      i, ran := d.DecodeToken(i);
      if ran { return Ran; }
      if i == oldI {
        if input[i] == 0x05 && i + 1 >= |input| { return Ran; }
        if input[i] == 0x05 && input[i + 1] == 0xfa {
          if d.dout != olen { return Zero; }
          var sum := Adler32(1, output, olen);
          if i + 6 > |input| { return Ran; }
          if sum != In4(input, i + 2) { return Zero; }
          return Size(olen);
        } else {
          return Zero;
        }
      }
      if d.dout > olen { return Zero; }
    }
  }

  // ----- Whole files -----

  function TokensOf(fs: seq<(Token, Form)>): seq<Token> {
    if fs == [] then [] else [fs[0].0] + TokensOf(fs[1..])
  }

  predicate AllFit(fs: seq<(Token, Form)>) { forall k :: 0 <= k < |fs| ==> Fits(fs[k].0, fs[k].1) }

  function WriteAll(fs: seq<(Token, Form)>): seq<Byte>
    requires AllFit(fs)
  {
    if fs == [] then [] else Write(fs[0].0, fs[0].1) + WriteAll(fs[1..])
  }

  lemma EndIsNoToken(s: seq<Byte>, i: nat)
    requires i < |s| && s[i] == 0x05
    ensures ReadToken(s, i) == NoToken
  {
  }

  lemma {:induction false} TokenizeWritten(s: seq<Byte>, i: nat, fs: seq<(Token, Form)>)
    requires AllFit(fs) && i + |WriteAll(fs)| < |s|
    requires s[i..i + |WriteAll(fs)|] == WriteAll(fs)
    requires s[i + |WriteAll(fs)|] == 0x05
    ensures Tokenize(s, i) == (TokensOf(fs), i + |WriteAll(fs)|)
    decreases |fs|
  {
    hide ReadToken, Write, Fits;
    if fs == [] {
      EndIsNoToken(s, i);
    } else {
      var w, rest := Write(fs[0].0, fs[0].1), WriteAll(fs[1..]);
      SliceOfSlice(s, i, |w + rest|, 0, |w|);
      SliceOfSlice(s, i, |w + rest|, |w|, |w + rest|);
      assert (w + rest)[..|w|] == w && (w + rest)[|w|..] == rest;
      ReadWritten(s, i, fs[0].0, fs[0].1);
      TokenizeWritten(s, i + |w|, fs[1..]);
    }
  }

  /** A compressed file for the tokens that expand to out: magic number, length, tokens, end marker and checksum. */
  ghost predicate IsFile(s: seq<Byte>, fs: seq<(Token, Form)>, out: seq<Byte>)
    requires AllFit(fs)
  {
    var end := 16 + |WriteAll(fs)|;
    && end + 6 <= |s|
    && s[..8] == [0x57, 0xbc, 0, 0, 0, 0, 0, 0] && BigEndian(s, 8) == |out|
    && s[16..end] == WriteAll(fs)
    && HoldsAll(out, 0, TokensOf(fs))
    && EndsWell(s, end, out)
  }

  /** Every file written from tokens whose matches do not reach back before the first byte is decompressed to their
      bytes, whatever stands in the four bytes that are skipped and behind the checksum. */
  lemma FileDecompresses(s: seq<Byte>, fs: seq<(Token, Form)>, out: seq<Byte>)
    requires AllFit(fs) && MatchesReach(TokensOf(fs), 0) && IsFile(s, fs, out)
    ensures Result(s) == (Size(|out|), out)
  {
    hide WriteAll, ReadToken, Tokenize, Loop, ExpandAll, AllPossible, HoldsAll, IsChecksum, MatchesReach;
    var ts, end := TokensOf(fs), 16 + |WriteAll(fs)|;
    AllPossibleIff([], ts);
    ExpandAllHolds([], ts);
    ExpansionIs(out, ts);
    assert s[end] == 0x05;
    assert forall k :: 0 <= k < 8 ==> s[k] == s[..8][k];
    TokenizeWritten(s, 16, fs);
    LoopSucceedsIff(s, 16, [], |out|);
  }

  lemma ExpansionIs(out: seq<Byte>, ts: seq<Token>)
    requires AllPossible([], ts) && HoldsAll(out, 0, ts)
    ensures out == ExpandAll([], ts)
  {
    var r := ExpandAll([], ts);
    ExpandAllHolds([], ts);
    forall j: nat | j < |out| { HoldsOnce(out, r, ts, j); }
  }

  /** A compressed file for the tokens: header, four bytes the reader skips, tokens, end marker and
      checksum. */
  function File(fs: seq<(Token, Form)>, skipped: seq<Byte>): seq<Byte>
    requires AllFit(fs) && AllPossible([], TokensOf(fs)) && |ExpandAll([], TokensOf(fs))| < 0x1_0000_0000
    requires |skipped| == 4
  {
    var out := ExpandAll([], TokensOf(fs));
    var sum := Bytewise(Unpack(1), out);
    SumsFit(Unpack(1), out);
    Out4(0x57bc_0000) + Out4(0) + Out4(|out|) + skipped + WriteAll(fs) + [0x05, 0xfa] + Out4(Pack(sum))
  }

  lemma {:induction false} SumsFit(s: Sums, data: seq<Byte>)
    requires s.s1 < 0x1_0000 && s.s2 < 0x1_0000
    ensures Pack(Bytewise(s, data)) < 0x1_0000_0000
  {
    PlainIsBytewise(s, s, data);
  }

  /** There is a file for all tokens that expand to less than 2^32 bytes. */
  lemma FileIsFile(fs: seq<(Token, Form)>, skipped: seq<Byte>)
    requires AllFit(fs) && AllPossible([], TokensOf(fs)) && |ExpandAll([], TokensOf(fs))| < 0x1_0000_0000
    requires |skipped| == 4
    ensures IsFile(File(fs, skipped), fs, ExpandAll([], TokensOf(fs)))
  {
    hide In4, Out4, WriteAll, ExpandAll, AllPossible, Bytewise, Pack, Unpack, IsChecksum, HoldsAll;
    var out, f, w := ExpandAll([], TokensOf(fs)), File(fs, skipped), WriteAll(fs);
    var sum := Pack(Bytewise(Unpack(1), out));
    SumsFit(Unpack(1), out);
    var end := 16 + |w|;
    assert f[0..4] == Out4(0x57bc_0000) && f[4..8] == Out4(0) && f[8..12] == Out4(|out|);
    assert f[16..end] == w && f[end] == 0x05 && f[end + 1] == 0xfa && f[end + 2..end + 6] == Out4(sum);
    In4Out4(f, 0, 0x57bc_0000);
    In4Out4(f, 4, 0);
    In4Out4(f, 8, |out|);
    In4Out4(f, end + 2, sum);
    Magic(f);
    BigEndianIs(f, 8);
    BigEndianIs(f, end + 2);
    BytewiseIsChecksum(1, out);
    ExpandAllHolds([], TokensOf(fs));
  }

  lemma BigEndianIs(s: seq<Byte>, i: nat)
    requires i + 4 <= |s|
    ensures In4(s, i) == BigEndian(s, i)
  {
  }

  lemma Magic(s: seq<Byte>)
    requires |s| >= 8 && In4(s, 0) == 0x57bc_0000 && In4(s, 4) == 0
    ensures s[..8] == [0x57, 0xbc, 0, 0, 0, 0, 0, 0]
  {
  }
}
