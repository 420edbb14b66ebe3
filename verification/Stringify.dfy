/** The program serializer of ts/stringify.ts: a printer that replaces every repeated subtree by a
    link to its first occurrence, found by hash, and a reader that patches the links back in.

    The printer is a traversal that updates a path cache; the reader builds mutable arrays in a heap
    and overwrites links in place.  Main results: the text read back is the original value if and
    only if the hash tells the subtrees of that value apart, in whatever order the links are
    patched; and every link names the first occurrence of an equal subtree. */
module Values {

  /** Leaves.  A number is given by its text, which both String(x) and JSON print. */
  datatype Prim = Null | Bool(b: bool) | Num(text: string) | Str(s: string)

  /** Programs are nested arrays; the SDK builds nothing else. */
  datatype Value = Leaf(prim: Prim) | Arr(items: seq<Value>)

  /** What JSON.stringify prints and JSON.parse reads. */
  datatype Doc = DLeaf(prim: Prim) | DArr(items: seq<Doc>) | DRef(path: string)

  /** s is what a template literal makes of p. */
  predicate IsText(p: Prim, s: string) {
    match p
    case Null => s == "null"
    case Bool(b) => (b ==> s == "true") && (!b ==> s == "false")
    case Num(text) => s == text
    case Str(text) => s == text
  }

  /** Template-literal conversion in getPrimitive: a number and a string of the same text agree. */
  function Render(p: Prim): (s: string)
    ensures IsText(p, s)
  {
    match p
    case Null => "null"
    case Bool(b) => if b then "true" else "false"
    case Num(text) => text
    case Str(s) => s
  }

  /** The digest of the key list of one array. */
  type Digest = seq<string> -> string

  function Hash(h: Digest, v: Value): string
    requires v.Arr?
  {
    h(Keys(h, v.items))
  }

  function Keys(h: Digest, items: seq<Value>): (k: seq<string>)
    ensures |k| == |items|
  {
    if items == [] then [] else [Key(h, items[0])] + Keys(h, items[1..])
  }

  function Key(h: Digest, v: Value): string {
    match v
    case Leaf(p) => Render(p)
    case Arr(items) => h(Keys(h, items))
  }

  // ----- Positions: which item to take at each level -----

  type Position = seq<nat>

  /** Item k of the array at p. */
  function Child(p: Position, k: nat): (q: Position)
    ensures |q| == |p| + 1 && q[..|p|] == p && q[|p|] == k
  {
    p + [k]
  }

  ghost predicate Has(v: Value, p: Position)
    decreases |p|
  {
    p == [] || (v.Arr? && p[0] < |v.items| && Has(v.items[p[0]], p[1..]))
  }

  ghost function Sub(v: Value, p: Position): Value
    requires Has(v, p)
    decreases |p|
  {
    if p == [] then v else Sub(v.items[p[0]], p[1..])
  }

  /** A position that holds an array. */
  ghost predicate HasArr(v: Value, p: Position) { Has(v, p) && Sub(v, p).Arr? }

  lemma {:induction false} SubAppend(v: Value, p: Position, q: Position)
    requires Has(v, p)
    ensures Has(v, p + q) <==> Has(Sub(v, p), q)
    ensures Has(v, p + q) ==> Sub(v, p + q) == Sub(Sub(v, p), q)
    decreases |p|
  {
    if p == [] {
      assert p + q == q;
    } else {
      assert (p + q)[1..] == p[1..] + q;
      SubAppend(v.items[p[0]], p[1..], q);
    }
  }

  // ----- Order of first visit -----

  ghost function Size(v: Value): (n: nat)
    ensures n >= 1
  {
    match v
    case Leaf(_) => 1
    case Arr(items) => 1 + Sizes(items)
  }

  ghost function Sizes(items: seq<Value>): nat {
    if items == [] then 0 else Size(items[0]) + Sizes(items[1..])
  }

  /** Number of the position in the order in which a traversal first meets them. */
  ghost function Rank(v: Value, p: Position): nat
    requires Has(v, p)
    decreases |p|
  {
    if p == [] then 0 else 1 + Sizes(v.items[..p[0]]) + Rank(v.items[p[0]], p[1..])
  }

  lemma {:induction false} RankAppend(v: Value, p: Position, q: Position)
    requires Has(v, p + q) && Has(v, p)
    requires Has(Sub(v, p), q)
    ensures Rank(v, p + q) == Rank(v, p) + Rank(Sub(v, p), q)
    decreases |p|
  {
    if p == [] {
      assert p + q == q;
    } else {
      assert (p + q)[1..] == p[1..] + q;
      RankAppend(v.items[p[0]], p[1..], q);
    }
  }

  lemma {:induction false} SizesSnoc(items: seq<Value>, k: nat)
    requires k < |items|
    ensures Sizes(items[..k + 1]) == Sizes(items[..k]) + Size(items[k])
  {
    if k == 0 {
      assert items[..1] == [items[0]] && items[..0] == [];
    } else {
      assert items[..k + 1][1..] == items[1..][..k] && items[..k][1..] == items[1..][..k - 1];
      SizesSnoc(items[1..], k - 1);
    }
  }

  lemma {:induction false} SizesMonotone(items: seq<Value>, k: nat)
    requires k <= |items|
    ensures Sizes(items[..k]) <= Sizes(items)
    decreases |items| - k
  {
    if k == |items| {
      assert items[..k] == items;
    } else {
      SizesSnoc(items, k);
      SizesMonotone(items, k + 1);
    }
  }
}

/** Paths as text: "#/3/0/12". */
module Paths {
  import opened Values

  function Digit(d: nat): (c: char)
    requires d < 10
    ensures '0' <= c <= '9'
  {
    "0123456789"[d]
  }

  function DigitValue(c: char): (d: nat)
    requires '0' <= c <= '9'
    ensures d < 10
  {
    (c as int) - ('0' as int)
  }

  /** String(key) of an array index. */
  function Decimal(n: nat): (s: string)
    ensures |s| > 0
    ensures forall i :: 0 <= i < |s| ==> '0' <= s[i] <= '9'
  {
    if n < 10 then [Digit(n)] else Decimal(n / 10) + [Digit(n % 10)]
  }

  /** parseInt on plain digits: the longest digit prefix; None is NaN. */
  datatype MaybeNat = NaN | Int(n: nat)

  function ParseInt(s: string): MaybeNat { ParseDigits(s, NaN) }

  function ParseDigits(s: string, acc: MaybeNat): MaybeNat {
    if s == [] || !('0' <= s[0] <= '9') then acc
    else ParseDigits(s[1..], Int((if acc.Int? then acc.n * 10 else 0) + DigitValue(s[0])))
  }

  lemma {:induction false} ParseAppendDigit(s: string, d: nat, acc: MaybeNat)
    requires d < 10
    requires forall i :: 0 <= i < |s| ==> '0' <= s[i] <= '9'
    ensures ParseDigits(s + [Digit(d)], acc)
         == var r := ParseDigits(s, acc); Int((if r.Int? then r.n * 10 else 0) + d)
  {
    if s == [] {
      assert s + [Digit(d)] == [Digit(d)];
      assert DigitValue(Digit(d)) == d;
    } else {
      assert (s + [Digit(d)])[1..] == s[1..] + [Digit(d)];
      ParseAppendDigit(s[1..], d, Int((if acc.Int? then acc.n * 10 else 0) + DigitValue(s[0])));
    }
  }

  /** What digits stand for in base ten. */
  function InBaseTen(s: string): int {
    if s == [] then 0 else 10 * InBaseTen(s[..|s| - 1]) + (s[|s| - 1] as int - '0' as int)
  }

  /** A number is printed in base ten, without leading zeros. */
  lemma {:induction false} DecimalIsBaseTen(n: nat)
    ensures InBaseTen(Decimal(n)) == n && (Decimal(n)[0] == '0' ==> n == 0 && Decimal(n) == "0")
  {
    if n < 10 {
      assert [Digit(n)][..0] == [];
    } else {
      DecimalIsBaseTen(n / 10);
      assert Decimal(n)[..|Decimal(n)| - 1] == Decimal(n / 10);
    }
  }

  lemma {:induction false} ParseDecimal(n: nat)
    ensures ParseInt(Decimal(n)) == Int(n)
  {
    if n < 10 {
      assert DigitValue(Digit(n)) == n;
      assert ParseDigits([Digit(n)], NaN) == ParseDigits([Digit(n)][1..], Int(n));
    } else {
      ParseDecimal(n / 10);
      ParseAppendDigit(Decimal(n / 10), n % 10, NaN);
    }
  }

  /** The cached path: the parent's path, a slash and the key. */
  function PathText(p: Position): (s: string) {
    if p == [] then "#" else PathText(p[..|p| - 1]) + "/" + Decimal(p[|p| - 1])
  }

  /** path.split('/'). */
  function Split(s: string): (parts: seq<string>)
    ensures |parts| > 0
  {
    if s == [] then [[]]
    else
      var rest := Split(s[1..]);
      if s[0] == '/' then [[]] + rest else [[s[0]] + rest[0]] + rest[1..]
  }

  lemma {:induction false} SplitAppend(s: string, t: string)
    requires '/' !in t
    ensures Split(s + "/" + t) == Split(s) + [t]
  {
    if s == [] {
      assert s + "/" + t == "/" + t;
      assert ("/" + t)[1..] == t;
      SplitPlain(t);
    } else {
      assert (s + "/" + t)[1..] == s[1..] + "/" + t;
      SplitAppend(s[1..], t);
    }
  }

  lemma {:induction false} SplitPlain(t: string)
    requires '/' !in t
    ensures Split(t) == [t]
  {
    if t != [] {
      SplitPlain(t[1..]);
      assert t == [t[0]] + t[1..];
    }
  }

  function Indices(parts: seq<string>): (r: seq<MaybeNat>)
    ensures |r| == |parts|
    ensures forall i :: 0 <= i < |parts| ==> r[i] == ParseInt(parts[i])
  {
    seq(|parts|, i requires 0 <= i < |parts| => ParseInt(parts[i]))
  }

  function Ints(p: Position): (r: seq<MaybeNat>)
    ensures |r| == |p|
    ensures forall i :: 0 <= i < |p| ==> r[i] == Int(p[i])
  {
    seq(|p|, i requires 0 <= i < |p| => Int(p[i]))
  }

  /** Reading a printed path gives back the position. */
  lemma {:induction false} SplitPathText(p: Position)
    ensures Split(PathText(p))[0] == "#"
    ensures Indices(Split(PathText(p))[1..]) == Ints(p)
  {
    if p == [] {
      SplitPlain("#");
    } else {
      var init, last := p[..|p| - 1], p[|p| - 1];
      SplitPathText(init);
      assert '/' !in Decimal(last);
      SplitAppend(PathText(init), Decimal(last));
      ParseDecimal(last);
      var parts := Split(PathText(p));
      assert parts == Split(PathText(init)) + [Decimal(last)];
      assert Indices(parts[1..]) == Indices(Split(PathText(init))[1..]) + [Int(last)];
      assert Ints(p) == Ints(init) + [Int(last)];
    }
  }

  lemma PathTextInjective(p: Position, q: Position)
    requires PathText(p) == PathText(q)
    ensures p == q
  {
    SplitPathText(p);
    SplitPathText(q);
    forall i | 0 <= i < |p| ensures |p| == |q| && p[i] == q[i] {
      assert Ints(p)[i] == Int(p[i]) && Ints(q)[i] == Int(q[i]);
    }
    assert |Ints(p)| == |Ints(q)|;
  }
}
