/** The printing half of ts/stringify.ts. */
module Printing {
  import opened Values
  import opened Paths

  /** Where the first array with a given hash was met. */
  type Places = map<string, Position>

  /** doc is the print of v, found at position `at` of root: an array whose hash belongs to this
      very position is spelt out, any other is a link to an earlier position. */
  ghost predicate Printed(h: Digest, root: Value, doc: Doc, v: Value, at: Position, places: Places)
  {
    match v
    case Leaf(p) => doc == DLeaf(p)
    case Arr(items) =>
      var hash := Hash(h, v);
      && hash in places
      && if places[hash] == at then
           && doc.DArr? && |doc.items| == |items|
           && forall k: nat :: k < |items| ==> Printed(h, root, doc.items[k], items[k], Child(at, k), places)
         else
           && doc == DRef(PathText(places[hash]))
           && Earlier(root, places[hash], at)
  }

  ghost predicate Earlier(root: Value, p: Position, q: Position) {
    Has(root, p) && Has(root, q) && Rank(root, p) < Rank(root, q)
  }

  /** Every array on the way along r, its end included, is spelt out in doc. */
  ghost predicate SpeltOut(doc: Doc, r: Position)
    decreases |r|
  {
    doc.DArr? && (r == [] || (r[0] < |doc.items| && SpeltOut(doc.items[r[0]], r[1..])))
  }

  ghost function DocAt(doc: Doc, r: Position): (d: Doc)
    requires SpeltOut(doc, r)
    ensures d.DArr?
    decreases |r|
  {
    if r == [] then doc else DocAt(doc.items[r[0]], r[1..])
  }

  lemma {:induction false} PrintedExtends(h: Digest, root: Value, doc: Doc, v: Value, at: Position, places: Places,
                                          more: Places)
    requires Printed(h, root, doc, v, at, places)
    requires forall x :: x in places ==> x in more && more[x] == places[x]
    ensures Printed(h, root, doc, v, at, more)
  {
    if v.Arr? && places[Hash(h, v)] == at {
      forall k: nat | k < |v.items|
        ensures Printed(h, root, doc.items[k], v.items[k], Child(at, k), more)
      {
        PrintedExtends(h, root, doc.items[k], v.items[k], Child(at, k), places, more);
      }
    }
  }

  lemma {:induction false} PrintedAt(h: Digest, root: Value, doc: Doc, v: Value, at: Position, places: Places,
                                     r: Position)
    requires Printed(h, root, doc, v, at, places) && SpeltOut(doc, r)
    ensures Has(v, r) && Sub(v, r).Arr?
    ensures Printed(h, root, DocAt(doc, r), Sub(v, r), at + r, places)
    decreases |r|
  {
    if r == [] {
      assert at + r == at;
    } else {
      PrintedAt(h, root, doc.items[r[0]], v.items[r[0]], Child(at, r[0]), places, r[1..]);
      assert Child(at, r[0]) + r[1..] == at + r;
    }
  }

  lemma {:induction false} SubSmaller(v: Value, p: Position)
    requires Has(v, p) && p != []
    ensures Size(Sub(v, p)) < Size(v)
    decreases |p|
  {
    SizesSnoc(v.items, p[0]);
    SizesMonotone(v.items, p[0] + 1);
    if |p| > 1 { SubSmaller(v.items[p[0]], p[1..]); }
  }

  /** The next item of an array comes right after everything inside the items before it. */
  lemma ChildRank(root: Value, at: Position, v: Value, k: nat)
    requires Has(root, at) && Sub(root, at) == v && v.Arr? && k < |v.items|
    ensures Has(root, Child(at, k)) && Sub(root, Child(at, k)) == v.items[k]
    ensures Rank(root, Child(at, k)) == Rank(root, at) + 1 + Sizes(v.items[..k])
  {
    assert Has(v.items[k], []) && [k][1..] == [];
    assert Has(v, [k]) && Sub(v, [k]) == v.items[k];
    SubAppend(root, at, [k]);
    RankAppend(root, at, [k]);
  }

  /** JSON.stringify with the deduplicating replacer. */
  class Printer {
    const h: Digest
    const root: Value
    var hashCache: map<Value, string>
    var pathCache: map<string, string>
    ghost var places: Places

    ghost predicate Valid()
      reads this
    {
      && (forall v :: v in hashCache ==> v.Arr? && hashCache[v] == Hash(h, v))
      && pathCache.Keys == places.Keys
      && (forall x :: x in places ==>
            && pathCache[x] == PathText(places[x])
            && HasArr(root, places[x]) && Hash(h, Sub(root, places[x])) == x)
    }

    constructor (h: Digest, root: Value)
      ensures this.h == h && this.root == root
      ensures Valid() && places == map[]
    {
      this.h, this.root := h, root;
      hashCache, pathCache, places := map[], map[], map[];
    }

    /** getHash, memoised. */
    method GetHash(v: Value) returns (hash: string)
      requires Valid() && v.Arr?
      modifies this`hashCache
      ensures Valid()
      ensures hash == Hash(h, v)
      decreases v, 0
    {
      if v in hashCache { return hashCache[v]; }
      var key := [];
      var i := 0;
      while i < |v.items|
        invariant 0 <= i <= |v.items|
        invariant Valid()
        invariant |key| == i
        invariant forall j :: 0 <= j < i ==> key[j] == Key(h, v.items[j])
      {
        var k := GetPrimitive(v.items[i]);
        key := key + [k];
        i := i + 1;
      }
      KeysAre(h, v.items, key);
      hash := h(key);
      hashCache := hashCache[v := hash];
    }

    method GetPrimitive(v: Value) returns (k: string)
      requires Valid()
      modifies this`hashCache
      ensures Valid()
      ensures k == Key(h, v)
      ensures if v.Leaf? then IsText(v.prim, k) else k == Hash(h, v)
      decreases v, 1
    {
      match v
      case Leaf(p) => k := Render(p);
      case Arr(_) => k := GetHash(v);
    }

    /** The replacer's bookkeeping for an array met for the first time; `thrown` reports the
        "Missing parent path!" error. */
    method Record(holder: Value, key: nat, v: Value, hash: string, ghost at: Position) returns (thrown: bool)
      requires Valid()
      requires v.Arr? && hash == Hash(h, v) && hash !in places
      requires Has(root, at) && Sub(root, at) == v
      requires at != [] ==> ParentOf(h, holder, key, at, places)
      modifies this
      ensures Valid() && !thrown
      ensures places == old(places)[hash := at]
    {
      if v == root {
        if at != [] { SubSmaller(root, at); }
        pathCache := pathCache[hash := "#"];
      } else {
        var parentHash := GetHash(holder);
        if parentHash !in pathCache {
          return true;
        }
        pathCache := pathCache[hash := pathCache[parentHash] + "/" + Decimal(key)];
      }
      places := places[hash := at];
      thrown := false;
    }

    /** SerializeJSONProperty with the replacer: `holder` is the parent the replacer sees as `this`. */
    method Serialize(holder: Value, key: nat, v: Value, ghost at: Position) returns (doc: Doc, thrown: bool)
      requires Valid()
      requires Has(root, at) && Sub(root, at) == v
      requires at != [] ==> ParentOf(h, holder, key, at, places)
      requires Bounded(root, places, Rank(root, at))
      modifies this
      ensures Valid() && !thrown
      ensures Printed(h, root, doc, v, at, places)
      ensures Extends(old(places), places)
      ensures forall x :: x in places && x !in old(places) ==> PlacedIn(doc, at, places[x])
      ensures Bounded(root, places, Rank(root, at) + Size(v))
      decreases v, 1
    {
      hide Sub, Has, Sizes, Size, Rank, PlacedIn, Bounded, ItemsDone, Hash, Printed;
      if v.Leaf? {
        LeafPrinted(h, root, v, at, places);
        return DLeaf(v.prim), false;
      }
      var hash := GetHash(v);
      if hash in pathCache {
        RepeatPrinted(h, root, v, at, places);
        return DRef(pathCache[hash]), false;
      }
      thrown := Record(holder, key, v, hash, at);
      if thrown {
        return DLeaf(Null), true;
      }
      NewPlace(root, at, old(places), hash);
      var docs;
      docs, thrown := SerializeItems(v, hash, at);
      doc := DArr(docs);
      ArrayPrinted(h, root, docs, v, at, old(places), places);
    }

    method SerializeItems(v: Value, hash: string, ghost at: Position) returns (docs: seq<Doc>, thrown: bool)
      requires Valid()
      requires v.Arr? && Has(root, at) && Sub(root, at) == v
      requires hash == Hash(h, v) && hash in places && places[hash] == at
      requires Bounded(root, places, Rank(root, at) + 1)
      modifies this
      ensures Valid() && !thrown
      ensures |docs| == |v.items| && ItemsDone(h, root, docs, v, at, old(places), places)
      decreases v, 0
    {
      hide Printed, Sub, Has, Sizes, Size, Rank, PlacedIn, Bounded, ItemsDone, ParentOf, Hash;
      NothingDone(h, root, v, at, places);
      docs, thrown := [], false;
      while |docs| < |v.items|
        invariant Valid() && !thrown && |docs| <= |v.items|
        invariant ItemsDone(h, root, docs, v, at, old(places), places)
        decreases |v.items| - |docs|
      {
        ghost var before := places;
        ChildRank(root, at, v, |docs|);
        DoneSoFar(h, root, docs, v, at, old(places), places);
        var item;
        item, thrown := Serialize(v, |docs|, v.items[|docs|], Child(at, |docs|));
        ItemAdded(h, root, docs, item, v, at, old(places), before, places);
        docs := docs + [item];
      }
    }
  }

  /** State of the item loop: docs prints a prefix of v's items, started with the places `start`. */
  ghost predicate ItemsDone(h: Digest, root: Value, docs: seq<Doc>, v: Value, at: Position, start: Places,
                            places: Places)
    requires v.Arr? && Has(root, at)
  {
    && ItemsPrinted(h, root, docs, v.items, at, places)
    && Extends(start, places)
    && (forall x :: x in places && x !in start ==> PlacedInItems(docs, at, places[x]))
    && Bounded(root, places, Rank(root, at) + 1 + Sizes(v.items[..|docs|]))
  }

  lemma LeafPrinted(h: Digest, root: Value, v: Value, at: Position, places: Places)
    requires v.Leaf? && Has(root, at) && Bounded(root, places, Rank(root, at))
    ensures Printed(h, root, DLeaf(v.prim), v, at, places) && Bounded(root, places, Rank(root, at) + Size(v))
  {
  }

  lemma RepeatPrinted(h: Digest, root: Value, v: Value, at: Position, places: Places)
    requires v.Arr? && Has(root, at) && Bounded(root, places, Rank(root, at)) && Hash(h, v) in places
    ensures Printed(h, root, DRef(PathText(places[Hash(h, v)])), v, at, places)
    ensures Bounded(root, places, Rank(root, at) + Size(v))
  {
    hide Hash;
    assert Earlier(root, places[Hash(h, v)], at);
  }

  /** The place of an array that is met for the first time. */
  lemma NewPlace(root: Value, at: Position, places: Places, hash: string)
    requires Has(root, at) && Bounded(root, places, Rank(root, at))
    ensures Bounded(root, places[hash := at], Rank(root, at) + 1)
  {
  }

  lemma NothingDone(h: Digest, root: Value, v: Value, at: Position, places: Places)
    requires v.Arr? && Has(root, at) && Bounded(root, places, Rank(root, at) + 1)
    ensures ItemsDone(h, root, [], v, at, places, places)
  {
  }

  /** What the next item needs. */
  lemma DoneSoFar(h: Digest, root: Value, docs: seq<Doc>, v: Value, at: Position, start: Places, places: Places)
    requires v.Arr? && Has(root, at) && |docs| < |v.items| && ItemsDone(h, root, docs, v, at, start, places)
    requires Hash(h, v) in start && start[Hash(h, v)] == at
    ensures Bounded(root, places, Rank(root, at) + 1 + Sizes(v.items[..|docs|]))
    ensures ParentOf(h, v, |docs|, Child(at, |docs|), places)
  {
  }

  lemma ArrayPrinted(h: Digest, root: Value, docs: seq<Doc>, v: Value, at: Position, start: Places, places: Places)
    requires v.Arr? && Has(root, at) && |docs| == |v.items| && Hash(h, v) !in start
    requires ItemsDone(h, root, docs, v, at, start[Hash(h, v) := at], places)
    ensures Printed(h, root, DArr(docs), v, at, places)
    ensures Extends(start, places)
    ensures forall x :: x in places && x !in start ==> PlacedIn(DArr(docs), at, places[x])
    ensures Bounded(root, places, Rank(root, at) + Size(v))
  {
    var began := start[Hash(h, v) := at];
    assert began[Hash(h, v)] == at;
    assert v.items[..|docs|] == v.items;
    forall x | x in start ensures x in places && places[x] == start[x] { assert began[x] == start[x]; }
    PlacedAtTop(DArr(docs), at);
    forall x | x in places && x !in began
      ensures PlacedIn(DArr(docs), at, places[x])
    {
      PlacedInItem(docs, at, places[x]);
    }
  }

  lemma ItemAdded(h: Digest, root: Value, docs: seq<Doc>, item: Doc, v: Value, at: Position, start: Places,
                  before: Places, places: Places)
    requires v.Arr? && Has(root, at) && Sub(root, at) == v && |docs| < |v.items|
    requires ItemsDone(h, root, docs, v, at, start, before) && Extends(before, places)
    requires Printed(h, root, item, v.items[|docs|], Child(at, |docs|), places)
    requires forall x :: x in places && x !in before ==> PlacedIn(item, Child(at, |docs|), places[x])
    requires Bounded(root, places, Rank(root, at) + 1 + Sizes(v.items[..|docs|]) + Size(v.items[|docs|]))
    ensures ItemsDone(h, root, docs + [item], v, at, start, places)
  {
    hide Printed, Sub, Has, Sizes, Size, Rank, PlacedIn, Bounded, ItemsDone;
    ItemAddedClosed(h, root, docs, item, v, at, start, before, places);
  }

  // The same with all definitions closed.
  lemma ItemAddedClosed(h: Digest, root: Value, docs: seq<Doc>, item: Doc, v: Value, at: Position, start: Places,
                        before: Places, places: Places)
    requires v.Arr? && Has(root, at) && Sub(root, at) == v && |docs| < |v.items|
    requires ItemsDone(h, root, docs, v, at, start, before) && Extends(before, places)
    requires Printed(h, root, item, v.items[|docs|], Child(at, |docs|), places)
    requires forall x :: x in places && x !in before ==> PlacedIn(item, Child(at, |docs|), places[x])
    requires Bounded(root, places, Rank(root, at) + 1 + Sizes(v.items[..|docs|]) + Size(v.items[|docs|]))
    ensures ItemsDone(h, root, docs + [item], v, at, start, places)
  {
    hide Printed, Sub, Has, Sizes, Size, Rank, PlacedIn, Bounded, ItemsDone, ItemsPrinted, PlacedInItems;
    var all := docs + [item];
    DoneWas(h, root, docs, v, at, start, before);
    BoundedNext(root, places, Rank(root, at) + 1, v.items, |docs|);
    ItemsPrintedSnoc(h, root, docs, item, v.items, at, before, places);
    PlacedSnoc(docs, item, at, start, before, places);
    ExtendsTwice(start, before, places);
    DoneIs(h, root, all, v, at, start, places);
  }

  lemma BoundedNext(root: Value, places: Places, n: nat, items: seq<Value>, k: nat)
    requires k < |items| && Bounded(root, places, n + Sizes(items[..k]) + Size(items[k]))
    ensures Bounded(root, places, n + Sizes(items[..k + 1]))
  {
    hide Bounded, Sizes, Size;
    SizesSnoc(items, k);
  }

  lemma ExtendsTwice(a: Places, b: Places, c: Places)
    requires Extends(a, b) && Extends(b, c)
    ensures Extends(a, c)
  {
  }

  lemma DoneWas(h: Digest, root: Value, docs: seq<Doc>, v: Value, at: Position, start: Places, places: Places)
    requires v.Arr? && Has(root, at) && ItemsDone(h, root, docs, v, at, start, places)
    ensures ItemsPrinted(h, root, docs, v.items, at, places) && Extends(start, places)
    ensures forall x :: x in places && x !in start ==> PlacedInItems(docs, at, places[x])
  {
  }

  lemma DoneIs(h: Digest, root: Value, docs: seq<Doc>, v: Value, at: Position, start: Places, places: Places)
    requires v.Arr? && Has(root, at)
    requires ItemsPrinted(h, root, docs, v.items, at, places) && Extends(start, places)
    requires forall x :: x in places && x !in start ==> PlacedInItems(docs, at, places[x])
    requires Bounded(root, places, Rank(root, at) + 1 + Sizes(v.items[..|docs|]))
    ensures ItemsDone(h, root, docs, v, at, start, places)
  {
  }

  ghost predicate ItemsPrinted(h: Digest, root: Value, docs: seq<Doc>, items: seq<Value>, at: Position,
                               places: Places) {
    && |docs| <= |items|
    && forall k: nat :: k < |docs| ==> Printed(h, root, docs[k], items[k], Child(at, k), places)
  }

  lemma ItemsPrintedSnoc(h: Digest, root: Value, docs: seq<Doc>, item: Doc, items: seq<Value>, at: Position,
                         before: Places, places: Places)
    requires |docs| < |items|
    requires ItemsPrinted(h, root, docs, items, at, before) && Extends(before, places)
    requires Printed(h, root, item, items[|docs|], Child(at, |docs|), places)
    ensures ItemsPrinted(h, root, docs + [item], items, at, places)
  {
    forall k: nat | k < |docs|
      ensures Printed(h, root, docs[k], items[k], Child(at, k), places)
    {
      PrintedExtends(h, root, docs[k], items[k], Child(at, k), before, places);
    }
  }

  ghost predicate PlacedInItems(docs: seq<Doc>, at: Position, p: Position) {
    exists k: nat :: k < |docs| && PlacedIn(docs[k], Child(at, k), p)
  }

  lemma PlacedSnoc(docs: seq<Doc>, item: Doc, at: Position, start: Places, before: Places, places: Places)
    requires Extends(before, places)
    requires forall x :: x in before && x !in start ==> PlacedInItems(docs, at, before[x])
    requires forall x :: x in places && x !in before ==> PlacedIn(item, Child(at, |docs|), places[x])
    ensures forall x :: x in places && x !in start ==> PlacedInItems(docs + [item], at, places[x])
  {
    var all := docs + [item];
    forall x | x in places && x !in start
      ensures PlacedInItems(all, at, places[x])
    {
      if x in before {
        var k: nat :| k < |docs| && PlacedIn(docs[k], Child(at, k), before[x]);
        assert PlacedIn(all[k], Child(at, k), places[x]);
      } else {
        assert PlacedIn(all[|docs|], Child(at, |docs|), places[x]);
      }
    }
  }

  /** What the replacer finds in `this` and `key`. */
  ghost predicate ParentOf(h: Digest, holder: Value, key: nat, at: Position, places: Places)
  {
    && at != []
    && holder.Arr? && at[|at| - 1] == key
    && Hash(h, holder) in places && places[Hash(h, holder)] == at[..|at| - 1]
  }

  ghost predicate Bounded(root: Value, places: Places, n: nat) {
    forall x :: x in places ==> Has(root, places[x]) && Rank(root, places[x]) < n
  }

  ghost predicate Extends(a: Places, b: Places) {
    forall x :: x in a ==> x in b && b[x] == a[x]
  }

  /** Place p lies in the part of the text that doc, printed at `at`, spells out. */
  ghost predicate PlacedIn(doc: Doc, at: Position, p: Position) {
    |at| <= |p| && p[..|at|] == at && SpeltOut(doc, p[|at|..])
  }

  lemma PlacedAtTop(doc: Doc, at: Position)
    requires doc.DArr?
    ensures PlacedIn(doc, at, at)
  {
  }

  lemma PlacedInItem(docs: seq<Doc>, at: Position, p: Position)
    requires PlacedInItems(docs, at, p)
    ensures PlacedIn(DArr(docs), at, p)
  {
    var k: nat :| k < |docs| && PlacedIn(docs[k], Child(at, k), p);
    assert p[..|at|] == p[..|at| + 1][..|at|] == at;
    assert p[|at|] == p[..|at| + 1][|at|] == k;
    assert p[|at|..][1..] == p[|at| + 1..];
  }

  lemma {:induction false} KeysAre(h: Digest, items: seq<Value>, key: seq<string>)
    requires |key| == |items|
    requires forall j :: 0 <= j < |items| ==> key[j] == Key(h, items[j])
    ensures key == Keys(h, items)
  {
    if items != [] {
      KeysAre(h, items[1..], key[1..]);
    }
  }

  /** What a finished print knows: the text is the print of the root, and each place holds an array
      of its hash, spelt out on the way to it. */
  ghost predicate Finished(h: Digest, root: Value, doc: Doc, places: Places) {
    && Printed(h, root, doc, root, [], places)
    && forall x :: x in places ==>
         SpeltOut(doc, places[x]) && HasArr(root, places[x]) && Hash(h, Sub(root, places[x])) == x
  }

  /** stringify(root). */
  method Stringify(h: Digest, root: Value) returns (doc: Doc, thrown: bool, ghost places: Places)
    ensures !thrown
    ensures Finished(h, root, doc, places)
  {
    var p := new Printer(h, root);
    doc, thrown := p.Serialize(Arr([root]), 0, root, []);
    places := p.places;
    forall x | x in places ensures SpeltOut(doc, places[x]) {
      assert PlacedIn(doc, [], places[x]);
      assert places[x][0..] == places[x];
    }
  }

  // ----- What the links name -----

  /** The hash tells the arrays at s and t apart, unless they are equal. */
  ghost predicate Distinguishes(h: Digest, root: Value, s: Position, t: Position) {
    HasArr(root, s) && HasArr(root, t) && Hash(h, Sub(root, s)) == Hash(h, Sub(root, t)) ==>
      Sub(root, s) == Sub(root, t)
  }

  /** The hash tells all the different arrays inside root apart. */
  ghost predicate CollisionFree(h: Digest, root: Value) {
    forall s, t :: Distinguishes(h, root, s, t)
  }

  /** The hash of the array at s has a place, which holds an equal array and comes no later. */
  ghost predicate IsFirst(h: Digest, root: Value, places: Places, s: Position)
    requires HasArr(root, s)
  {
    var hash := Hash(h, Sub(root, s));
    && hash in places && HasArr(root, places[hash])
    && Sub(root, places[hash]) == Sub(root, s)
    && Rank(root, places[hash]) <= Rank(root, s)
  }

  /** The place of every array's hash is no later than the array: it is the first occurrence. */
  lemma {:induction false} PlacesAreFirst(h: Digest, root: Value, doc: Doc, places: Places, s: Position)
    requires Finished(h, root, doc, places) && CollisionFree(h, root)
    requires HasArr(root, s)
    ensures IsFirst(h, root, places, s)
    decreases Rank(root, s), |s| + 1
  {
    assert [] + s == s;
    WalkToFirst(h, root, doc, places, doc, root, [], s);
  }

  /** Follow the print from d, the print of v at `at`, along `rest`; the first link met leads to an
      earlier copy, where the search starts over. */
  lemma {:induction false} WalkToFirst(h: Digest, root: Value, doc: Doc, places: Places, d: Doc, v: Value,
                                       at: Position, rest: Position)
    requires Finished(h, root, doc, places) && CollisionFree(h, root)
    requires HasArr(root, at + rest) && Has(root, at) && Sub(root, at) == v
    requires Printed(h, root, d, v, at, places)
    ensures IsFirst(h, root, places, at + rest)
    decreases Rank(root, at + rest), |rest|
  {
    hide Printed, Rank, Hash, Has, Sub, CollisionFree;
    SubAppend(root, at, rest);
    HasRest(v, rest);
    PrintedStep(h, root, d, v, at, places);
    var u := places[Hash(h, v)];
    if rest == [] || u != at {
      AllDistinguished(h, root, u, at);
    }
    if rest == [] {
      assert at + rest == at;
    } else if u == at {
      assert Child(at, rest[0]) + rest[1..] == at + rest;
      ChildRank(root, at, v, rest[0]);
      WalkToFirst(h, root, doc, places, d.items[rest[0]], v.items[rest[0]], Child(at, rest[0]), rest[1..]);
    } else {
      SameBelow(root, at, u, rest);
      PlacesAreFirst(h, root, doc, places, u + rest);
    }
  }

  lemma HasRest(v: Value, rest: Position)
    requires HasArr(v, rest)
    ensures v.Arr? && (rest != [] ==> rest[0] < |v.items|)
  {
  }

  lemma AllDistinguished(h: Digest, root: Value, s: Position, t: Position)
    requires CollisionFree(h, root)
    ensures Distinguishes(h, root, s, t)
  {
  }

  lemma PrintedStep(h: Digest, root: Value, d: Doc, v: Value, at: Position, places: Places)
    requires Printed(h, root, d, v, at, places) && v.Arr?
    ensures Hash(h, v) in places
    ensures places[Hash(h, v)] == at ==> d.DArr? && |d.items| == |v.items|
    ensures places[Hash(h, v)] == at ==>
              forall k: nat :: k < |v.items| ==> Printed(h, root, d.items[k], v.items[k], Child(at, k), places)
    ensures places[Hash(h, v)] != at ==> Earlier(root, places[Hash(h, v)], at)
  {
  }

  /** Equal arrays have equal parts, in the same order. */
  lemma SameBelow(root: Value, at: Position, u: Position, rest: Position)
    requires HasArr(root, at + rest) && Has(root, at) && Has(root, u) && Sub(root, u) == Sub(root, at)
    requires Rank(root, u) < Rank(root, at)
    ensures HasArr(root, u + rest) && Sub(root, u + rest) == Sub(root, at + rest)
    ensures Rank(root, u + rest) < Rank(root, at + rest)
  {
    SubAppend(root, at, rest);
    SubAppend(root, u, rest);
    RankAppend(root, at, rest);
    RankAppend(root, u, rest);
  }

  /** doc holds a link with this path at position r, reached through spelt-out arrays only. */
  ghost predicate LinkAt(doc: Doc, r: Position, path: string)
    decreases |r|
  {
    if r == [] then doc == DRef(path)
    else doc.DArr? && r[0] < |doc.items| && LinkAt(doc.items[r[0]], r[1..], path)
  }

  lemma {:induction false} LinkPrinted(h: Digest, root: Value, doc: Doc, v: Value, at: Position, places: Places,
                                       r: Position, path: string)
    requires Printed(h, root, doc, v, at, places) && LinkAt(doc, r, path)
    ensures HasArr(v, r)
    ensures Hash(h, Sub(v, r)) in places
    ensures path == PathText(places[Hash(h, Sub(v, r))])
    ensures Earlier(root, places[Hash(h, Sub(v, r))], at + r)
    decreases |r|
  {
    if r == [] {
      assert at + r == at;
    } else {
      LinkPrinted(h, root, doc.items[r[0]], v.items[r[0]], Child(at, r[0]), places, r[1..], path);
      assert Child(at, r[0]) + r[1..] == at + r;
    }
  }

  /** Every link names the first occurrence of a subtree equal to the one it replaces; the way there
      crosses no other link, and it never leads to an ancestor of the link. */
  lemma LinksNameFirstOccurrences(h: Digest, root: Value, doc: Doc, places: Places, r: Position, path: string)
    returns (u: Position)
    requires Finished(h, root, doc, places) && CollisionFree(h, root)
    requires LinkAt(doc, r, path)
    ensures path == PathText(u) && SpeltOut(doc, u)
    ensures HasArr(root, r) && HasArr(root, u) && Sub(root, u) == Sub(root, r)
    ensures Rank(root, u) < Rank(root, r)
    ensures forall s :: HasArr(root, s) && Sub(root, s) == Sub(root, r) ==> Rank(root, u) <= Rank(root, s)
    ensures !(u <= r)
  {
    LinkPrinted(h, root, doc, root, [], places, r, path);
    assert [] + r == r;
    u := places[Hash(h, Sub(root, r))];
    assert Distinguishes(h, root, u, r);
    forall s | HasArr(root, s) && Sub(root, s) == Sub(root, r)
      ensures Rank(root, u) <= Rank(root, s)
    {
      PlacesAreFirst(h, root, doc, places, s);
    }
    if u <= r {
      assert u != r && r == u + r[|u|..];
      SubAppend(root, u, r[|u|..]);
      SubSmaller(Sub(root, u), r[|u|..]);
    }
  }

  /** No subtree is spelt out twice, whatever the hash does. */
  lemma SpeltOutOnce(h: Digest, root: Value, doc: Doc, places: Places, r: Position, r': Position)
    requires Finished(h, root, doc, places)
    requires SpeltOut(doc, r) && SpeltOut(doc, r')
    ensures HasArr(root, r) && HasArr(root, r')
    ensures Sub(root, r) == Sub(root, r') ==> r == r'
  {
    PrintedAt(h, root, doc, root, [], places, r);
    PrintedAt(h, root, doc, root, [], places, r');
    assert [] + r == r && [] + r' == r';
  }
}
