/** Which trees the hash of ts/stringify.ts tells apart, so that they survive the trip. */
module Collisions {
  import opened Values
  import opened Printing

  /** Of two arrays inside root only those with the same key list have the same digest. */
  ghost predicate DigestSeparates(h: Digest, root: Value) {
    forall s, t :: HasArr(root, s) && HasArr(root, t) && Hash(h, Sub(root, s)) == Hash(h, Sub(root, t)) ==>
      Keys(h, Sub(root, s).items) == Keys(h, Sub(root, t).items)
  }

  /** How numbers begin, in JavaScript and in JSON. */
  predicate IsNumberText(text: string) { text != "" && (text[0] == '-' || '0' <= text[0] <= '9') }

  ghost predicate NumbersAreNumbers(root: Value) {
    forall s :: Has(root, s) ==> NumberIsNumber(Sub(root, s))
  }

  predicate NumberIsNumber(v: Value) { v.Leaf? && v.prim.Num? ==> IsNumberText(v.prim.text) }

  /** A leaf and a string that has its text: null and "null", true and "true", false and "false", a number and its
      digits. */
  predicate IsTextOf(x: Value, y: Value) {
    && x.Leaf? && y.Leaf? && y.prim.Str?
    && match x.prim
       case Null => y.prim.s == "null"
       case Bool(b) => y.prim.s == if b then "true" else "false"
       case Num(text) => y.prim.s == text
       case Str(_) => false
  }

  /** Leaves that differ but have the same text. */
  predicate SameText(x: Value, y: Value) { IsTextOf(x, y) || IsTextOf(y, x) }

  /** These are all the different leaves that are rendered alike. */
  lemma SameTextIff(x: Prim, y: Prim)
    requires NumberIsNumber(Leaf(x)) && NumberIsNumber(Leaf(y))
    ensures x != y && Render(x) == Render(y) <==> SameText(Leaf(x), Leaf(y))
  {
  }

  /** A leaf whose text is the digest of an array. */
  ghost predicate IsDigestText(h: Digest, x: Value, y: Value) { x.Leaf? && y.Arr? && IsText(x.prim, Hash(h, y)) }

  /** Two items that getPrimitive renders alike though they differ. */
  ghost predicate Confused(h: Digest, x: Value, y: Value) {
    SameText(x, y) || IsDigestText(h, x, y) || IsDigestText(h, y, x)
  }

  lemma ConfusedIff(h: Digest, x: Value, y: Value)
    requires NumberIsNumber(x) && NumberIsNumber(y)
    ensures Confused(h, x, y) <==> x != y && (x.Leaf? || y.Leaf?) && Key(h, x) == Key(h, y)
  {
    if x.Leaf? && y.Leaf? { SameTextIff(x.prim, y.prim); }
  }

  /** Arrays that differ, in confused items only. */
  ghost predicate Clash(h: Digest, u: Value, v: Value) {
    && u.Arr? && v.Arr? && u != v && |u.items| == |v.items|
    && forall k: nat :: k < |u.items| ==> u.items[k] == v.items[k] || Confused(h, u.items[k], v.items[k])
  }

  ghost predicate ClashesAt(h: Digest, root: Value, s: Position, t: Position) {
    HasArr(root, s) && HasArr(root, t) && Clash(h, Sub(root, s), Sub(root, t))
  }

  lemma {:induction false} KeysAt(h: Digest, items: seq<Value>, k: nat)
    requires k < |items|
    ensures Keys(h, items)[k] == Key(h, items[k])
  {
    if k > 0 { KeysAt(h, items[1..], k - 1); }
  }

  lemma KeysEqual(h: Digest, a: seq<Value>, b: seq<Value>)
    requires |a| == |b| && forall k: nat :: k < |a| ==> Key(h, a[k]) == Key(h, b[k])
    ensures Keys(h, a) == Keys(h, b)
  {
    forall k: nat | k < |a|
      ensures Keys(h, a)[k] == Keys(h, b)[k]
    {
      KeysAt(h, a, k);
      KeysAt(h, b, k);
    }
  }

  /** Under different arrays with the same hash there is a clash. */
  lemma {:induction false} FindClash(h: Digest, root: Value, s: Position, t: Position)
    requires DigestSeparates(h, root) && NumbersAreNumbers(root) && HasArr(root, s) && HasArr(root, t)
    requires Hash(h, Sub(root, s)) == Hash(h, Sub(root, t)) && Sub(root, s) != Sub(root, t)
    ensures exists p, q :: ClashesAt(h, root, p, q)
    decreases Size(Sub(root, s))
  {
    hide Has, Sub, Key, Size, Confused;
    var u, v := Sub(root, s), Sub(root, t);
    assert |u.items| == |Keys(h, u.items)| == |Keys(h, v.items)| == |v.items|;
    forall k: nat | k < |u.items|
      ensures Confused(h, u.items[k], v.items[k]) <==>
              u.items[k] != v.items[k] && (u.items[k].Leaf? || v.items[k].Leaf?)
      ensures Key(h, u.items[k]) == Key(h, v.items[k])
    {
      ItemsConfused(h, root, s, t, k);
      KeysAt(h, u.items, k);
      KeysAt(h, v.items, k);
    }
    if forall k: nat :: k < |u.items| ==> u.items[k] == v.items[k] || Confused(h, u.items[k], v.items[k]) {
      assert ClashesAt(h, root, s, t);
    } else {
      var k: nat :| k < |u.items| && u.items[k] != v.items[k] && !Confused(h, u.items[k], v.items[k]);
      ChildRank(root, s, u, k);
      ChildRank(root, t, v, k);
      ChildSmaller(u, k);
      KeyOfArr(h, u.items[k], v.items[k]);
      FindClash(h, root, Child(s, k), Child(t, k));
    }
  }

  /** When items of two arrays inside root are confused. */
  lemma ItemsConfused(h: Digest, root: Value, s: Position, t: Position, k: nat)
    requires NumbersAreNumbers(root) && HasArr(root, s) && HasArr(root, t)
    requires k < |Sub(root, s).items| && k < |Sub(root, t).items|
    ensures var x, y := Sub(root, s).items[k], Sub(root, t).items[k];
            Confused(h, x, y) <==> x != y && (x.Leaf? || y.Leaf?) && Key(h, x) == Key(h, y)
  {
    hide Has, Sub, Confused, Key;
    ChildRank(root, s, Sub(root, s), k);
    ChildRank(root, t, Sub(root, t), k);
    ConfusedIff(h, Sub(root, s).items[k], Sub(root, t).items[k]);
  }

  lemma ChildSmaller(u: Value, k: nat)
    requires u.Arr? && k < |u.items|
    ensures Size(u.items[k]) < Size(u)
  {
    SizesSnoc(u.items, k);
    SizesMonotone(u.items, k + 1);
  }

  lemma KeyOfArr(h: Digest, u: Value, v: Value)
    requires u.Arr? && v.Arr? && Key(h, u) == Key(h, v)
    ensures Hash(h, u) == Hash(h, v)
  {
  }

  /** The hash tells all different arrays inside a tree apart if and only if no two of them clash: the condition of
      the round trip, in terms of the leaves. */
  lemma CollisionFreeIff(h: Digest, root: Value)
    requires DigestSeparates(h, root) && NumbersAreNumbers(root)
    ensures CollisionFree(h, root) <==> forall s, t :: !ClashesAt(h, root, s, t)
  {
    hide Has, Sub, Key, Confused;
    if s, t :| ClashesAt(h, root, s, t) {
      var u, v := Sub(root, s), Sub(root, t);
      forall k: nat | k < |u.items|
        ensures Key(h, u.items[k]) == Key(h, v.items[k])
      {
        ItemsConfused(h, root, s, t, k);
      }
      KeysEqual(h, u.items, v.items);
      assert !Distinguishes(h, root, s, t);
    }
    if s, t :| !Distinguishes(h, root, s, t) {
      FindClash(h, root, s, t);
    }
  }

  // ---------------------------------------------------------------- without digests among the leaves

  /** No leaf inside root has the digest of an array inside root for its text. */
  ghost predicate NoDigestTexts(h: Digest, root: Value) {
    forall s, t :: Has(root, s) && HasArr(root, t) ==> !IsDigestText(h, Sub(root, s), Sub(root, t))
  }

  /** Arrays inside root that differ in the kind of some leaves only. */
  ghost predicate DifferInKind(root: Value, s: Position, t: Position) {
    && HasArr(root, s) && HasArr(root, t) && Sub(root, s) != Sub(root, t)
    && |Sub(root, s).items| == |Sub(root, t).items|
    && forall k: nat :: k < |Sub(root, s).items| ==>
         Sub(root, s).items[k] == Sub(root, t).items[k] || SameText(Sub(root, s).items[k], Sub(root, t).items[k])
  }

  /** Then the hash plays no part in the condition. */
  lemma CollisionFreeIffKinds(h: Digest, root: Value)
    requires DigestSeparates(h, root) && NumbersAreNumbers(root) && NoDigestTexts(h, root)
    ensures CollisionFree(h, root) <==> forall s, t :: !DifferInKind(root, s, t)
  {
    hide CollisionFree, SameText;
    CollisionFreeIff(h, root);
    forall s, t
      ensures ClashesAt(h, root, s, t) <==> DifferInKind(root, s, t)
    {
      if HasArr(root, s) && HasArr(root, t) && |Sub(root, s).items| == |Sub(root, t).items| {
        forall k: nat | k < |Sub(root, s).items| { ItemsNoDigests(h, root, s, t, k); }
      }
    }
  }

  lemma ItemsNoDigests(h: Digest, root: Value, s: Position, t: Position, k: nat)
    requires NoDigestTexts(h, root) && HasArr(root, s) && HasArr(root, t)
    requires k < |Sub(root, s).items| && k < |Sub(root, t).items|
    ensures Confused(h, Sub(root, s).items[k], Sub(root, t).items[k]) <==>
            SameText(Sub(root, s).items[k], Sub(root, t).items[k])
  {
    hide Has, Sub, SameText;
    ChildRank(root, s, Sub(root, s), k);
    ChildRank(root, t, Sub(root, t), k);
    assert Has(root, Child(s, k)) && Has(root, Child(t, k));
  }

  ghost predicate NoStrings(root: Value) {
    forall s :: Has(root, s) ==> !(Sub(root, s).Leaf? && Sub(root, s).prim.Str?)
  }

  /** A tree without strings always survives. */
  lemma WithoutStrings(h: Digest, root: Value)
    requires DigestSeparates(h, root) && NumbersAreNumbers(root) && NoDigestTexts(h, root) && NoStrings(root)
    ensures CollisionFree(h, root)
  {
    hide CollisionFree, Has, Sub;
    CollisionFreeIffKinds(h, root);
    forall s, t
      ensures !DifferInKind(root, s, t)
    {
      if DifferInKind(root, s, t) {
        var u, v := Sub(root, s), Sub(root, t);
        forall k: nat | k < |u.items|
          ensures u.items[k] == v.items[k]
        {
          ChildRank(root, s, u, k);
          ChildRank(root, t, v, k);
          assert Has(root, Child(s, k)) && Has(root, Child(t, k));
        }
      }
    }
  }

  // ---------------------------------------------------------------- examples

  /** A string may be the digest of an array: these two clash for every digest. */
  lemma DigestTextClashes(h: Digest, v: Value)
    requires v.Arr?
    ensures !CollisionFree(h, Arr([Arr([v]), Arr([Leaf(Str(Hash(h, v)))])]))
  {
    var inner, text := Arr([v]), Arr([Leaf(Str(Hash(h, v)))]);
    var root := Arr([inner, text]);
    assert Has(root, [0]) && Sub(root, [0]) == inner by { HasItem(root, 0); }
    assert Has(root, [1]) && Sub(root, [1]) == text by { HasItem(root, 1); }
    KeysEqual(h, inner.items, text.items);
    assert !Distinguishes(h, root, [0], [1]);
  }

  lemma HasItem(v: Value, k: nat)
    requires v.Arr? && k < |v.items|
    ensures Has(v, [k]) && Sub(v, [k]) == v.items[k]
  {
    var p: Position := [k];
    assert p[1..] == [] && Has(v.items[k], []);
  }
}
