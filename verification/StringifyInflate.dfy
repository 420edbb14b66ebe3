/** The reading half of ts/stringify.ts, and the round trip. */
module Inflating {
  import opened Values
  import opened Paths
  import opened Printing
  import opened Collisions

  /** A JavaScript value: arrays are heap cells, and a {$ref} object is what JSON.parse makes of a link. */
  datatype Item = IPrim(prim: Prim) | IPtr(a: nat) | IRef(path: string) | IUndefined

  type Heap = seq<seq<Item>>

  /** parent[key]; the holder JSON.parse puts around the whole text is not part of the result. */
  datatype Slot = Top | In(parent: nat, key: nat)

  /** One entry of refs. */
  datatype Pending = Pending(slot: Slot, path: string)

  /** What inflate returns or throws; TypeError is indexing into undefined or null. */
  datatype Outcome = Done(heap: Heap) | InvalidPath | TypeError

  // ----- Walking a path -----

  /** ptr[parseInt(idx)]. */
  function Step(heap: Heap, item: Item, idx: MaybeNat): (r: WalkResult) {
    match item
    case IPtr(a) => Found(if a < |heap| && idx.Int? && idx.n < |heap[a]| then heap[a][idx.n] else IUndefined)
    case IPrim(Str(s)) => Found(if idx.Int? && idx.n < |s| then IPrim(Str([s[idx.n]])) else IUndefined)
    case IPrim(Null) => Throws
    case IUndefined => Throws
    case _ => Found(IUndefined)
  }

  datatype WalkResult = Found(item: Item) | Throws

  function Walk(heap: Heap, item: Item, idxs: seq<MaybeNat>): WalkResult
    decreases |idxs|
  {
    if idxs == [] then Found(item)
    else match Step(heap, item, idxs[0])
      case Throws => Throws
      case Found(next) => Walk(heap, next, idxs[1..])
  }

  predicate InHeap(heap: Heap, slot: Slot) {
    slot.In? ==> slot.parent < |heap| && slot.key < |heap[slot.parent]|
  }

  ghost predicate SameShape(heap: Heap, heap': Heap) {
    |heap| == |heap'| && forall a :: 0 <= a < |heap| ==> |heap[a]| == |heap'[a]|
  }

  function Store(heap: Heap, slot: Slot, item: Item): (h: Heap)
    requires InHeap(heap, slot)
    ensures SameShape(heap, h)
  {
    match slot
    case Top => heap
    case In(parent, key) => heap[parent := heap[parent][key := item]]
  }

  /** The body of the patching loop. */
  function PatchOne(heap: Heap, root: Item, ref: Pending): (r: Outcome)
    requires InHeap(heap, ref.slot)
    ensures r.Done? ==> SameShape(heap, r.heap)
  {
    var parts := Split(ref.path);
    if parts[0] != "#" then InvalidPath
    else match Walk(heap, root, Indices(parts[1..]))
      case Throws => TypeError
      case Found(item) => Done(Store(heap, ref.slot, item))
  }

  lemma StayInHeap(heap: Heap, next: Heap, refs: seq<Pending>)
    requires SameShape(heap, next)
    requires forall p :: p in refs ==> InHeap(heap, p.slot)
    ensures forall p :: p in refs ==> InHeap(next, p.slot)
    ensures refs != [] ==> forall p :: p in refs[1..] ==> p in refs
  {
    forall p | p in refs ensures InHeap(next, p.slot) {
      assert InHeap(heap, p.slot);
    }
  }

  function PatchAll(heap: Heap, root: Item, refs: seq<Pending>): Outcome
    requires forall p :: p in refs ==> InHeap(heap, p.slot)
    decreases |refs|
  {
    if refs == [] then Done(heap)
    else match PatchOne(heap, root, refs[0])
      case Done(next) =>
        StayInHeap(heap, next, refs);
        PatchAll(next, root, refs[1..])
      case other => other
  }

  // ----- The reader -----

  /** item is doc parsed into heap cells from lo on, one cell per array. */
  ghost predicate Built(doc: Doc, item: Item, heap: Heap, lo: nat) {
    match doc
    case DLeaf(p) => item == IPrim(p)
    case DRef(path) => item == IRef(path)
    case DArr(items) =>
      && item.IPtr? && lo <= item.a < |heap| && |heap[item.a]| == |items|
      && forall k: nat :: k < |items| ==> Built(items[k], heap[item.a][k], heap, lo)
  }

  lemma {:induction false} BuiltFrame(doc: Doc, item: Item, heap: Heap, heap': Heap, lo: nat, lo': nat)
    requires Built(doc, item, heap, lo)
    requires lo' <= lo && |heap| <= |heap'|
    requires forall b :: lo <= b < |heap| ==> heap'[b] == heap[b]
    ensures Built(doc, item, heap', lo')
  {
    if doc.DArr? {
      forall k: nat | k < |doc.items|
        ensures Built(doc.items[k], heap'[item.a][k], heap', lo')
      {
        BuiltFrame(doc.items[k], heap[item.a][k], heap, heap', lo, lo');
      }
    }
  }

  /** The link of one pending entry sits where the entry says. */
  ghost predicate Sits(heap: Heap, p: Pending) {
    p.slot.In? && InHeap(heap, p.slot) && heap[p.slot.parent][p.slot.key] == IRef(p.path)
  }

  /** The path occurs in doc. */
  ghost predicate Mentions(doc: Doc, path: string) {
    match doc
    case DLeaf(_) => false
    case DRef(p) => p == path
    case DArr(items) => exists k: nat :: k < |items| && Mentions(items[k], path)
  }

  /** Every link in the cells from lo on is pending. */
  ghost predicate AllPending(heap: Heap, refs: seq<Pending>, lo: nat) {
    forall b: nat, k: nat :: lo <= b < |heap| && k < |heap[b]| && heap[b][k].IRef? ==>
      Pending(In(b, k), heap[b][k].path) in refs
  }

  /** The entries parsing doc into `slot` adds: the links of its cells, and doc itself when it is one. */
  ghost predicate Collected(doc: Doc, slot: Slot, heap: Heap, refs: seq<Pending>, lo: nat) {
    && (forall p :: p in refs ==>
          Mentions(doc, p.path) && ((doc.DRef? && p.slot == slot) || (Sits(heap, p) && p.slot.parent >= lo)))
    && (doc.DRef? ==> Pending(slot, doc.path) in refs)
    && AllPending(heap, refs, lo)
  }

  /** State of the item loop of Parse: i items of the array in cell a are done. */
  ghost predicate ItemsParsed(items: seq<Doc>, i: nat, a: nat, heap: Heap, refs: seq<Pending>) {
    && i <= |items| && a < |heap| && |heap[a]| == i
    && (forall k: nat :: k < i ==> Built(items[k], heap[a][k], heap, a + 1))
    && (forall p :: p in refs ==> Mentions(DArr(items), p.path) && Sits(heap, p) && p.slot.parent >= a)
    && AllPending(heap, refs, a)
  }

  lemma ItemParsed(items: seq<Doc>, i: nat, a: nat, heap: Heap, refs: seq<Pending>, heap': Heap, more: seq<Pending>,
                   next: Item, heap'': Heap)
    requires ItemsParsed(items, i, a, heap, refs) && i < |items|
    requires |heap| <= |heap'| && heap'[..|heap|] == heap
    requires Built(items[i], next, heap', |heap|)
    requires Collected(items[i], In(a, i), heap', more, |heap|)
    requires Appended(heap', a, next, heap'')
    ensures ItemsParsed(items, i + 1, a, heap'', refs + more)
  {
    PrefixCells(heap, heap');
    ItemsStayBuilt(items, i, a, heap, heap', heap'');
    LastBuilt(items[i], next, |heap|, a, heap', heap'');
    RefsStay(items, i, a, heap, refs, heap', more, next, heap'');
    LinksStayPending(items, i, a, heap, refs, heap', more, next, heap'');
  }

  /** heap' still has all the cells of heap, unchanged. */
  ghost predicate Keeps(heap: Heap, heap': Heap) {
    |heap| <= |heap'| && forall b :: 0 <= b < |heap| ==> heap'[b] == heap[b]
  }

  lemma PrefixCells(heap: Heap, heap': Heap)
    requires |heap| <= |heap'| && heap'[..|heap|] == heap
    ensures Keeps(heap, heap')
  {
    forall b | 0 <= b < |heap| ensures heap'[b] == heap[b] { assert heap'[b] == heap'[..|heap|][b]; }
  }

  /** Cell a of heap' with one item more. */
  ghost predicate Appended(heap': Heap, a: nat, next: Item, heap'': Heap) {
    a < |heap'| && heap'' == heap'[a := heap'[a] + [next]]
  }

  lemma ItemsStayBuilt(items: seq<Doc>, i: nat, a: nat, heap: Heap, heap': Heap, heap'': Heap)
    requires i <= |items| && a < |heap| && |heap[a]| == i
    requires forall k: nat :: k < i ==> Built(items[k], heap[a][k], heap, a + 1)
    requires Keeps(heap, heap') && exists next :: Appended(heap', a, next, heap'')
    ensures |heap''[a]| == i + 1
    ensures forall k: nat :: k < i ==> Built(items[k], heap''[a][k], heap'', a + 1)
  {
    forall k: nat | k < i
      ensures Built(items[k], heap''[a][k], heap'', a + 1)
    {
      BuiltFrame(items[k], heap[a][k], heap, heap'', a + 1, a + 1);
    }
  }

  lemma LastBuilt(doc: Doc, next: Item, lo: nat, a: nat, heap': Heap, heap'': Heap)
    requires a < lo && Appended(heap', a, next, heap'')
    requires Built(doc, next, heap', lo)
    ensures Built(doc, next, heap'', a + 1)
  {
    BuiltFrame(doc, next, heap', heap'', lo, a + 1);
  }

  lemma RefsStay(items: seq<Doc>, i: nat, a: nat, heap: Heap, refs: seq<Pending>, heap': Heap, more: seq<Pending>,
                 next: Item, heap'': Heap)
    requires i < |items| && a < |heap| && |heap[a]| == i
    requires forall p :: p in refs ==> Mentions(DArr(items), p.path) && Sits(heap, p) && p.slot.parent >= a
    requires Keeps(heap, heap')
    requires forall p :: p in more ==>
               && Mentions(items[i], p.path)
               && ((items[i].DRef? && p.slot == In(a, i)) || (Sits(heap', p) && p.slot.parent >= |heap|))
    requires Built(items[i], next, heap', |heap|)
    requires Appended(heap', a, next, heap'')
    ensures forall p :: p in refs + more ==> Mentions(DArr(items), p.path) && Sits(heap'', p) && p.slot.parent >= a
  {
    forall p | p in refs + more
      ensures Mentions(DArr(items), p.path) && Sits(heap'', p) && p.slot.parent >= a
    {
      if p in more {
        assert Mentions(items[i], p.path);
      }
    }
  }

  lemma LinksStayPending(items: seq<Doc>, i: nat, a: nat, heap: Heap, refs: seq<Pending>, heap': Heap,
                         more: seq<Pending>, next: Item, heap'': Heap)
    requires i < |items| && a < |heap| && |heap[a]| == i
    requires AllPending(heap, refs, a) && AllPending(heap', more, |heap|)
    requires Keeps(heap, heap')
    requires items[i].DRef? ==> Pending(In(a, i), items[i].path) in more
    requires Built(items[i], next, heap', |heap|)
    requires Appended(heap', a, next, heap'')
    ensures AllPending(heap'', refs + more, a)
  {
    forall b: nat, k: nat | a <= b < |heap''| && k < |heap''[b]| && heap''[b][k].IRef?
      ensures Pending(In(b, k), heap''[b][k].path) in refs + more
    {
      if b < |heap| && !(b == a && k == i) {
        assert heap[b][k] == heap''[b][k];
        assert Pending(In(b, k), heap[b][k].path) in refs;
      } else if b >= |heap| {
        assert Pending(In(b, k), heap'[b][k].path) in more;
      }
    }
  }

  class Reader {
    var heap: Heap
    var refs: seq<Pending>

    constructor ()
      ensures heap == [] && refs == []
    {
      heap, refs := [], [];
    }

    /** JSON.parse with the reviver that collects links. */
    method Parse(doc: Doc, slot: Slot) returns (item: Item)
      modifies this
      ensures old(|heap|) <= |heap| && heap[..old(|heap|)] == old(heap)
      ensures old(|refs|) <= |refs| && refs[..old(|refs|)] == old(refs)
      ensures Built(doc, item, heap, old(|heap|))
      ensures Collected(doc, slot, heap, refs[old(|refs|)..], old(|heap|))
      decreases doc
    {
      match doc
      case DLeaf(p) =>
        item := IPrim(p);
      case DRef(path) =>
        refs := refs + [Pending(slot, path)];
        item := IRef(path);
      case DArr(items) =>
        var a := |heap|;
        ghost var r := |refs|;
        heap := heap + [[]];
        var i := 0;
        while i < |items|
          invariant 0 <= i <= |items|
          invariant a <= |heap| && heap[..a] == old(heap)
          invariant r <= |refs| && refs[..r] == old(refs)
          invariant ItemsParsed(items, i, a, heap, refs[r..])
        {
          ghost var heap0, refs0 := heap, refs;
          var next := Parse(items[i], In(a, i));
          ItemParsed(items, i, a, heap0, refs0[r..], heap, refs[|refs0|..], next, heap[a := heap[a] + [next]]);
          PrefixOfPrefix(heap, heap0, a);
          PrefixOfPrefix(refs, refs0, r);
          heap := heap[a := heap[a] + [next]];
          i := i + 1;
        }
        item := IPtr(a);
        forall k: nat | k < |items| ensures Built(items[k], heap[a][k], heap, a) {
          BuiltFrame(items[k], heap[a][k], heap, heap, a + 1, a);
        }
    }

    /** The loop that patches the links in place. */
    method Patch(obj: Item) returns (outcome: Outcome)
      requires forall p :: p in refs ==> InHeap(heap, p.slot)
      modifies this`heap
      ensures outcome == PatchAll(old(heap), obj, refs)
      ensures outcome.Done? ==> outcome.heap == heap
    {
      var i := 0;
      while i < |refs|
        invariant 0 <= i <= |refs|
        invariant forall p :: p in refs ==> InHeap(heap, p.slot)
        invariant PatchAll(heap, obj, refs[i..]) == PatchAll(old(heap), obj, refs)
      {
        assert refs[i..][0] == refs[i] && refs[i..][1..] == refs[i + 1..];
        var parts := Split(refs[i].path);
        if parts[0] != "#" { return InvalidPath; }
        match Walk(heap, obj, Indices(parts[1..])) {
          case Throws => return TypeError;
          case Found(ptr) => heap := Store(heap, refs[i].slot, ptr);
        }
        i := i + 1;
      }
      return Done(heap);
    }
  }

  lemma PrefixOfPrefix<T>(s: seq<T>, t: seq<T>, n: nat)
    requires n <= |t| <= |s| && s[..|t|] == t
    ensures s[..n] == t[..n]
    ensures s[n..] == t[n..] + s[|t|..]
  {
    assert s[..n] == s[..|t|][..n];
    assert s == t + s[|t|..];
  }

  /** The parsed text before any link is patched. */
  ghost predicate Parsed(doc: Doc, obj: Item, heap: Heap, refs: seq<Pending>) {
    Built(doc, obj, heap, 0) && Collected(doc, Top, heap, refs, 0)
  }

  /** inflate(text) with the default root path. */
  method Inflate(doc: Doc) returns (obj: Item, outcome: Outcome, ghost parsed: Heap, ghost refs: seq<Pending>)
    ensures Parsed(doc, obj, parsed, refs)
    ensures forall p :: p in refs ==> InHeap(parsed, p.slot)
    ensures outcome == PatchAll(parsed, obj, refs)
  {
    var reader := new Reader();
    obj := reader.Parse(doc, Top);
    parsed, refs := reader.heap, reader.refs;
    assert reader.refs[0..] == reader.refs;
    outcome := reader.Patch(obj);
  }

  // ----- Patching the links of a printed text -----

  /** The path runs through arrays only and ends at array b. */
  ghost predicate PtrWalk(heap: Heap, item: Item, idxs: seq<MaybeNat>, b: nat)
    decreases |idxs|
  {
    && item.IPtr? && item.a < |heap|
    && if idxs == [] then item.a == b
       else idxs[0].Int? && idxs[0].n < |heap[item.a]| && PtrWalk(heap, heap[item.a][idxs[0].n], idxs[1..], b)
  }

  ghost predicate LeadsTo(heap: Heap, root: Item, path: string, b: nat) {
    Split(path)[0] == "#" && PtrWalk(heap, root, Indices(Split(path)[1..]), b)
  }

  lemma {:induction false} PtrWalkIsWalk(heap: Heap, item: Item, idxs: seq<MaybeNat>, b: nat)
    requires PtrWalk(heap, item, idxs, b)
    ensures Walk(heap, item, idxs) == Found(IPtr(b))
    decreases |idxs|
  {
    if idxs != [] { PtrWalkIsWalk(heap, heap[item.a][idxs[0].n], idxs[1..], b); }
  }

  /** Only links were overwritten, and each only by the array it leads to. */
  ghost predicate PartlyPatched(heap: Heap, cur: Heap, root: Item) {
    && SameShape(heap, cur)
    && forall a: nat, k: nat :: a < |heap| && k < |heap[a]| ==> PatchedItem(heap, root, heap[a][k], cur[a][k])
  }

  ghost predicate PatchedItem(heap: Heap, root: Item, was: Item, now: Item) {
    now == was || (was.IRef? && now.IPtr? && LeadsTo(heap, root, was.path, now.a))
  }

  lemma {:induction false} PtrWalkStable(heap: Heap, cur: Heap, root: Item, item: Item, idxs: seq<MaybeNat>, b: nat)
    requires PartlyPatched(heap, cur, root) && PtrWalk(heap, item, idxs, b)
    ensures PtrWalk(cur, item, idxs, b)
    decreases |idxs|
  {
    if idxs != [] {
      var next := heap[item.a][idxs[0].n];
      assert PatchedItem(heap, root, next, cur[item.a][idxs[0].n]);
      assert next.IPtr?;
      PtrWalkStable(heap, cur, root, next, idxs[1..], b);
    }
  }

  /** The entry is one of the heap's links, or the holder's, and its path leads to an array. */
  ghost predicate GoodEntry(heap: Heap, root: Item, p: Pending) {
    (p.slot.Top? || Sits(heap, p)) && exists b :: LeadsTo(heap, root, p.path, b)
  }

  /** Patching works out in every order: whatever sequence of good entries is left, it succeeds, and
      afterwards each of their slots holds the array its path led to at the start. */
  lemma {:induction false} PatchAllSucceeds(heap: Heap, cur: Heap, root: Item, refs: seq<Pending>)
    requires PartlyPatched(heap, cur, root)
    requires forall p :: p in refs ==> GoodEntry(heap, root, p) && InHeap(cur, p.slot)
    ensures PatchAll(cur, root, refs).Done?
    ensures PartlyPatched(heap, PatchAll(cur, root, refs).heap, root)
    ensures forall a: nat, k: nat :: a < |cur| && k < |cur[a]| && cur[a][k].IPtr? ==>
              PatchAll(cur, root, refs).heap[a][k].IPtr?
    ensures forall p :: p in refs && p.slot.In? ==>
              PatchAll(cur, root, refs).heap[p.slot.parent][p.slot.key].IPtr?
    decreases |refs|
  {
    if refs != [] {
      assert refs[0] in refs;
      var next := PatchOneSucceeds(heap, cur, root, refs[0]);
      StayInHeap(cur, next, refs);
      PatchAllSucceeds(heap, next, root, refs[1..]);
      assert forall q :: q in refs ==> q == refs[0] || q in refs[1..];
    }
  }

  lemma PatchOneSucceeds(heap: Heap, cur: Heap, root: Item, p: Pending) returns (next: Heap)
    requires PartlyPatched(heap, cur, root)
    requires GoodEntry(heap, root, p) && InHeap(cur, p.slot)
    ensures PatchOne(cur, root, p) == Done(next)
    ensures PartlyPatched(heap, next, root) && SameShape(cur, next)
    ensures forall a: nat, k: nat :: a < |cur| && k < |cur[a]| && cur[a][k].IPtr? ==> next[a][k].IPtr?
    ensures p.slot.In? ==> next[p.slot.parent][p.slot.key].IPtr?
  {
    var b :| LeadsTo(heap, root, p.path, b);
    PtrWalkStable(heap, cur, root, root, Indices(Split(p.path)[1..]), b);
    PtrWalkIsWalk(cur, root, Indices(Split(p.path)[1..]), b);
    next := Store(cur, p.slot, IPtr(b));
    StoreKeepsPatched(heap, cur, root, p, b);
  }

  lemma StoreKeepsPatched(heap: Heap, cur: Heap, root: Item, p: Pending, b: nat)
    requires PartlyPatched(heap, cur, root) && InHeap(cur, p.slot)
    requires p.slot.Top? || Sits(heap, p)
    requires LeadsTo(heap, root, p.path, b)
    ensures PartlyPatched(heap, Store(cur, p.slot, IPtr(b)), root)
  {
    var next := Store(cur, p.slot, IPtr(b));
    forall a: nat, k: nat | a < |heap| && k < |heap[a]|
      ensures PatchedItem(heap, root, heap[a][k], next[a][k])
    {
      assert PatchedItem(heap, root, heap[a][k], cur[a][k]);
    }
  }

  // ----- What the patched heap stands for -----

  /** The heap value `item` is the tree v. */
  ghost predicate Denotes(heap: Heap, item: Item, v: Value)
    decreases v
  {
    match v
    case Leaf(p) => item == IPrim(p)
    case Arr(items) =>
      && item.IPtr? && item.a < |heap| && |heap[item.a]| == |items|
      && forall k: nat :: k < |items| ==> Denotes(heap, heap[item.a][k], items[k])
  }

  lemma {:induction false} DenotesUnique(heap: Heap, item: Item, v: Value, w: Value)
    requires Denotes(heap, item, v) && Denotes(heap, item, w)
    ensures v == w
    decreases v
  {
    if v.Arr? {
      forall k: nat | k < |v.items| ensures v.items[k] == w.items[k] {
        DenotesUnique(heap, heap[item.a][k], v.items[k], w.items[k]);
      }
    }
  }

  /** A text printed from root, parsed and patched: everything the proofs below talk about. */
  datatype Trip = Trip(h: Digest, root: Value, doc: Doc, places: Places, obj: Item, parsed: Heap, final: Heap)

  ghost predicate Complete(t: Trip) {
    && Finished(t.h, t.root, t.doc, t.places)
    && Built(t.doc, t.obj, t.parsed, 0)
    && PartlyPatched(t.parsed, t.final, t.obj)
    && forall a: nat, k: nat :: a < |t.parsed| && k < |t.parsed[a]| && t.parsed[a][k].IRef? ==> t.final[a][k].IPtr?
  }

  lemma {:induction false} BuiltAt(doc: Doc, item: Item, heap: Heap, r: Position) returns (b: nat)
    requires Built(doc, item, heap, 0) && SpeltOut(doc, r)
    ensures PtrWalk(heap, item, Ints(r), b)
    ensures Built(DocAt(doc, r), IPtr(b), heap, 0)
    decreases |r|
  {
    if r == [] {
      b := item.a;
    } else {
      b := BuiltAt(doc.items[r[0]], heap[item.a][r[0]], heap, r[1..]);
      assert Ints(r)[1..] == Ints(r[1..]);
    }
  }

  /** The array a hash's place was parsed into; links with the place's path lead there. */
  lemma PlaceBuilt(t: Trip, x: string) returns (b: nat)
    requires Finished(t.h, t.root, t.doc, t.places) && Built(t.doc, t.obj, t.parsed, 0)
    requires x in t.places
    ensures LeadsTo(t.parsed, t.obj, PathText(t.places[x]), b)
    ensures SpeltOut(t.doc, t.places[x])
    ensures Built(DocAt(t.doc, t.places[x]), IPtr(b), t.parsed, 0)
    ensures Printed(t.h, t.root, DocAt(t.doc, t.places[x]), Sub(t.root, t.places[x]), t.places[x], t.places)
  {
    var u := t.places[x];
    b := BuiltAt(t.doc, t.obj, t.parsed, u);
    SplitPathText(u);
    PrintedAt(t.h, t.root, t.doc, t.root, [], t.places, u);
    assert [] + u == u;
  }

  lemma {:induction false} PtrWalkUnique(heap: Heap, item: Item, idxs: seq<MaybeNat>, b: nat, c: nat)
    requires PtrWalk(heap, item, idxs, b) && PtrWalk(heap, item, idxs, c)
    ensures b == c
    decreases |idxs|
  {
    if idxs != [] { PtrWalkUnique(heap, heap[item.a][idxs[0].n], idxs[1..], b, c); }
  }

  /** Item k of a spelt-out array in the final heap: untouched, or the array its link leads to. */
  lemma FinalItem(t: Trip, d: Doc, v: Value, at: Position, a: nat, k: nat)
    requires Complete(t)
    requires Printed(t.h, t.root, d, v, at, t.places) && d.DArr? && Built(d, IPtr(a), t.parsed, 0)
    requires k < |d.items|
    ensures a < |t.parsed| == |t.final| && |t.final[a]| == |d.items| == |v.items|
    ensures !d.items[k].DRef? ==> t.final[a][k] == t.parsed[a][k]
    ensures d.items[k].DRef? ==>
              && v.items[k].Arr? && Hash(t.h, v.items[k]) in t.places
              && t.final[a][k].IPtr?
              && LeadsTo(t.parsed, t.obj, PathText(t.places[Hash(t.h, v.items[k])]), t.final[a][k].a)
              && Earlier(t.root, t.places[Hash(t.h, v.items[k])], Child(at, k))
  {
    assert PatchedItem(t.parsed, t.obj, t.parsed[a][k], t.final[a][k]);
    assert Built(d.items[k], t.parsed[a][k], t.parsed, 0);
    assert Printed(t.h, t.root, d.items[k], v.items[k], Child(at, k), t.places);
  }

  /** With a hash that tells subtrees apart, every spelt-out part stands for what it was printed from. */
  lemma {:induction false} DenotesPrinted(t: Trip, d: Doc, v: Value, at: Position, item: Item)
    requires Complete(t) && CollisionFree(t.h, t.root)
    requires Has(t.root, at) && Sub(t.root, at) == v
    requires Printed(t.h, t.root, d, v, at, t.places) && !d.DRef? && Built(d, item, t.parsed, 0)
    ensures Denotes(t.final, item, v)
    decreases v
  {
    if v.Arr? {
      forall k: nat | k < |v.items|
        ensures InFinal(t, item) && |t.final[item.a]| == |v.items| && Denotes(t.final, t.final[item.a][k], v.items[k])
      {
        FinalItem(t, d, v, at, item.a, k);
        ChildRank(t.root, at, v, k);
        if d.items[k].DRef? {
          var u := t.places[Hash(t.h, v.items[k])];
          assert Distinguishes(t.h, t.root, u, Child(at, k));
          var b := PlaceBuilt(t, Hash(t.h, v.items[k]));
          PtrWalkUnique(t.parsed, t.obj, Indices(Split(PathText(u))[1..]), b, t.final[item.a][k].a);
          DenotesPrinted(t, DocAt(t.doc, u), v.items[k], u, IPtr(b));
        } else {
          DenotesPrinted(t, d.items[k], v.items[k], Child(at, k), t.parsed[item.a][k]);
        }
      }
    }
  }

  ghost predicate InFinal(t: Trip, item: Item) { item.IPtr? && item.a < |t.final| }

  /** The array the place of x was parsed into stands for w. */
  ghost predicate PlaceDenotes(t: Trip, x: string, w: Value) {
    && x in t.places
    && exists b :: LeadsTo(t.parsed, t.obj, PathText(t.places[x]), b) && Denotes(t.final, IPtr(b), w)
  }

  /** If the patched heap stands for the root, the array printed for any hash stands for every
      subtree with that hash.  The walk goes from the spelt-out array at `at` along `rest`. */
  lemma {:induction false} PlaceStandsFor(t: Trip, d: Doc, v: Value, at: Position, rest: Position, b: nat)
    requires Complete(t) && Denotes(t.final, t.obj, t.root)
    requires Has(t.root, at) && Sub(t.root, at) == v && HasArr(t.root, at + rest)
    requires Printed(t.h, t.root, d, v, at, t.places) && d.DArr? && Built(d, IPtr(b), t.parsed, 0)
    requires LeadsTo(t.parsed, t.obj, PathText(at), b) && Denotes(t.final, IPtr(b), v)
    ensures PlaceDenotes(t, Hash(t.h, Sub(t.root, at + rest)), Sub(t.root, at + rest))
    decreases Rank(t.root, at + rest), |rest|
  {
    if rest == [] {
      assert at + rest == at;
    } else {
      var k, tail := StepInto(t.root, at, v, rest);
      FinalItem(t, d, v, at, b, k);
      if d.items[k].DRef? {
        LinkStandsFor(t, Hash(t.h, v.items[k]), v.items[k], Child(at, k), tail, t.final[b][k].a);
      } else {
        ChildBuilt(t, d, v, at, k, tail, b);
        PlaceStandsFor(t, d.items[k], v.items[k], Child(at, k), tail, t.final[b][k].a);
      }
    }
  }

  lemma ChildBuilt(t: Trip, d: Doc, v: Value, at: Position, k: nat, tail: Position, b: nat)
    requires Complete(t)
    requires Has(t.root, at) && Sub(t.root, at) == v
    requires Printed(t.h, t.root, d, v, at, t.places) && d.DArr? && Built(d, IPtr(b), t.parsed, 0)
    requires LeadsTo(t.parsed, t.obj, PathText(at), b) && Denotes(t.final, IPtr(b), v)
    requires k < |d.items| && !d.items[k].DRef?
    requires HasArr(t.root, Child(at, k) + tail)
    ensures v.Arr? && k < |v.items| && b < |t.final| && k < |t.final[b]| && t.final[b][k].IPtr?
    ensures d.items[k].DArr? && Built(d.items[k], t.final[b][k], t.parsed, 0)
    ensures LeadsTo(t.parsed, t.obj, PathText(Child(at, k)), t.final[b][k].a)
    ensures Denotes(t.final, t.final[b][k], v.items[k])
  {
    FinalItem(t, d, v, at, b, k);
    ChildRank(t.root, at, v, k);
    SubAppend(t.root, Child(at, k), tail);
    assert Printed(t.h, t.root, d.items[k], v.items[k], Child(at, k), t.places);
    ChildPath(t.parsed, t.obj, at, b, k);
  }

  /** The first step from the array at `at` along `rest`. */
  lemma StepInto(root: Value, at: Position, v: Value, rest: Position) returns (k: nat, tail: Position)
    requires rest != [] && Has(root, at) && Sub(root, at) == v && HasArr(root, at + rest)
    ensures k == rest[0] && tail == rest[1..]
    ensures v.Arr? && k < |v.items|
    ensures Has(root, Child(at, k)) && Sub(root, Child(at, k)) == v.items[k]
    ensures Child(at, k) + tail == at + rest
  {
    k, tail := rest[0], rest[1..];
    SubAppend(root, at, rest);
    ChildRank(root, at, v, k);
  }

  lemma ChildPath(heap: Heap, obj: Item, at: Position, b: nat, k: nat)
    requires LeadsTo(heap, obj, PathText(at), b)
    requires b < |heap| && k < |heap[b]| && heap[b][k].IPtr? && heap[b][k].a < |heap|
    ensures LeadsTo(heap, obj, PathText(Child(at, k)), heap[b][k].a)
  {
    SplitPathText(at);
    SplitPathText(Child(at, k));
    assert Ints(Child(at, k)) == Ints(at) + [Int(k)];
    PtrWalkSnoc(heap, obj, Ints(at), b, k);
  }

  lemma {:induction false} PtrWalkSnoc(heap: Heap, item: Item, idxs: seq<MaybeNat>, b: nat, k: nat)
    requires PtrWalk(heap, item, idxs, b)
    requires b < |heap| && k < |heap[b]| && heap[b][k].IPtr? && heap[b][k].a < |heap|
    ensures PtrWalk(heap, item, idxs + [Int(k)], heap[b][k].a)
    decreases |idxs|
  {
    var all := idxs + [Int(k)];
    if idxs == [] {
      assert all[1..] == [];
    } else {
      assert all[1..] == idxs[1..] + [Int(k)];
      PtrWalkSnoc(heap, heap[item.a][idxs[0].n], idxs[1..], b, k);
    }
  }

  lemma {:induction false} LinkStandsFor(t: Trip, x: string, w: Value, at: Position, tail: Position, c: nat)
    requires Complete(t) && Denotes(t.final, t.obj, t.root)
    requires HasArr(t.root, at) && Sub(t.root, at) == w && x == Hash(t.h, w)
    requires x in t.places && Earlier(t.root, t.places[x], at)
    requires LeadsTo(t.parsed, t.obj, PathText(t.places[x]), c) && Denotes(t.final, IPtr(c), w)
    requires HasArr(t.root, at + tail)
    ensures PlaceDenotes(t, Hash(t.h, Sub(t.root, at + tail)), Sub(t.root, at + tail))
    decreases Rank(t.root, at + tail), 0
  {
    assert PlaceDenotes(t, x, w);
    if tail == [] {
      assert at + tail == at;
    } else {
      var u := t.places[x];
      SubAppend(t.root, at, tail);
      RankAppend(t.root, at, tail);
      FromRoot(t, u);
      PlaceDenotesUnique(t, x, w, Sub(t.root, u));
      SubAppend(t.root, u, tail);
      RankAppend(t.root, u, tail);
      FromRoot(t, u + tail);
    }
  }

  lemma PlaceDenotesUnique(t: Trip, x: string, w: Value, w': Value)
    requires PlaceDenotes(t, x, w) && PlaceDenotes(t, x, w')
    ensures w == w'
  {
    var b :| LeadsTo(t.parsed, t.obj, PathText(t.places[x]), b) && Denotes(t.final, IPtr(b), w);
    var c :| LeadsTo(t.parsed, t.obj, PathText(t.places[x]), c) && Denotes(t.final, IPtr(c), w');
    PtrWalkUnique(t.parsed, t.obj, Indices(Split(PathText(t.places[x]))[1..]), b, c);
    DenotesUnique(t.final, IPtr(b), w, w');
  }

  lemma {:induction false} FromRoot(t: Trip, s: Position)
    requires Complete(t) && Denotes(t.final, t.obj, t.root)
    requires HasArr(t.root, s)
    ensures PlaceDenotes(t, Hash(t.h, Sub(t.root, s)), Sub(t.root, s))
    decreases Rank(t.root, s), |s| + 1
  {
    assert [] + s == s;
    SplitPathText([]);
    assert t.places[Hash(t.h, t.root)] == [];
    PlaceStandsFor(t, t.doc, t.root, [], s, t.obj.a);
  }

  /** The value read back is the value printed exactly when the hash tells its subtrees apart. */
  lemma FaithfulIffCollisionFree(t: Trip)
    requires Complete(t)
    ensures Denotes(t.final, t.obj, t.root) <==> CollisionFree(t.h, t.root)
  {
    if CollisionFree(t.h, t.root) {
      assert !t.doc.DRef?;
      DenotesPrinted(t, t.doc, t.root, [], t.obj);
    }
    if Denotes(t.final, t.obj, t.root) {
      forall p, q ensures Distinguishes(t.h, t.root, p, q) {
        if HasArr(t.root, p) && HasArr(t.root, q) && Hash(t.h, Sub(t.root, p)) == Hash(t.h, Sub(t.root, q)) {
          FromRoot(t, p);
          FromRoot(t, q);
          PlaceDenotesUnique(t, Hash(t.h, Sub(t.root, p)), Sub(t.root, p), Sub(t.root, q));
        }
      }
    }
  }

  // ----- The round trip -----

  lemma {:induction false} MentionedIsPlace(h: Digest, root: Value, doc: Doc, v: Value, at: Position, places: Places,
                                            path: string)
    returns (x: string)
    requires Printed(h, root, doc, v, at, places) && Mentions(doc, path)
    ensures x in places && path == PathText(places[x])
    decreases doc
  {
    if doc.DRef? {
      x := Hash(h, v);
    } else {
      var k: nat :| k < |doc.items| && Mentions(doc.items[k], path);
      x := MentionedIsPlace(h, root, doc.items[k], v.items[k], Child(at, k), places, path);
    }
  }

  /** Whatever order the links are patched in: patching succeeds, and the result is the value that was
      printed if and only if the hash tells the subtrees of that value apart. */
  lemma RoundTrip(h: Digest, root: Value, doc: Doc, places: Places, obj: Item, parsed: Heap, refs: seq<Pending>,
                  order: seq<Pending>)
    requires Finished(h, root, doc, places)
    requires Parsed(doc, obj, parsed, refs)
    requires forall p :: p in order <==> p in refs
    ensures forall p :: p in order ==> InHeap(parsed, p.slot)
    ensures PatchAll(parsed, obj, order).Done?
    ensures Denotes(PatchAll(parsed, obj, order).heap, obj, root) <==> CollisionFree(h, root)
  {
    forall p | p in order
      ensures GoodEntry(parsed, obj, p) && InHeap(parsed, p.slot)
    {
      var x := MentionedIsPlace(h, root, doc, root, [], places, p.path);
      var b := PlaceBuilt(Trip(h, root, doc, places, obj, parsed, parsed), x);
      assert LeadsTo(parsed, obj, p.path, b);
    }
    assert PartlyPatched(parsed, parsed, obj);
    PatchAllSucceeds(parsed, parsed, obj, order);
    var final := PatchAll(parsed, obj, order).heap;
    var t := Trip(h, root, doc, places, obj, parsed, final);
    forall a: nat, k: nat | a < |parsed| && k < |parsed[a]| && parsed[a][k].IRef?
      ensures final[a][k].IPtr?
    {
      assert Pending(In(a, k), parsed[a][k].path) in refs;
      assert Pending(In(a, k), parsed[a][k].path) in order;
    }
    assert Complete(t);
    FaithfulIffCollisionFree(t);
  }

  /** stringify followed by inflate: faithful exactly for trees that the hash tells apart, which are those without
      arrays that differ in confused leaves only; so are all trees without strings, unless a digest looks like a
      leaf. */
  method StringifyThenInflate(h: Digest, root: Value) returns (obj: Item, outcome: Outcome)
    ensures outcome.Done?
    ensures Denotes(outcome.heap, obj, root) <==> CollisionFree(h, root)
    ensures DigestSeparates(h, root) && NumbersAreNumbers(root) ==>
              (Denotes(outcome.heap, obj, root) <==> forall s, t :: !ClashesAt(h, root, s, t))
    ensures DigestSeparates(h, root) && NumbersAreNumbers(root) && NoDigestTexts(h, root) && NoStrings(root) ==>
              Denotes(outcome.heap, obj, root)
  {
    var doc, thrown, places := Stringify(h, root);
    ghost var parsed, refs;
    obj, outcome, parsed, refs := Inflate(doc);
    RoundTrip(h, root, doc, places, obj, parsed, refs, refs);
    if DigestSeparates(h, root) && NumbersAreNumbers(root) {
      CollisionFreeIff(h, root);
      if NoDigestTexts(h, root) && NoStrings(root) { WithoutStrings(h, root); }
    }
  }

  lemma OneKey(h: Digest, v: Value)
    ensures Keys(h, [v]) == [Key(h, v)]
  {
    assert [v][1..] == [] && Keys(h, []) == [];
  }

  lemma ItemAt(items: seq<Value>, i: nat)
    requires i < |items| && items[i].Arr?
    ensures HasArr(Arr(items), [i]) && Sub(Arr(items), [i]) == items[i]
  {
    var p: Position := [i];
    assert p[1..] == [] && Has(items[i], []);
  }

  /** getPrimitive renders 1 and "1" alike, so no digest tells [1] from ["1"]. */
  lemma NumberAndStringCollide(h: Digest, s: string)
    ensures !CollisionFree(h, Arr([Arr([Leaf(Num(s))]), Arr([Leaf(Str(s))])]))
  {
    var number, text := Arr([Leaf(Num(s))]), Arr([Leaf(Str(s))]);
    var items := [number, text];
    ItemAt(items, 0);
    ItemAt(items, 1);
    OneKey(h, Leaf(Num(s)));
    OneKey(h, Leaf(Str(s)));
    assert Hash(h, number) == Hash(h, text);
    assert !Distinguishes(h, Arr(items), [0], [1]);
  }
}
