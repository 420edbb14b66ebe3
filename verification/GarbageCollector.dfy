/** Unused chunks, in the order in which they are to be freed: src/series/garbagecollector.h. */
module GarbageCollector {
  import opened Sequences

  /** A chunk: the number of references to it, those that its computer holds, in the order in which they are given
      back, and its registration: its neighbours in a ring, or null when it is not enqueued. */
  class Chunk {
    const memory: nat
    const transient: bool
    var refs: nat
    var holds: seq<Chunk>           // empty once the computer is released
    var freeAfter: Chunk?           // the one to be freed before this one
    var freeBefore: Chunk?          // the one to be freed next after it

    constructor (memory: nat, transient: bool)
      ensures this.memory == memory && this.transient == transient && refs == 0 && holds == []
      ensures freeAfter == null && freeBefore == null
    {
      this.memory, this.transient, refs, holds := memory, transient, 0, [];
      freeAfter, freeBefore := null, null;
    }

    predicate IsEnqueued()
      reads this
    {
      freeAfter != null
    }
  }

  // ---------------------------------------------------------------- sequences of chunks

  ghost function Without(order: seq<Chunk>, k: nat): seq<Chunk>
    requires k < |order|
  {
    order[..k] + order[k + 1..]
  }

  /** A chunk taken out; the others stay in order. */
  ghost function Removed(order: seq<Chunk>, c: Chunk): (r: seq<Chunk>)
    ensures forall d :: d in r ==> d in order
    ensures c !in order ==> r == order
  {
    if order == [] then [] else if order[0] == c then order[1..] else [order[0]] + Removed(order[1..], c)
  }

  lemma {:induction false} RemovedIs(order: seq<Chunk>, k: nat)
    requires k < |order| && Distinct(order)
    ensures Removed(order, order[k]) == Without(order, k)
  {
    if k > 0 {
      RemovedIs(order[1..], k - 1);
      assert Without(order, k) == [order[0]] + Without(order[1..], k - 1);
    } else {
      assert Without(order, 0) == order[1..];
    }
  }

  /** Where the ring goes on after place i. */
  function Next(i: nat, n: nat): (j: nat)
    requires i < n
    ensures j < n
  {
    if i + 1 < n then i + 1 else 0
  }

  function Prev(i: nat, n: nat): (j: nat)
    requires i < n
    ensures j < n && Next(j, n) == i
  {
    if i > 0 then i - 1 else n - 1
  }

  ghost predicate Linked(a: Chunk, b: Chunk)
    reads a`freeBefore, b`freeAfter
  {
    a.freeBefore == b && b.freeAfter == a
  }

  /** The pointers run around the sequence in both directions. */
  ghost predicate Ring(order: seq<Chunk>)
    reads order`freeBefore, order`freeAfter
  {
    forall i: nat :: i < |order| ==> Linked(order[i], order[Next(i, |order|)])
  }

  lemma CutRing(order: seq<Chunk>, k: nat, i: nat)
    requires k < |order| && i < |order| - 1
    ensures var cut, n := Without(order, k), |order|;
            var j := if i < k then i else i + 1;
            && cut[i] == order[j]
            && cut[Next(i, n - 1)] == order[if Next(j, n) == k then Next(k, n) else Next(j, n)]
  {
  }

  lemma WithoutFacts(order: seq<Chunk>, k: nat)
    requires k < |order| && Distinct(order)
    ensures Distinct(Without(order, k)) && forall c :: c in Without(order, k) <==> c in order && c != order[k]
  {
    var cut := Without(order, k);
    assert forall i :: 0 <= i < |cut| ==> cut[i] == order[if i < k then i else i + 1];
    forall c | c in order && c != order[k]
      ensures c in cut
    {
      var i :| 0 <= i < |order| && order[i] == c;
      assert cut[if i < k then i else i - 1] == c;
    }
  }

  ghost function Members(order: seq<Chunk>): set<Chunk> { set c | c in order }

  /** The references that the computers of the given chunks hold, in the order in which they are given back. */
  ghost function AllHeld(chunks: seq<Chunk>, holds: map<Chunk, seq<Chunk>>): seq<Chunk>
    requires forall c :: c in chunks ==> c in holds
  {
    if chunks == [] then [] else AllHeld(chunks[..|chunks| - 1], holds) + holds[chunks[|chunks| - 1]]
  }

  lemma {:induction false} HeldElsewhere(chunks: seq<Chunk>, holds: map<Chunk, seq<Chunk>>, obj: Chunk, h: seq<Chunk>)
    requires (forall c :: c in chunks ==> c in holds) && obj !in chunks
    ensures AllHeld(chunks, holds[obj := h]) == AllHeld(chunks, holds)
  {
    if chunks != [] { HeldElsewhere(chunks[..|chunks| - 1], holds, obj, h); }
  }

  /** A chunk that holds other references than before. */
  lemma {:induction false} HeldChange(chunks: seq<Chunk>, holds: map<Chunk, seq<Chunk>>, obj: Chunk, h: seq<Chunk>,
                                      c: Chunk)
    requires (forall c :: c in chunks ==> c in holds) && Distinct(chunks) && obj in chunks
    ensures multiset(AllHeld(chunks, holds[obj := h]))[c] + multiset(holds[obj])[c]
         == multiset(AllHeld(chunks, holds))[c] + multiset(h)[c]
  {
    var init, last := chunks[..|chunks| - 1], chunks[|chunks| - 1];
    assert chunks == init + [last];
    if last == obj {
      HeldElsewhere(init, holds, obj, h);
    } else {
      HeldChange(init, holds, obj, h, c);
    }
    CountSum(AllHeld(init, holds[obj := h]), holds[obj := h][last], c);
    CountSum(AllHeld(init, holds), holds[last], c);
  }

  lemma CountSum(a: seq<Chunk>, b: seq<Chunk>, c: Chunk)
    ensures multiset(a + b)[c] == multiset(a)[c] + multiset(b)[c]
  {
    assert multiset(a + b) == multiset(a) + multiset(b);
  }

  lemma {:induction false} HeldHas(chunks: seq<Chunk>, holds: map<Chunk, seq<Chunk>>, k: Chunk, d: Chunk)
    requires (forall c :: c in chunks ==> c in holds) && k in chunks && d in holds[k]
    ensures multiset(AllHeld(chunks, holds))[d] > 0
  {
    var init, last := chunks[..|chunks| - 1], chunks[|chunks| - 1];
    assert chunks == init + [last];
    if k in init {
      HeldHas(init, holds, k, d);
    } else {
      assert d in AllHeld(chunks, holds);
    }
  }

  /** The books: every chunk that has ever existed, what its computer holds, and how many references to it are
      counted. */
  datatype Books = Books(chunks: seq<Chunk>, holds: map<Chunk, seq<Chunk>>, refs: map<Chunk, nat>)

  ghost predicate Complete(b: Books) {
    Distinct(b.chunks) && Members(b.chunks) == b.holds.Keys == b.refs.Keys
  }

  /** How many references to a chunk all computers hold. */
  ghost function Held(b: Books, c: Chunk): nat
    requires Complete(b)
  {
    multiset(AllHeld(b.chunks, b.holds))[c]
  }

  /** Computers hold references to chunks that exist, and no more of them than are counted. */
  ghost predicate Agree(b: Books, known: set<Chunk>) {
    && Complete(b) && known <= b.holds.Keys
    && (forall k :: k in b.holds ==> Exist(b.holds[k], known))
    && (forall c :: c in known ==> Held(b, c) <= b.refs[c])
  }

  ghost predicate Exist(chunks: seq<Chunk>, known: set<Chunk>) { forall d :: d in chunks ==> d in known }

  /** A chunk without references is held by no computer. */
  lemma Unused(b: Books, known: set<Chunk>, c: Chunk)
    requires Agree(b, known) && c in known && b.refs[c] == 0
    ensures forall k :: k in b.holds ==> c !in b.holds[k]
    ensures Agree(b, known - {c})
  {
    hide AllHeld;
    forall k | k in b.holds
      ensures c !in b.holds[k]
    {
      if c in b.holds[k] { HeldHas(b.chunks, b.holds, k, c); }
    }
  }

  /** What obj holds changes. */
  ghost function Holding(b: Books, obj: Chunk, h: seq<Chunk>): Books { b.(holds := b.holds[obj := h]) }

  lemma HoldingHeld(b: Books, obj: Chunk, h: seq<Chunk>, c: Chunk)
    requires Complete(b) && obj in b.holds
    ensures Complete(Holding(b, obj, h))
    ensures Held(Holding(b, obj, h), c) == Held(b, c) + multiset(h)[c] - multiset(b.holds[obj])[c]
  {
    hide AllHeld;
    HeldChange(b.chunks, b.holds, obj, h, c);
  }

  /** The first reference that obj holds leaves it. */
  lemma GivenBack(b: Books, known: set<Chunk>, obj: Chunk)
    requires Agree(b, known) && obj in b.holds && b.holds[obj] != []
    ensures var d, now := b.holds[obj][0], Holding(b, obj, b.holds[obj][1..]);
            d in known && Agree(now, known) && Held(now, d) < b.refs[d]
  {
    hide Held;
    var was, d, now := b.holds[obj], b.holds[obj][0], Holding(b, obj, b.holds[obj][1..]);
    assert was == [d] + was[1..];
    assert multiset(was) == multiset{d} + multiset(was[1..]);
    assert d in was;
    forall c { HoldingHeld(b, obj, was[1..], c); }
  }

  /** A counted reference goes to the computer of user. */
  lemma Taken(b: Books, known: set<Chunk>, user: Chunk, dep: Chunk)
    requires Agree(b, known) && user in b.holds && dep in known && Held(b, dep) < b.refs[dep]
    ensures Agree(Holding(b, user, b.holds[user] + [dep]), known)
  {
    hide Held;
    var h := b.holds[user];
    assert multiset(h + [dep]) == multiset(h) + multiset{dep};
    forall c { HoldingHeld(b, user, h + [dep], c); }
  }

  ghost function WithNew(b: Books, c: Chunk): Books {
    Books(b.chunks + [c], b.holds[c := []], b.refs[c := 0])
  }

  /** A chunk comes that nobody refers to. */
  lemma Created(b: Books, known: set<Chunk>, c: Chunk)
    requires Agree(b, known) && c !in b.holds
    ensures Agree(WithNew(b, c), known + {c})
  {
    hide AllHeld, Distinct;
    NewHeld(b, c);
    forall k | k in b.chunks
      ensures c !in b.holds[k]
    {
      assert Exist(b.holds[k], known);
    }
    HeldNot(b.chunks, b.holds, c);
  }

  lemma NewHeld(b: Books, c: Chunk)
    requires Complete(b) && c !in b.holds
    ensures Complete(WithNew(b, c))
    ensures AllHeld(WithNew(b, c).chunks, WithNew(b, c).holds) == AllHeld(b.chunks, b.holds)
  {
    hide AllHeld;
    HeldElsewhere(b.chunks, b.holds, c, []);
    HeldNext(b.chunks, c, b.holds[c := []]);
  }

  lemma {:induction false} HeldNot(chunks: seq<Chunk>, holds: map<Chunk, seq<Chunk>>, d: Chunk)
    requires forall c :: c in chunks ==> c in holds && d !in holds[c]
    ensures multiset(AllHeld(chunks, holds))[d] == 0
  {
    if chunks != [] {
      HeldNot(chunks[..|chunks| - 1], holds, d);
      assert d !in holds[chunks[|chunks| - 1]];
    }
  }

  /** The chunks in the ring have no references. */
  ghost predicate Free(order: seq<Chunk>)
    reads order`refs
  {
    forall c :: c in order ==> c.refs == 0 && c.transient
  }

  /** The chunks that are left without a reference when these references are given back, in that order. */
  ghost function Entering(held: seq<Chunk>, refs: map<Chunk, nat>): seq<Chunk> {
    if held == [] then []
    else
      var d := held[|held| - 1];
      Entering(held[..|held| - 1], refs)
      + if d.transient && d in refs && multiset(held)[d] == refs[d] then [d] else []
  }

  lemma {:induction false} EnteringSplit(a: seq<Chunk>, b: seq<Chunk>, refs: map<Chunk, nat>, rest: map<Chunk, nat>)
    requires forall d :: d in b ==> d in refs && d in rest && refs[d] == rest[d] + multiset(a)[d]
    ensures Entering(a + b, refs) == Entering(a, refs) + Entering(b, rest)
  {
    hide Entering;
    if b == [] {
      assert a + b == a;
      NothingEnters(rest);
    } else {
      var init, d := b[..|b| - 1], b[|b| - 1];
      assert b == init + [d];
      Snoc(a, init, d);
      CountSum(a, b, d);
      EnteringSplit(a, init, refs, rest);
      EnteringLast(a + init, d, refs);
      EnteringLast(init, d, rest);
    }
  }

  lemma Snoc(a: seq<Chunk>, b: seq<Chunk>, c: Chunk)
    ensures a + (b + [c]) == (a + b) + [c]
  {
  }

  lemma EnteringLast(held: seq<Chunk>, d: Chunk, refs: map<Chunk, nat>)
    ensures Entering(held + [d], refs) == Entering(held, refs)
            + if d.transient && d in refs && multiset(held + [d])[d] == refs[d] then [d] else []
  {
    assert (held + [d])[..|held|] == held;
  }

  /** A chunk enters, and only once, if all references to it are given back. */
  lemma {:induction false} EnteringIff(held: seq<Chunk>, refs: map<Chunk, nat>, c: Chunk)
    requires c in refs && multiset(held)[c] <= refs[c]
    ensures c in Entering(held, refs) <==> c.transient && 0 < refs[c] == multiset(held)[c]
    ensures multiset(Entering(held, refs))[c] <= 1
  {
    if held != [] {
      var init, d := held[..|held| - 1], held[|held| - 1];
      assert held == init + [d] && multiset(held) == multiset(init) + multiset{d};
      EnteringIff(init, refs, c);
    }
  }

  function TotalMemory(order: seq<Chunk>): nat {
    if order == [] then 0 else order[0].memory + TotalMemory(order[1..])
  }

  lemma NextIsOneToOne(j: nat, k: nat, n: nat)
    requires j < n && k < n && j != k && Next(j, n) != k
    ensures j != Prev(k, n) && Next(j, n) != Next(k, n)
  {
  }

  class Collector {
    var freeNext: Chunk?
    var memoryUsage: int
    ghost var order: seq<Chunk>   // from freeNext on
    ghost var known: set<Chunk>   // every chunk there is
    ghost var books: Books

    constructor ()
      ensures Counted() && order == [] && known == {} && memoryUsage == 0
    {
      freeNext, memoryUsage, order, known, books := null, 0, [], {}, Books([], map[], map[]);
    }

    ghost predicate Valid()
      reads this`freeNext, this`order, this`known, known`freeAfter, known`freeBefore
    {
      && Distinct(order) && (forall c :: c in order ==> c in known)
      && freeNext == (if order == [] then null else order[0])
      && Ring(order)
      && forall c :: c in known && c !in order ==> c.freeAfter == null && c.freeBefore == null
    }

    ghost predicate Counted()
      reads this`freeNext, this`order, this`known, this`books
      reads known`freeAfter, known`freeBefore, known`holds, known`refs
    {
      Valid() && Agree(books, known) && Matches() && Free(order)
    }

    /** The books are those of the chunks. */
    ghost predicate Matches()
      reads this`known, this`books, known`holds, known`refs
    {
      forall c :: c in known ==>
        c in books.holds && c in books.refs && c.holds == books.holds[c] && c.refs == books.refs[c]
    }

    method IncRefs(obj: Chunk)
      requires Counted() && obj in known
      modifies this`freeNext, this`order, this`books, known`freeAfter, known`freeBefore, obj`refs
      ensures Counted() && obj.refs == old(obj.refs) + 1 && Held(books, obj) < obj.refs
      ensures obj !in order && order == Removed(old(order), obj)
      ensures books == old(books).(refs := old(books).refs[obj := obj.refs])
    {
      hide Valid, Removed, Held;
      if obj.refs == 0 && obj.transient {
        Dequeue(obj);
      }
      hide Matches, Free;
      Recount(obj, obj.refs + 1);
    }

    method Recount(obj: Chunk, refs: nat)
      requires Matches() && Agree(books, known) && Free(order) && obj in known && obj !in order
      requires Held(books, obj) <= refs
      modifies this`books, obj`refs
      ensures Matches() && Agree(books, known) && Free(order) && obj.refs == refs
      ensures Held(books, obj) == old(Held(books, obj))
      ensures books == old(books).(refs := old(books).refs[obj := obj.refs])
    {
      obj.refs := refs;
      books := books.(refs := books.refs[obj := refs]);
    }

    /** A reference is given back that no computer holds any more; the chunk enters the ring with the last one. */
    method DecRefs(obj: Chunk)
      requires Counted() && obj in known && Held(books, obj) < obj.refs
      modifies this`freeNext, this`order, this`books, known`freeAfter, known`freeBefore, obj`refs
      ensures Counted() && obj.refs == old(obj.refs) - 1
      ensures books == old(books).(refs := old(books).refs[obj := obj.refs])
      ensures order == old(order) + if obj.refs == 0 && obj.transient then [obj] else []
    {
      hide Valid, Removed, Held, Matches;
      assert obj !in order;
      Recount(obj, obj.refs - 1);
      if obj.refs == 0 && obj.transient {
        Enqueue(obj);
      }
    }

    /** The computer of user takes a reference. */
    method Hold(user: Chunk, dep: Chunk)
      requires Counted() && user in known && dep in known
      modifies this`freeNext, this`order, this`books, known`freeAfter, known`freeBefore, user`holds, dep`refs
      ensures Counted() && user.holds == old(user.holds) + [dep] && dep.refs == old(dep.refs) + 1
      ensures dep !in order && order == Removed(old(order), dep)
    {
      hide Valid, Free, Removed, Held, Matches, Agree;
      IncRefs(dep);
      Take(user, dep);
    }

    /** A counted reference goes to the computer of user. */
    method Take(user: Chunk, dep: Chunk)
      requires Matches() && Agree(books, known) && user in known && dep in known && Held(books, dep) < dep.refs
      modifies this`books, user`holds
      ensures Matches() && Agree(books, known) && user.holds == old(user.holds) + [dep]
    {
      hide Agree, Held;
      Taken(books, known, user, dep);
      user.holds := user.holds + [dep];
      books := Holding(books, user, user.holds);
    }

    /** The first reference, to d, leaves the computer. */
    method GiveBack(obj: Chunk, d: Chunk)
      requires Matches() && Agree(books, known) && obj in known && obj.holds != [] && obj.holds[0] == d
      modifies this`books, obj`holds
      ensures Matches() && Agree(books, known) && obj.holds == old(obj.holds[1..])
      ensures books == Holding(old(books), obj, obj.holds)
      ensures d in known && Held(books, d) < d.refs
    {
      hide Agree, Held;
      GivenBack(books, known, obj);
      obj.holds := obj.holds[1..];
      books := Holding(books, obj, obj.holds);
    }

    /** The first reference is given back. */
    method ReleaseFirst(obj: Chunk)
      requires Counted() && obj in known && obj.holds != []
      modifies this`freeNext, this`order, this`books, known`freeAfter, known`freeBefore, known`refs, obj`holds
      ensures Counted() && obj.holds == old(obj.holds[1..]) && books.holds == old(books).holds[obj := obj.holds]
      ensures old(obj.holds[0]) in known && Dropped(known, old(books).refs, books.refs, [old(obj.holds[0])])
      ensures order == old(order) + Entering([old(obj.holds[0])], old(books).refs)
    {
      hide Valid, Agree, Free, Entering, Held;
      var d := obj.holds[0];
      EnteringOne(d, books.refs);
      GiveBack(obj, d);
      DecRefs(d);
    }

    /** The computer of a chunk is destroyed and gives back all it holds. */
    method ReleaseComputer(obj: Chunk)
      requires Counted() && obj in known
      modifies this`freeNext, this`order, this`books, known`freeAfter, known`freeBefore, known`refs, obj`holds
      ensures Counted() && books.holds == old(books).holds[obj := []]
      ensures Dropped(known, old(books).refs, books.refs, old(obj.holds))
      ensures order == old(order) + Entering(old(obj.holds), old(books).refs)
    {
      hide Valid, Agree, Free, Entering, Held, Dropped;
      ghost var given: seq<Chunk> := [];
      ghost var was, held := books, obj.holds;
      HeldExist(was, known, obj);
      NothingDropped(known, was.refs);
      NothingEnters(was.refs);
      while obj.holds != []
        invariant Counted() && held == given + obj.holds
        invariant books.holds == was.holds[obj := obj.holds]
        invariant Dropped(known, was.refs, books.refs, given)
        invariant order == old(order) + Entering(given, was.refs)
        decreases |obj.holds|
      {
        ghost var d, rest := obj.holds[0], books.refs;
        ReleaseFirst(obj);
        EnteringNext(known, was.refs, rest, books.refs, given, d);
        given := given + [d];
      }
      assert given == held;
    }

    /** A chunk is in the ring exactly when it has neighbours. */
    lemma EnqueuedIff(obj: Chunk)
      requires Valid() && obj in known
      ensures obj in order <==> obj.IsEnqueued()
      ensures obj in order ==> obj.freeBefore != null
    {
      if obj in order {
        var k: nat :| k < |order| && order[k] == obj;
        assert Linked(order[Prev(k, |order|)], order[Next(Prev(k, |order|), |order|)]);
        assert Linked(order[k], order[Next(k, |order|)]);
      }
    }

    lemma AfterHead()
      requires Valid() && order != []
      ensures order[0].freeBefore == (if |order| == 1 then order[0] else order[1])
    {
      assert Linked(order[0], order[Next(0, |order|)]);
    }

    /** Links the neighbours of chunk k with each other. */
    method Unlink(obj: Chunk, ghost k: nat)
      requires Distinct(order) && Ring(order) && k < |order| && order[k] == obj
      modifies order`freeAfter, order`freeBefore
      ensures Ring(Without(order, k))
    {
      ghost var n := |order|;
      ghost var a, b := order[Prev(k, n)], order[Next(k, n)];
      assert Linked(order[k], b) && Linked(a, order[Next(Prev(k, n), n)]);
      var after, before := obj.freeAfter, obj.freeBefore;
      assert after == a && before == b;
      after.freeBefore := before;
      before.freeAfter := after;
      ghost var cut := Without(order, k);
      forall i: nat | i < |cut|
        ensures Linked(cut[i], cut[Next(i, |cut|)])
      {
        var j := if i < k then i else i + 1;
        CutRing(order, k, i);
        assert old(Linked(order[j], order[Next(j, n)]));
        if Next(j, n) == k {
          assert j == Prev(k, n);
        } else {
          assert order[j] != a && order[Next(j, n)] != b by { NextIsOneToOne(j, k, n); }
        }
      }
    }

    /** Puts a chunk at the end, whether or not it was enqueued before. */
    method Enqueue(obj: Chunk)
      requires Valid() && obj in known
      modifies this`freeNext, this`order, known`freeAfter, known`freeBefore
      ensures Valid()
      ensures order == Removed(old(order), obj) + [obj]
    {
      hide Removed;
      EnqueuedIff(obj);
      if obj.IsEnqueued() {
        ghost var k: nat :| k < |order| && order[k] == obj;
        AfterHead();
        if freeNext == obj {
          if obj.freeBefore == obj {
            assert |order| == 1;
            RemovedIs(order, 0);
            assert order == Without(order, 0) + [obj];
            return;
          } else {
            freeNext := obj.freeBefore;
          }
        }
        Unlink(obj, k);
        WithoutFacts(order, k);
        RemovedIs(order, k);
        order := Without(order, k);
      }
      Append(obj);
    }

    method Append(obj: Chunk)
      requires Distinct(order) && (forall c :: c in order ==> c in known) && obj in known && obj !in order
      requires freeNext == (if order == [] then null else order[0])
      requires Ring(order)
      requires forall c :: c in known && c !in order && c != obj ==> c.freeAfter == null && c.freeBefore == null
      modifies this`freeNext, this`order, known`freeAfter, known`freeBefore
      ensures Valid() && order == old(order) + [obj]
    {
      if freeNext != null {
        var head := freeNext;
        ghost var n := |order|;
        assert Next(n - 1, n) == 0 && Linked(order[n - 1], order[Next(n - 1, n)]);
        var tail := head.freeAfter;
        head.freeAfter := obj;
        tail.freeBefore := obj;
        obj.freeAfter := tail;
        obj.freeBefore := head;
      } else {
        freeNext := obj;
        obj.freeAfter := obj;
        obj.freeBefore := obj;
      }
      ghost var next := order + [obj];
      forall i: nat | i < |next|
        ensures Linked(next[i], next[Next(i, |next|)])
      {
        if i + 1 < |order| {
          assert old(Linked(order[i], order[Next(i, |order|)]));
        }
      }
      order := next;
    }

    /** Takes a chunk out, if it is enqueued. */
    method Dequeue(obj: Chunk)
      requires Valid() && obj in known
      modifies this`freeNext, this`order, known`freeAfter, known`freeBefore
      ensures Valid() && obj !in order && !obj.IsEnqueued()
      ensures order == Removed(old(order), obj)
    {
      hide Removed;
      EnqueuedIff(obj);
      if obj.IsEnqueued() {
        ghost var k: nat :| k < |order| && order[k] == obj;
        AfterHead();
        if freeNext == obj {
          if obj.freeBefore == obj {
            freeNext := null;
          } else {
            freeNext := obj.freeBefore;
          }
        }
        Unlink(obj, k);
        WithoutFacts(order, k);
        RemovedIs(order, k);
        order := Without(order, k);
        obj.freeAfter := null;
        obj.freeBefore := null;
      }
    }

    /** A new chunk is known, and not enqueued. */
    ghost method Register(obj: Chunk)
      requires Counted() && obj !in known && obj !in books.holds && obj.refs == 0 && obj.holds == []
      requires obj.freeAfter == null && obj.freeBefore == null
      modifies this`known, this`books
      ensures Counted() && known == old(known) + {obj} && order == old(order)
    {
      hide Ring, Distinct, Held, Agree;
      Created(books, known, obj);
      known := known + {obj};
      books := WithNew(books, obj);
    }

    /** delete: a chunk without references releases its computer, gives back its memory and leaves the ring. */
    method Destroy(obj: Chunk)
      requires Counted() && obj in known && obj.refs == 0
      modifies this, known
      ensures Counted() && known == old(known) - {obj} && memoryUsage == old(memoryUsage) - obj.memory
      ensures books.holds == old(books).holds[obj := []]
      ensures Dropped(known, old(books).refs, books.refs, old(obj.holds))
      ensures Exist(old(obj.holds), known)
      ensures order == Removed(old(order) + Entering(old(obj.holds), old(books).refs), obj)
    {
      hide Valid, Free, Entering, Removed, Held, Agree;
      assert books.refs[obj] == 0;
      Unused(books, known, obj);
      HeldExist(books, known - {obj}, obj);
      ReleaseComputer(obj);
      assert books.refs[obj] == 0;
      hide Matches;
      Leave(obj);
    }

    method Leave(obj: Chunk)
      requires Counted() && obj in known && obj in books.refs && books.refs[obj] == 0
      modifies this`memoryUsage, this`known, this`freeNext, this`order, known`freeAfter, known`freeBefore
      ensures Counted() && known == old(known) - {obj} && memoryUsage == old(memoryUsage) - obj.memory
      ensures order == Removed(old(order), obj)
    {
      hide Valid, Removed, Held, Matches, Agree;
      memoryUsage := memoryUsage - obj.memory;
      Unused(books, known, obj);
      Dequeue(obj);
      Forget(obj);
    }

    ghost method Forget(obj: Chunk)
      requires Valid() && Matches() && obj in known && obj !in order
      modifies this`known
      ensures Valid() && Matches() && known == old(known) - {obj}
    {
      hide Ring, Distinct;
      known := known - {obj};
    }

    /** Frees chunks from the front of the ring until the memory in use is within the limit, and no more than that.
        Chunks to which those that are freed held the last reference enter at the back, and are freed in their turn;
        nothing is freed that a remaining computer holds. */
    method RunGc(memoryLimit: nat) returns (ghost gone: seq<Chunk>)
      requires Counted()
      modifies this, known
      ensures Counted() && Collected(gone, old(known), old(order), old(books))
      ensures memoryUsage == old(memoryUsage) - TotalMemory(gone)
      ensures memoryUsage <= memoryLimit || order == []
      ensures forall j: nat :: j < |gone| ==> old(memoryUsage) - TotalMemory(gone[..j]) > memoryLimit
    {
      hide TotalMemory, Collected, Agree, Free, Valid;
      gone := [];
      ghost var was, usage, had := order, memoryUsage, books;
      NothingCollected();
      while memoryUsage > memoryLimit
        invariant Counted() && known <= old(known) && Collected(gone, old(known), was, had)
        invariant memoryUsage == usage - TotalMemory(gone)
        invariant forall j: nat :: j < |gone| ==> usage - TotalMemory(gone[..j]) > memoryLimit
        decreases |known|
      {
        HeadIs();
        if freeNext == null { return; }
        var next := freeNext;
        Collect(next, gone, old(known), was, had);
        OneMoreGone(gone, next);
        gone := gone + [next];
      }
    }

    /** No computer holds a chunk that was freed. */
    lemma NothingDangles(k: Chunk, d: Chunk)
      requires Counted() && k in known && d in k.holds
      ensures d in known && d.refs > 0 && d !in order
    {
      hide Valid, Held;
      if d.refs == 0 { Unused(books, known, d); }
    }

    lemma HeadIs()
      requires Counted()
      ensures if freeNext == null then order == [] else order != [] && freeNext == order[0]
      ensures freeNext != null ==> freeNext in known && freeNext.refs == 0
    {
    }

    lemma NothingCollected()
      requires Counted()
      ensures Collected([], known, order, books) && TotalMemory([]) == 0
    {
    }

    /** What has happened since the ring was `was` and the books were `had`: the chunks in gone are freed, in the order
        of the ring and of those that have entered it since, and the references that their computers held are given
        back. */
    ghost predicate Collected(gone: seq<Chunk>, all: set<Chunk>, was: seq<Chunk>, had: Books)
      reads this`known, this`order, this`books
    {
      && all <= had.holds.Keys && all <= had.refs.Keys && (forall c :: c in gone ==> c in all)
      && known == all - Members(gone) && known <= books.holds.Keys && known <= books.refs.Keys
      && was + Entering(AllHeld(gone, had.holds), had.refs) == gone + order
      && forall c :: c in known ==>
           books.holds[c] == had.holds[c] && had.refs[c] == books.refs[c] + multiset(AllHeld(gone, had.holds))[c]
    }

    method Collect(next: Chunk, ghost gone: seq<Chunk>, ghost all: set<Chunk>, ghost was: seq<Chunk>, ghost had: Books)
      requires Counted() && Collected(gone, all, was, had)
      requires order != [] && next == order[0] && next in known && next.refs == 0
      modifies this, known
      ensures Counted() && Collected(gone + [next], all, was, had)
      ensures known == old(known) - {next} && memoryUsage == old(memoryUsage) - next.memory
    {
      hide Agree, Free, Valid, Entering, Removed, Held, AllHeld;
      ghost var ring, rest, given := order, books.refs, had.holds[next];
      Destroy(next);
      HeldNext(gone, next, had.holds);
      forall c { CountSum(AllHeld(gone, had.holds), given, c); }
      EnteringSplit(AllHeld(gone, had.holds), given, had.refs, rest);
      RingMovesOn(was, Entering(AllHeld(gone, had.holds), had.refs), gone, ring, Entering(given, rest));
    }

    method UpdateMemoryUsage(inc: int, memoryLimit: nat) returns (ghost gone: seq<Chunk>)
      requires Counted()
      modifies this, known
      ensures Counted() && Collected(gone, old(known), old(order), old(books))
      ensures memoryUsage == old(memoryUsage) + inc - TotalMemory(gone)
      ensures if inc > 0 then memoryUsage <= memoryLimit || order == [] else gone == []
    {
      hide Agree, Free, Valid, Collected;
      memoryUsage := memoryUsage + inc;
      gone := [];
      NothingCollected();
      if inc > 0 {
        gone := RunGc(memoryLimit);
      }
    }
  }

  lemma HeldExist(b: Books, known: set<Chunk>, obj: Chunk)
    requires Agree(b, known) && obj in b.holds
    ensures Exist(b.holds[obj], known) && known <= b.refs.Keys
  {
  }

  /** The counts have dropped by the references given back. */
  ghost predicate Dropped(known: set<Chunk>, before: map<Chunk, nat>, after: map<Chunk, nat>, given: seq<Chunk>) {
    && known <= before.Keys && known <= after.Keys
    && forall c :: c in known ==> before[c] == after[c] + multiset(given)[c]
  }

  lemma NothingDropped(known: set<Chunk>, refs: map<Chunk, nat>)
    requires known <= refs.Keys
    ensures Dropped(known, refs, refs, [])
  {
  }

  /** One more reference is given back. */
  lemma EnteringNext(known: set<Chunk>, refs: map<Chunk, nat>, rest: map<Chunk, nat>, next: map<Chunk, nat>,
                     given: seq<Chunk>, d: Chunk)
    requires Dropped(known, refs, rest, given) && Dropped(known, rest, next, [d]) && d in known
    ensures Dropped(known, refs, next, given + [d])
    ensures Entering(given + [d], refs) == Entering(given, refs) + Entering([d], rest)
  {
    hide Entering;
    forall c | c in known { CountSum(given, [d], c); }
    EnteringSplit(given, [d], refs, rest);
  }

  lemma NothingEnters(refs: map<Chunk, nat>)
    ensures Entering([], refs) == []
  {
  }

  lemma EnteringOne(d: Chunk, refs: map<Chunk, nat>)
    ensures Entering([d], refs) == if d.transient && d in refs && refs[d] == 1 then [d] else []
  {
    assert [d][..0] == [];
  }

  /** The first of the ring goes, and more enter. */
  lemma RingMovesOn(was: seq<Chunk>, entered: seq<Chunk>, gone: seq<Chunk>, ring: seq<Chunk>, more: seq<Chunk>)
    requires ring != [] && was + entered == gone + ring
    ensures was + (entered + more) == (gone + [ring[0]]) + Removed(ring + more, ring[0])
  {
    assert ring == [ring[0]] + ring[1..];
    assert Removed(ring + more, ring[0]) == ring[1..] + more;
    calc {
      was + (entered + more);
      (was + entered) + more;
      (gone + ([ring[0]] + ring[1..])) + more;
      (gone + [ring[0]]) + (ring[1..] + more);
    }
  }

  lemma OneMoreGone(gone: seq<Chunk>, c: Chunk)
    ensures TotalMemory(gone + [c]) == TotalMemory(gone) + c.memory
    ensures forall j :: 0 <= j <= |gone| ==> (gone + [c])[..j] == gone[..j]
  {
    MemoryNext(gone + [c], |gone|);
    assert (gone + [c])[..|gone| + 1] == gone + [c] && (gone + [c])[..|gone|] == gone;
  }

  lemma HeldNext(gone: seq<Chunk>, c: Chunk, holds: map<Chunk, seq<Chunk>>)
    requires c in holds && forall d :: d in gone ==> d in holds
    ensures Members(gone + [c]) == Members(gone) + {c}
    ensures AllHeld(gone + [c], holds) == AllHeld(gone, holds) + holds[c]
  {
    assert (gone + [c])[..|gone|] == gone;
  }

  lemma {:induction false} MemoryNext(order: seq<Chunk>, k: nat)
    requires k < |order|
    ensures TotalMemory(order[..k + 1]) == TotalMemory(order[..k]) + order[k].memory
    ensures Members(order[..k + 1]) == Members(order[..k]) + {order[k]}
  {
    assert order[..k + 1] == order[..k] + [order[k]];
    if k == 0 {
      assert order[..1][1..] == [];
    } else {
      MemoryNext(order[1..], k - 1);
      assert order[..k + 1][1..] == order[1..][..k] && order[..k][1..] == order[1..][..k - 1];
    }
  }
}
