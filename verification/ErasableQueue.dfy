/** A queue of numbers that can be erased from the middle: src/jw_util/erasableuintqueue.h. */
module ErasableQueue {
  import opened Sequences

  function Without(s: seq<nat>, v: nat): seq<nat> {
    if s == [] then [] else if s[0] == v then Without(s[1..], v) else [s[0]] + Without(s[1..], v)
  }

  lemma {:induction false} WithoutAbsent(s: seq<nat>, v: nat)
    requires v !in s
    ensures Without(s, v) == s
  {
    if s != [] { WithoutAbsent(s[1..], v); }
  }

  lemma {:induction false} WithoutOne(s: seq<nat>, v: nat, k: nat)
    requires k < |s| && s[k] == v && forall i :: 0 <= i < |s| && i != k ==> s[i] != v
    ensures Without(s, v) == s[..k] + s[k + 1..]
  {
    if k == 0 {
      WithoutAbsent(s[1..], v);
    } else {
      WithoutOne(s[1..], v, k - 1);
      assert s[1..][..k - 1] == s[1..k] && s[1..][k..] == s[k + 1..];
    }
  }

  /** Taking v out leaves the others in order. */
  lemma WithoutAt(s: seq<nat>, v: nat, k: nat)
    requires Distinct(s) && k < |s| && s[k] == v
    ensures Without(s, v) == s[..k] + s[k + 1..] && Distinct(Without(s, v)) && v !in Without(s, v)
  {
    WithoutOne(s, v, k);
    var cut := s[..k] + s[k + 1..];
    forall i | 0 <= i < |cut|
      ensures cut[i] == s[if i < k then i else i + 1] && cut[i] != v
    {
    }
  }

  // ---------------------------------------------------------------- the data structure

  /** A node of the linked list; its address is what an iterator holds. */
  datatype Node = Node(address: nat, value: nat)

  /** An iterator into the list, or list.cend(). */
  datatype Iterator = At(address: nat) | End

  function Values(list: seq<Node>): (s: seq<nat>)
    ensures |s| == |list| && forall i :: 0 <= i < |s| ==> s[i] == list[i].value
  {
    seq(|list|, i requires 0 <= i < |list| => list[i].value)
  }

  /** map[v] points at v's own node exactly when v is queued. */
  ghost predicate Linked(iterators: seq<Iterator>, list: seq<Node>, next: nat) {
    && (forall i :: 0 <= i < |list| ==> list[i].value < |iterators| && iterators[list[i].value] == At(list[i].address))
    && (forall i :: 0 <= i < |list| ==> list[i].address < next)
    && (forall i, j :: 0 <= i < j < |list| ==> list[i].address != list[j].address)
    && (forall v :: 0 <= v < |iterators| && iterators[v].At? ==> Node(iterators[v].address, v) in list)
  }

  lemma LinkedAppend(iterators: seq<Iterator>, list: seq<Node>, next: nat, val: nat)
    requires Linked(iterators, list, next) && val < |iterators| && iterators[val] == End
    ensures Linked(iterators[val := At(next)], list + [Node(next, val)], next + 1)
  {
    var now := list + [Node(next, val)];
    assert now[|list|] == Node(next, val);
    forall v | 0 <= v < |iterators| && v != val && iterators[v].At?
      ensures Node(iterators[v].address, v) in now
    {
      assert Node(iterators[v].address, v) in list;
    }
  }

  lemma LinkedRemove(iterators: seq<Iterator>, list: seq<Node>, next: nat, k: nat)
    requires Linked(iterators, list, next) && k < |list|
    ensures Linked(iterators[list[k].value := End], list[..k] + list[k + 1..], next)
  {
    var val, now := list[k].value, list[..k] + list[k + 1..];
    forall i, j | 0 <= i < j < |now|
      ensures now[i].address != now[j].address
    {
      assert now[i] == list[if i < k then i else i + 1] && now[j] == list[if j < k then j else j + 1];
    }
    forall i | 0 <= i < |now|
      ensures now[i].value != val && now[i] in list
    {
      assert now[i] == list[if i < k then i else i + 1];
    }
    forall v | 0 <= v < |iterators| && v != val && iterators[v].At?
      ensures Node(iterators[v].address, v) in now
    {
      var i :| 0 <= i < |list| && list[i] == Node(iterators[v].address, v);
      assert i != k && now[if i < k then i else i - 1] == list[i];
    }
  }

  /** What the methods need of the links. */
  lemma LinkedFacts(iterators: seq<Iterator>, list: seq<Node>, next: nat)
    requires Linked(iterators, list, next)
    ensures Distinct(Values(list)) && forall v :: v in Values(list) ==> v < |iterators|
    ensures forall v :: 0 <= v < |iterators| ==> (iterators[v].At? <==> v in Values(list))
  {
    forall v | 0 <= v < |iterators| && iterators[v].At?
      ensures v in Values(list)
    {
      var i :| 0 <= i < |list| && list[i] == Node(iterators[v].address, v);
      assert Values(list)[i] == v;
    }
  }

  /** The node that an iterator leads to. */
  lemma LinkedNode(iterators: seq<Iterator>, list: seq<Node>, next: nat, v: nat) returns (k: nat)
    requires Linked(iterators, list, next) && v < |iterators| && iterators[v].At?
    ensures k < |list| && list[k] == Node(iterators[v].address, v) && Values(list)[k] == v
    ensures forall i :: 0 <= i < |list| && list[i].address == iterators[v].address ==> i == k
  {
    k :| k < |list| && list[k] == Node(iterators[v].address, v);
  }

  class Queue {
    var iterators: seq<Iterator>
    var list: seq<Node>
    var next: nat   // an address that no node has had

    constructor ()
      ensures Valid() && Contents() == [] && GetValueLimit() == 0
    {
      iterators, list, next := [], [], 0;
    }

    ghost predicate Valid()
      reads this
    {
      Linked(iterators, list, next)
    }

    ghost function Contents(): seq<nat>
      reads this
    {
      Values(list)
    }

    function GetValueLimit(): nat
      reads this
    {
      |iterators|
    }

    method SetValueLimit(limit: nat)
      requires Valid() && forall v :: v in Contents() ==> v < limit
      modifies this
      ensures Valid() && GetValueLimit() == limit && Contents() == old(Contents())
    {
      if limit <= |iterators| {
        assert forall i :: 0 <= i < |list| ==> list[i].value == Contents()[i] && Contents()[i] in Contents();
        iterators := iterators[..limit];
      } else {
        iterators := iterators + seq(limit - |iterators|, _ => End);
      }
    }

    predicate Has(val: nat)
      requires val < GetValueLimit() && Valid()
      reads this
      ensures Has(val) <==> val in Contents()
    {
      LinkedFacts(iterators, list, next);
      iterators[val] != End
    }

    /** list.erase: unlinks the node at an address. */
    method Unlink(address: nat)
      requires exists i :: 0 <= i < |list| && list[i].address == address
      modifies this`list
      ensures exists i :: 0 <= i < |old(list)| && old(list)[i].address == address &&
                list == old(list)[..i] + old(list)[i + 1..]
    {
      var i: nat := 0;
      while list[i].address != address
        invariant i < |list|
        invariant exists j :: i <= j < |list| && list[j].address == address
        decreases |list| - i
      {
        i := i + 1;
      }
      list := list[..i] + list[i + 1..];
    }

    /** Appends val; one that is queued moves to the back with replace, and keeps its place without. */
    method Push(replace: bool, val: nat)
      requires Valid() && val < GetValueLimit()
      modifies this
      ensures Valid() && GetValueLimit() == old(GetValueLimit())
      ensures Contents() == Pushed(old(Contents()), replace, val)
    {
      hide Linked, Without;
      ghost var was := Contents();
      if replace {
        if Has(val) {
          Take(val);
        } else {
          WithoutAbsent(was, val);
        }
      } else {
        if Has(val) { return; }
        WithoutAbsent(was, val);
      }
      LinkedFacts(iterators, list, next);
      LinkedAppend(iterators, list, next, val);
      assert Values(list + [Node(next, val)]) == Values(list) + [val];
      list := list + [Node(next, val)];
      iterators := iterators[val := At(next)];
      next := next + 1;
    }

    /** Unlinks val's node and forgets it. */
    method Take(val: nat)
      requires Valid() && val < GetValueLimit() && Has(val)
      modifies this
      ensures Valid() && GetValueLimit() == old(GetValueLimit())
      ensures Contents() == Without(old(Contents()), val) && val !in Contents()
    {
      hide Linked, Without;
      ghost var was := list;
      LinkedFacts(iterators, list, next);
      ghost var k := LinkedNode(iterators, list, next, val);
      Unlink(iterators[val].address);
      WithoutAt(Values(was), val, k);
      LinkedRemove(iterators, was, next, k);
      iterators := iterators[val := End];
      assert Values(list) == Values(was)[..k] + Values(was)[k + 1..];
    }

    /** Removes val, if it is queued, and nothing else. */
    method Erase(val: nat)
      requires Valid() && val < GetValueLimit()
      modifies this
      ensures Valid() && GetValueLimit() == old(GetValueLimit())
      ensures Contents() == Without(old(Contents()), val)
    {
      if Has(val) {
        Take(val);
      } else {
        WithoutAbsent(Contents(), val);
      }
    }

    /** Removes the value at the front. */
    method Pop() returns (front: nat)
      requires Valid() && Contents() != []
      modifies this
      ensures Valid() && GetValueLimit() == old(GetValueLimit())
      ensures old(Contents()) == [front] + Contents()
    {
      hide Linked, Without;
      LinkedRemove(iterators, list, next, 0);
      LinkedFacts(iterators, list, next);
      front := list[0].value;
      assert front == Contents()[0] && Contents()[0] in Contents();
      assert list[1..] == list[..0] + list[1..];
      iterators := iterators[front := End];
      list := list[1..];
    }
  }

  // ---------------------------------------------------------------- whole runs

  function Pushed(s: seq<nat>, replace: bool, val: nat): seq<nat> {
    if !replace && val in s then s else Without(s, val) + [val]
  }

  datatype Call = Push(replace: bool, val: nat) | Erase(val: nat) | Pop | SetLimit(limit: nat)

  /** The contents after a call; a pop needs something to take. */
  function Apply(s: seq<nat>, call: Call): seq<nat> {
    match call
    case Push(replace, val) => Pushed(s, replace, val)
    case Erase(val) => Without(s, val)
    case Pop => if s == [] then [] else s[1..]
    case SetLimit(_) => s
  }

  function Run(calls: seq<Call>): seq<nat> {
    if calls == [] then [] else Apply(Run(calls[..|calls| - 1]), calls[|calls| - 1])
  }

  /** Whether call number t puts v at the back. */
  predicate Places(calls: seq<Call>, t: nat, v: nat)
  {
    t < |calls| && calls[t].Push? && calls[t].val == v && (calls[t].replace || v !in Run(calls[..t]))
  }

  /** Whether call number t takes v out for good. */
  predicate Removes(calls: seq<Call>, t: nat, v: nat)
  {
    t < |calls| && (calls[t] == Erase(v) || (calls[t].Pop? && Run(calls[..t]) != [] && Run(calls[..t])[0] == v))
  }

  function LastPlaced(calls: seq<Call>, n: nat, v: nat): int
    requires n <= |calls|
    ensures LastPlaced(calls, n, v) < n
  {
    if n == 0 then -1 else if Places(calls, n - 1, v) then n - 1 else LastPlaced(calls, n - 1, v)
  }

  function LastRemoved(calls: seq<Call>, n: nat, v: nat): int
    requires n <= |calls|
    ensures LastRemoved(calls, n, v) < n
  {
    if n == 0 then -1 else if Removes(calls, n - 1, v) then n - 1 else LastRemoved(calls, n - 1, v)
  }

  /** Without duplicates, and in increasing order of place. */
  ghost predicate InOrder(s: seq<nat>, place: nat -> int) {
    && Distinct(s)
    && (forall i :: 0 <= i < |s| ==> 0 <= place(s[i]))
    && (forall i, j :: 0 <= i < j < |s| ==> place(s[i]) < place(s[j]))
  }

  lemma CutMembers(s: seq<nat>, k: nat, u: nat)
    requires Distinct(s) && k < |s|
    ensures u in s[..k] + s[k + 1..] <==> u in s && u != s[k]
  {
    assert s == s[..k] + [s[k]] + s[k + 1..];
    if u in s[k + 1..] {
      var i: nat :| i < |s| - k - 1 && s[k + 1..][i] == u;
      assert s[k + 1 + i] == u;
    }
  }

  lemma CutOrder(s: seq<nat>, place: nat -> int, k: nat)
    requires InOrder(s, place) && k < |s|
    ensures InOrder(s[..k] + s[k + 1..], place)
  {
    var w := s[..k] + s[k + 1..];
    forall i, j | 0 <= i < j < |w|
      ensures place(w[i]) < place(w[j]) && w[i] != w[j] && 0 <= place(w[i]) && 0 <= place(w[j])
    {
      assert w[i] == s[if i < k then i else i + 1] && w[j] == s[if j < k then j else j + 1];
    }
    if |w| == 1 { assert w[0] == s[if 0 < k then 0 else 1]; }
  }

  lemma OrderWithout(s: seq<nat>, place: nat -> int, v: nat)
    requires InOrder(s, place)
    ensures InOrder(Without(s, v), place) && forall u :: u in Without(s, v) <==> u in s && u != v
  {
    if v in s {
      var k: nat :| k < |s| && s[k] == v;
      WithoutAt(s, v, k);
      hide Without, InOrder;
      CutOrder(s, place, k);
      forall u: nat { CutMembers(s, k, u); }
    } else {
      WithoutAbsent(s, v);
    }
  }

  lemma OrderAppend(s: seq<nat>, place: nat -> int, v: nat, now: nat -> int, last: nat)
    requires InOrder(s, place) && v !in s && now(v) == last
    requires forall i :: 0 <= i < |s| ==> place(s[i]) < last && now(s[i]) == place(s[i])
    ensures InOrder(s + [v], now)
  {
  }

  lemma OrderSame(s: seq<nat>, place: nat -> int, now: nat -> int)
    requires InOrder(s, place) && forall i :: 0 <= i < |s| ==> now(s[i]) == place(s[i])
    ensures InOrder(s, now)
  {
  }

  /** When each value was last placed, in the first n calls. */
  function PlacedAt(calls: seq<Call>, n: nat): nat -> int
    requires n <= |calls|
  {
    (v: nat) => LastPlaced(calls, n, v)
  }

  lemma RunStep(calls: seq<Call>, n: nat)
    requires n < |calls|
    ensures Run(calls[..n + 1]) == Apply(Run(calls[..n]), calls[n])
  {
    assert calls[..n + 1][..n] == calls[..n];
  }

  /** The queue is in the order of last placement, so a pop returns the value placed least recently. */
  lemma {:induction false} PlacementOrder(calls: seq<Call>, n: nat)
    requires n <= |calls|
    ensures InOrder(Run(calls[..n]), PlacedAt(calls, n))
  {
    hide InOrder, Without, Run;
    if n == 0 {
      EmptyRun(calls);
    } else {
      PlacementOrder(calls, n - 1);
      RunStep(calls, n - 1);
      var s, call := Run(calls[..n - 1]), calls[n - 1];
      var place, now := PlacedAt(calls, n - 1), PlacedAt(calls, n);
      if call.Push? && (call.replace || call.val !in s) {
        OrderWithout(s, place, call.val);
        OrderAppend(Without(s, call.val), place, call.val, now, n - 1);
      } else {
        if call.Pop? { OrderTail(s, place); }
        if call.Erase? { OrderWithout(s, place, call.val); }
        OrderSame(Run(calls[..n]), place, now);
      }
    }
  }

  lemma EmptyRun(calls: seq<Call>)
    ensures Run(calls[..0]) == [] && InOrder([], PlacedAt(calls, 0))
  {
  }

  lemma OrderTail(s: seq<nat>, place: nat -> int)
    requires InOrder(s, place)
    ensures s != [] ==> InOrder(s[1..], place)
  {
  }

  lemma DistinctTail(s: seq<nat>, place: nat -> int, v: nat)
    requires InOrder(s, place) && s != []
    ensures v in s[1..] <==> v in s && v != s[0]
  {
  }

  /** A value is queued exactly when it was placed since it was last removed. */
  lemma {:induction false} QueuedIff(calls: seq<Call>, n: nat, v: nat)
    requires n <= |calls|
    ensures v in Run(calls[..n]) <==> LastPlaced(calls, n, v) > LastRemoved(calls, n, v)
  {
    hide InOrder, Without, Run;
    if n == 0 {
      EmptyRun(calls);
    } else {
      QueuedIff(calls, n - 1, v);
      PlacementOrder(calls, n - 1);
      RunStep(calls, n - 1);
      var s, call := Run(calls[..n - 1]), calls[n - 1];
      if call.Pop? {
        if s != [] { DistinctTail(s, PlacedAt(calls, n - 1), v); }
      } else if !call.SetLimit? {
        OrderWithout(s, PlacedAt(calls, n - 1), call.val);
      }
    }
  }

  function LimitAfter(calls: seq<Call>): nat {
    if calls == [] then 0
    else if calls[|calls| - 1].SetLimit? then calls[|calls| - 1].limit
    else LimitAfter(calls[..|calls| - 1])
  }

  /** What the pops return. */
  function Popped(calls: seq<Call>): seq<nat> {
    if calls == [] then []
    else
      var before := calls[..|calls| - 1];
      if calls[|calls| - 1].Pop? && Run(before) != [] then Popped(before) + [Run(before)[0]] else Popped(before)
  }

  /** What the queue demands of call number t: values below the limit, and something to pop. */
  ghost predicate Legal(calls: seq<Call>, t: nat)
  {
    t < |calls| &&
    match calls[t]
    case Push(_, val) => val < LimitAfter(calls[..t])
    case Erase(val) => val < LimitAfter(calls[..t])
    case Pop => Run(calls[..t]) != []
    case SetLimit(limit) => forall v :: v in Run(calls[..t]) ==> v < limit
  }

  /** Any calls, made on the links. */
  method PerformAll(calls: seq<Call>) returns (q: Queue, popped: seq<nat>)
    requires forall t: nat :: t < |calls| ==> Legal(calls, t)
    ensures q.Valid() && q.Contents() == Run(calls) && q.GetValueLimit() == LimitAfter(calls)
    ensures popped == Popped(calls)
  {
    hide Without, Linked, InOrder;
    q := new Queue();
    popped := [];
    for t := 0 to |calls|
      invariant fresh(q) && q.Valid() && q.Contents() == Run(calls[..t]) && q.GetValueLimit() == LimitAfter(calls[..t])
      invariant popped == Popped(calls[..t])
    {
      assert Legal(calls, t) && calls[..t + 1][..t] == calls[..t];
      match calls[t]
      case Push(replace, val) => q.Push(replace, val);
      case Erase(val) => q.Erase(val);
      case Pop =>
        var front := q.Pop();
        popped := popped + [front];
      case SetLimit(limit) => q.SetValueLimit(limit);
    }
    assert calls[..|calls|] == calls;
  }

  /** Every value that is popped is the one that was placed least recently of those queued. */
  lemma PoppedIsOldest(calls: seq<Call>, t: nat, v: nat)
    requires t < |calls| && calls[t].Pop? && v in Run(calls[..t])
    ensures Popped(calls[..t + 1]) == Popped(calls[..t]) + [Run(calls[..t])[0]]
    ensures LastPlaced(calls, t, Run(calls[..t])[0]) <= LastPlaced(calls, t, v)
  {
    PlacementOrder(calls, t);
    assert calls[..t + 1][..t] == calls[..t];
  }
}
