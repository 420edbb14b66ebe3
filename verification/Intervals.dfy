/** Sets of integers kept as sorted, separated intervals: src/jw_util/intervalset.h. */
module Intervals {

  /** offset <= x < limit */
  datatype Interval = Interval(offset: nat, limit: nat)

  /** assert_increasing: nonempty intervals in order, with a gap between neighbours. */
  ghost predicate Increasing(s: seq<Interval>) {
    && (forall i :: 0 <= i < |s| ==> s[i].offset < s[i].limit)
    && (forall i, j :: 0 <= i < j < |s| ==> s[i].limit < s[j].offset)
  }

  ghost predicate In(iv: Interval, x: nat) { iv.offset <= x < iv.limit }

  ghost predicate Covers(s: seq<Interval>, x: nat) { exists i :: 0 <= i < |s| && In(s[i], x) }

  /** x lies between two neighbours that are at most `gap` apart. */
  ghost predicate InGap(s: seq<Interval>, gap: nat, x: nat) {
    exists i :: 0 < i < |s| && GapHolds(s[i - 1], s[i], gap, x)
  }

  ghost predicate GapHolds(a: Interval, b: Interval, gap: nat, x: nat) {
    a.limit <= x < b.offset <= a.limit + gap
  }

  lemma CoversSplit(s: seq<Interval>, k: nat, x: nat)
    requires k <= |s|
    ensures Covers(s, x) <==> Covers(s[..k], x) || Covers(s[k..], x)
  {
    if Covers(s, x) {
      var i :| 0 <= i < |s| && In(s[i], x);
      if i < k { assert In(s[..k][i], x); } else { assert In(s[k..][i - k], x); }
    }
    if Covers(s[..k], x) {
      var i :| 0 <= i < k && In(s[..k][i], x);
      assert In(s[i], x);
    }
    if Covers(s[k..], x) {
      var i :| 0 <= i < |s| - k && In(s[k..][i], x);
      assert In(s[k + i], x);
    }
  }

  lemma CoversOne(iv: Interval, x: nat)
    ensures Covers([iv], x) <==> In(iv, x)
  {
    if In(iv, x) { assert In([iv][0], x); }
  }

  lemma CoversParts(a: seq<Interval>, iv: Interval, b: seq<Interval>, x: nat)
    ensures Covers(a + [iv] + b, x) <==> Covers(a, x) || In(iv, x) || Covers(b, x)
  {
    var s := a + [iv] + b;
    CoversSplit(s, |a|, x);
    assert s[..|a|] == a && s[|a|..] == [iv] + b;
    CoversSplit([iv] + b, 1, x);
    assert ([iv] + b)[..1] == [iv] && ([iv] + b)[1..] == b;
    CoversOne(iv, x);
  }

  /** The intervals cover what they covered before, and [offset, limit). */
  ghost predicate Adds(now: seq<Interval>, was: seq<Interval>, offset: nat, limit: nat) {
    forall x: nat :: Covers(now, x) <==> Covers(was, x) || offset <= x < limit
  }

  /** Covers what was covered, and the gaps of at most maxGap between neighbours. */
  ghost predicate FillsGaps(now: seq<Interval>, was: seq<Interval>, maxGap: nat) {
    forall x: nat :: Covers(now, x) <==> Covers(was, x) || InGap(was, maxGap, x)
  }

  /** No two neighbours are maxGap or less apart. */
  ghost predicate FarApart(s: seq<Interval>, maxGap: nat) {
    forall i :: 0 < i < |s| ==> s[i - 1].limit + maxGap < s[i].offset
  }

  /** a, reaching at least as far as limit. */
  function Later(a: Interval, limit: nat): Interval { a.(limit := if limit > a.limit then limit else a.limit) }

  /** Increasing, except that interval p may reach over those that follow it. */
  ghost predicate Almost(s: seq<Interval>, p: nat)
  {
    && p < |s|
    && (forall i :: 0 <= i < |s| ==> s[i].offset < s[i].limit)
    && (forall i, j :: 0 <= i < j < |s| && i != p ==> s[i].limit < s[j].offset)
    && (forall j :: p < j < |s| ==> s[p].offset < s[j].offset)
  }

  /** Widening interval p keeps it in place, when what follows begins after offset. */
  lemma WidenShape(was: seq<Interval>, k: nat, offset: nat, limit: nat)
    requires Increasing(was) && 0 < k <= |was| && offset < limit
    requires was[k - 1].offset <= offset && (k < |was| ==> was[k].offset > offset)
    ensures Almost(was[k - 1 := Later(was[k - 1], limit)], k - 1)
  {
  }

  lemma WidenCovers(was: seq<Interval>, p: nat, offset: nat, limit: nat)
    requires p < |was| && was[p].offset <= offset <= was[p].limit
    ensures Adds(was[p := Later(was[p], limit)], was, offset, limit)
  {
    hide Covers, Increasing, Almost;
    var now := was[p := Later(was[p], limit)];
    assert was == was[..p] + [was[p]] + was[p + 1..] && now == was[..p] + [now[p]] + was[p + 1..];
    forall x: nat
      ensures Covers(now, x) <==> Covers(was, x) || offset <= x < limit
    {
      CoversParts(was[..p], was[p], was[p + 1..], x);
      CoversParts(was[..p], now[p], was[p + 1..], x);
    }
  }

  lemma PutShape(was: seq<Interval>, k: nat, offset: nat, limit: nat)
    requires Increasing(was) && k <= |was| && offset < limit
    requires k > 0 ==> was[k - 1].limit < offset
    requires k < |was| ==> was[k].offset > offset
    ensures Almost(was[..k] + [Interval(offset, limit)] + was[k..], k)
  {
    var now := was[..k] + [Interval(offset, limit)] + was[k..];
    assert forall i :: 0 <= i < k ==> now[i] == was[i];
    assert forall i :: k < i < |now| ==> now[i] == was[i - 1];
    forall i, j | 0 <= i < j < |now| && i != k
      ensures now[i].limit < now[j].offset
    {
      if j == k {
        assert was[i].limit <= was[k - 1].limit by { if i < k - 1 { assert was[k - 1].offset < was[k - 1].limit; } }
      }
    }
  }

  lemma PutCovers(was: seq<Interval>, k: nat, offset: nat, limit: nat)
    requires k <= |was|
    ensures Adds(was[..k] + [Interval(offset, limit)] + was[k..], was, offset, limit)
  {
    hide Covers, Increasing, Almost;
    var now := was[..k] + [Interval(offset, limit)] + was[k..];
    forall x: nat
      ensures Covers(now, x) <==> Covers(was, x) || offset <= x < limit
    {
      CoversParts(was[..k], Interval(offset, limit), was[k..], x);
      CoversSplit(was, k, x);
    }
  }

  function Joined(s: seq<Interval>, p: nat): seq<Interval>
    requires p + 1 < |s|
  {
    s[..p] + [Later(s[p], s[p + 1].limit)] + s[p + 2..]
  }

  lemma JoinedIs(s: seq<Interval>, p: nat)
    requires p + 1 < |s|
    ensures var wide := s[p := Later(s[p], s[p + 1].limit)];
            wide[..p + 1] + wide[p + 2..] == Joined(s, p)
  {
  }

  lemma JoinShape(s: seq<Interval>, p: nat)
    requires p + 1 < |s| && Almost(s, p)
    ensures Almost(Joined(s, p), p)
  {
  }

  lemma JoinCovers(s: seq<Interval>, p: nat, was: seq<Interval>, offset: nat, limit: nat)
    requires p + 1 < |s| && s[p].offset < s[p + 1].offset <= s[p].limit
    requires Adds(s, was, offset, limit)
    ensures Adds(Joined(s, p), was, offset, limit)
  {
    hide Covers, Increasing, Almost;
    forall x: nat
      ensures Covers(Joined(s, p), x) <==> Covers(s, x)
    {
      assert s == s[..p] + [s[p]] + s[p + 1..] && s[p + 1..] == [] + [s[p + 1]] + s[p + 2..];
      CoversParts(s[..p], s[p], s[p + 1..], x);
      CoversParts([], s[p + 1], s[p + 2..], x);
      CoversNone(x);
      CoversParts(s[..p], Later(s[p], s[p + 1].limit), s[p + 2..], x);
    }
  }

  lemma CoversNone(x: nat)
    ensures !Covers([], x)
  {
  }

  lemma AlmostDone(s: seq<Interval>, p: nat)
    requires p < |s| && Almost(s, p)
    requires p + 1 < |s| ==> s[p].limit < s[p + 1].offset
    ensures Increasing(s)
  {
  }

  /** One more interval: what it adds to the cover. */
  lemma OneMoreCovered(was: seq<Interval>, q: nat, x: nat)
    requires q < |was|
    ensures Covers(was[..q + 1], x) <==> Covers(was[..q], x) || In(was[q], x)
  {
    hide Covers, In;
    assert was[..q + 1] == was[..q] + [was[q]] + [];
    CoversParts(was[..q], was[q], [], x);
    CoversNone(x);
  }

  /** One more interval: what it adds to the gaps. */
  lemma OneMoreGap(was: seq<Interval>, q: nat, maxGap: nat, x: nat)
    requires 0 < q < |was|
    ensures InGap(was[..q + 1], maxGap, x) <==> InGap(was[..q], maxGap, x) || GapHolds(was[q - 1], was[q], maxGap, x)
  {
    hide GapHolds;
    var s, t := was[..q + 1], was[..q];
    if InGap(s, maxGap, x) {
      var i :| 0 < i < |s| && GapHolds(s[i - 1], s[i], maxGap, x);
      if i < q { assert GapHolds(t[i - 1], t[i], maxGap, x); }
    }
    if InGap(t, maxGap, x) {
      var i :| 0 < i < |t| && GapHolds(t[i - 1], t[i], maxGap, x);
      assert GapHolds(s[i - 1], s[i], maxGap, x);
    }
    if GapHolds(was[q - 1], was[q], maxGap, x) { assert GapHolds(s[q - 1], s[q], maxGap, x); }
  }

  /** The next step of merge: `done` stands for the first q intervals, and takes in the next. */
  ghost predicate TakesIn(done: seq<Interval>, was: seq<Interval>, q: nat, maxGap: nat, next: seq<Interval>)
    requires 0 < q < |was| && |done| > 0
  {
    if was[q - 1].limit + maxGap >= was[q].offset
    then next == done[|done| - 1 := done[|done| - 1].(limit := was[q].limit)]
    else next == done + [was[q]]
  }

  lemma TakeShape(done: seq<Interval>, was: seq<Interval>, q: nat, maxGap: nat, next: seq<Interval>)
    requires 0 < q < |was| && |done| > 0 && Increasing(was) && Increasing(done) && FarApart(done, maxGap)
    requires done[|done| - 1].limit == was[q - 1].limit && TakesIn(done, was, q, maxGap, next)
    ensures Increasing(next) && FarApart(next, maxGap)
  {
    assert was[q - 1].limit < was[q].offset < was[q].limit;
  }

  lemma TakeCovers(done: seq<Interval>, was: seq<Interval>, q: nat, maxGap: nat, next: seq<Interval>)
    requires 0 < q < |was| && |done| > 0 && Increasing(was) && Increasing(done)
    requires done[|done| - 1].limit == was[q - 1].limit && TakesIn(done, was, q, maxGap, next)
    requires FillsGaps(done, was[..q], maxGap)
    ensures FillsGaps(next, was[..q + 1], maxGap)
  {
    var p := |done| - 1;
    assert was[q - 1].limit < was[q].offset < was[q].limit && done[p].offset < done[p].limit;
    hide Covers, InGap, Increasing;
    forall x: nat
      ensures Covers(next, x) <==> Covers(was[..q + 1], x) || InGap(was[..q + 1], maxGap, x)
    {
      OneMoreCovered(was, q, x);
      OneMoreGap(was, q, maxGap, x);
      assert done == done[..p] + [done[p]] + [];
      CoversParts(done[..p], done[p], [], x);
      if was[q - 1].limit + maxGap >= was[q].offset {
        assert next == done[..p] + [next[p]] + [];
        CoversParts(done[..p], next[p], [], x);
      } else {
        assert next == done + [was[q]] + [];
        CoversParts(done, was[q], [], x);
      }
      CoversNone(x);
    }
  }

  lemma TakeNext(done: seq<Interval>, was: seq<Interval>, q: nat, maxGap: nat, next: seq<Interval>)
    requires 0 < q < |was| && |done| > 0 && Increasing(was) && Increasing(done)
    requires done[|done| - 1].limit == was[q - 1].limit && TakesIn(done, was, q, maxGap, next)
    requires FillsGaps(done, was[..q], maxGap) && FarApart(done, maxGap)
    ensures Increasing(next) && FarApart(next, maxGap) && FillsGaps(next, was[..q + 1], maxGap)
  {
    TakeShape(done, was, q, maxGap, next);
    TakeCovers(done, was, q, maxGap, next);
  }

  lemma FirstGaps(was: seq<Interval>, maxGap: nat)
    requires |was| > 0
    ensures FillsGaps(was[..1], was[..1], maxGap)
  {
  }

  lemma FirstShape(was: seq<Interval>, maxGap: nat)
    requires |was| > 0 && Increasing(was)
    ensures Increasing(was[..1]) && FarApart(was[..1], maxGap)
  {
  }

  lemma AlmostOrdered(s: seq<Interval>, p: nat)
    requires p + 1 < |s| && Almost(s, p)
    ensures s[p].offset < s[p + 1].offset
  {
  }

  class IntervalSet {
    var items: seq<Interval>

    constructor ()
      ensures items == []
    {
      items := [];
    }

    ghost predicate Valid()
      reads this
    {
      Increasing(items)
    }

    method Clear()
      modifies this
      ensures items == [] && Valid()
    {
      items := [];
    }

    /** upper_bound: index of the first interval that begins after offset. */
    method UpperBound(offset: nat) returns (k: nat)
      requires Valid()
      ensures k <= |items|
      ensures forall i :: 0 <= i < k ==> items[i].offset <= offset
      ensures k < |items| ==> items[k].offset > offset
    {
      k := 0;
      while k < |items| && items[k].offset <= offset
        invariant k <= |items|
        invariant forall i :: 0 <= i < k ==> items[i].offset <= offset
      {
        k := k + 1;
      }
    }

    /** prev->limit, unless it is as large already */
    method Widen(p: nat, limit: nat)
      requires p < |items|
      modifies this
      ensures items == old(items)[p := Later(old(items)[p], limit)]
    {
      if limit > items[p].limit {
        items := items[p := items[p].(limit := limit)];
      }
    }

    /** Adds an interval, joining it with what it overlaps or touches. */
    method Insert(offset: nat, limit: nat)
      requires Valid() && offset < limit
      modifies this
      ensures Valid() && Adds(items, old(items), offset, limit)
    {
      hide Increasing, Almost, Adds, Later, Joined;
      ghost var was := items;
      var k := UpperBound(offset);
      var p: nat;   // where prev is
      if k > 0 && items[k - 1].limit >= offset {
        p := k - 1;
        WidenShape(was, k, offset, limit);
        WidenCovers(was, p, offset, limit);
        Widen(p, limit);
      } else {
        p := k;
        PutShape(was, k, offset, limit);
        PutCovers(was, k, offset, limit);
        items := items[..k] + [Interval(offset, limit)] + items[k..];
      }
      while p + 1 < |items| && items[p].limit >= items[p + 1].offset
        invariant p < |items| && Almost(items, p) && Adds(items, was, offset, limit)
        decreases |items|
      {
        ghost var now := items;
        AlmostOrdered(now, p);
        JoinShape(now, p);
        JoinCovers(now, p, was, offset, limit);
        Widen(p, items[p + 1].limit);
        items := items[..p + 1] + items[p + 2..];
        JoinedIs(now, p);
      }
      AlmostDone(items, p);
    }

    /** Joins neighbours at most maxGap apart: fills exactly those gaps. */
    method Merge(maxGap: nat)
      requires Valid()
      modifies this
      ensures Valid() && FillsGaps(items, old(items), maxGap) && FarApart(items, maxGap)
    {
      if items == [] { return; }
      hide Increasing, FillsGaps, FarApart;
      ghost var was := items;
      var p: nat := 0;
      ghost var q: nat := 1;   // from q on, was is still as it was
      FirstGaps(was, maxGap);
      FirstShape(was, maxGap);
      while p + 1 < |items|
        invariant p < |items| && 1 <= q <= |was| && items[p + 1..] == was[q..]
        invariant Increasing(items[..p + 1]) && FarApart(items[..p + 1], maxGap)
        invariant FillsGaps(items[..p + 1], was[..q], maxGap)
        invariant items[p].limit == was[q - 1].limit
        decreases |items| - p
      {
        ghost var done := items[..p + 1];
        assert items[p + 1] == items[p + 1..][0] == was[q];
        assert items[p + 2..] == items[p + 1..][1..] == was[q + 1..];
        if items[p].limit + maxGap >= items[p + 1].offset {
          items := items[p := items[p].(limit := items[p + 1].limit)];
          items := items[..p + 1] + items[p + 2..];
          TakeNext(done, was, q, maxGap, items[..p + 1]);
        } else {
          p := p + 1;
          TakeNext(done, was, q, maxGap, items[..p + 1]);
        }
        q := q + 1;
      }
      assert items[..p + 1] == items && was[..q] == was;
    }
  }
}
