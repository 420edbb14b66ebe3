/** A vertex buffer and the ranges of it that are out of date: src/graphics/glbuffer.h. */
module GlBuffers {
  import opened Intervals

  const INDEX_RANGE := 0x1_0000_0000   // Index is a 32-bit unsigned int

  /** The size allocated for `size` elements: alloc_ratio is 3/2, and the result is stored as an Index. */
  function Grown(size: nat): nat { size * 3 / 2 % INDEX_RANGE }

  /** The new buffer is large enough exactly as long as 3/2 of the size is still an Index. */
  lemma GrowthSufficesIff(size: nat)
    requires size < 0x1_0000_0000
    ensures Grown(size) >= size <==> size * 3 / 2 < 0x1_0000_0000
    ensures Grown(size) >= size ==> Grown(size) == size * 3 / 2
  {
    var n := size * 3 / 2;
    if n >= INDEX_RANGE {
      assert n - INDEX_RANGE < size && n / INDEX_RANGE == 1;
    }
  }

  /** Every flagged index is below n. */
  ghost predicate FlagsBelow(flags: seq<Interval>, n: nat) { forall x: nat :: Covers(flags, x) ==> x < n }

  /** What update_flags sends: the flagged indices, and the gaps it closes between them. */
  ghost predicate Sent(flags: seq<Interval>, maxGap: nat, x: nat) { Covers(flags, x) || InGap(flags, maxGap, x) }

  /** memory after copying from source whatever is sent. */
  ghost predicate Flushed<T>(memory: seq<T>, was: seq<T>, source: seq<T>, flags: seq<Interval>, maxGap: nat) {
    && |memory| == |was|
    && forall x: nat :: x < |was| ==>
         if Sent(flags, maxGap, x) then x < |source| && memory[x] == source[x] else memory[x] == was[x]
  }

  /** memory after copying from source what the first k intervals cover. */
  ghost predicate CopiedUpTo<T>(memory: seq<T>, was: seq<T>, source: seq<T>, flags: seq<Interval>, k: nat)
    requires k <= |flags|
  {
    && |memory| == |was|
    && forall x: nat :: x < |was| ==>
         if Covers(flags[..k], x) then x < |source| && memory[x] == source[x] else memory[x] == was[x]
  }

  lemma CopyStep<T>(memory: seq<T>, was: seq<T>, source: seq<T>, flags: seq<Interval>, k: nat, next: seq<T>)
    requires k < |flags| && CopiedUpTo(memory, was, source, flags, k)
    requires flags[k].offset < flags[k].limit <= |was| && flags[k].limit <= |source|
    requires next == memory[..flags[k].offset] + source[flags[k].offset..flags[k].limit] + memory[flags[k].limit..]
    ensures CopiedUpTo(next, was, source, flags, k + 1)
  {
    hide Covers;
    forall x: nat | x < |was|
      ensures if Covers(flags[..k + 1], x) then x < |source| && next[x] == source[x] else next[x] == was[x]
    {
      OneMoreCovered(flags, k, x);
    }
  }

  /** Intervals that cover only indices below n end at or below n. */
  lemma LimitsBelow(flags: seq<Interval>, n: nat, i: nat)
    requires Increasing(flags) && FlagsBelow(flags, n) && i < |flags|
    ensures flags[i].offset < flags[i].limit <= n
  {
    assert flags[i].offset < flags[i].limit;
    var last: nat := flags[i].limit - 1;
    assert In(flags[i], last) && Covers(flags, last);
  }

  /** A gap lies below the interval after it, so closing gaps sends nothing beyond the flags. */
  lemma GapsBelow(flags: seq<Interval>, maxGap: nat, n: nat)
    requires Increasing(flags) && FlagsBelow(flags, n)
    ensures forall x: nat :: InGap(flags, maxGap, x) ==> x < n
  {
    forall x: nat | InGap(flags, maxGap, x)
      ensures x < n
    {
      var i :| 0 < i < |flags| && GapHolds(flags[i - 1], flags[i], maxGap, x);
      LimitsBelow(flags, n, i);
    }
  }

  lemma NoGapOfNone(flags: seq<Interval>, x: nat)
    ensures !InGap(flags, 0, x)
  {
  }

  class GlBuffer<T(0)> {
    const flags: IntervalSet
    const mergeElements: nat   // GLBUFFER_MAX_MERGE_GAP / sizeof(Type)
    var vboSize: nat
    var memory: seq<T>         // the contents of the buffer object

    constructor (mergeElements: nat)
      ensures Valid() && fresh(flags) && this.mergeElements == mergeElements
      ensures vboSize == 0 && flags.items == []
    {
      flags := new IntervalSet();
      this.mergeElements := mergeElements;
      vboSize := 0;
      memory := [];
    }

    ghost predicate Valid()
      reads this, flags
    {
      flags.Valid() && |memory| == vboSize
    }

    method FlagIndex(offset: nat)
      requires Valid()
      modifies flags
      ensures Valid()
      ensures forall x: nat :: Covers(flags.items, x) <==> old(Covers(flags.items, x)) || x == offset
    {
      flags.Insert(offset, offset + 1);
    }

    predicate NeedsResize(size: nat)
      reads this
    {
      size > vboSize
    }

    /** Contents that nothing is known about. */
    static method Allocate(n: nat) returns (contents: seq<T>)
      ensures |contents| == n
    {
      var a := new T[n];
      contents := a[..];
    }

    /** Moves to a larger buffer object when this one is too small; what it held is copied. */
    method UpdateSize(size: nat)
      requires Valid() && size * 3 / 2 < 0x1_0000_0000
      modifies this
      ensures Valid() && vboSize >= size
      ensures vboSize == if old(NeedsResize(size)) then size * 3 / 2 else old(vboSize)
      ensures old(memory) <= memory
    {
      if NeedsResize(size) {
        var newVboSize := Grown(size);
        var contents := Allocate(newVboSize);
        if vboSize > 0 {
          memory := memory + contents[vboSize..];
        } else {
          memory := contents;
        }
        vboSize := newVboSize;
      }
    }

    /** Sends what is flagged, closing small gaps so that fewer ranges are mapped, and clears the flags. */
    method UpdateFlags(source: seq<T>)
      requires Valid() && FlagsBelow(flags.items, vboSize) && FlagsBelow(flags.items, |source|)
      modifies this`memory, flags
      ensures Valid() && flags.items == []
      ensures Flushed(memory, old(memory), source, old(flags.items), mergeElements)
    {
      hide Covers, InGap, Increasing, CopiedUpTo;
      ghost var was := memory;
      ghost var flagged := flags.items;
      GapsBelow(flagged, mergeElements, vboSize);
      GapsBelow(flagged, mergeElements, |source|);
      if flags.items == [] {
        NothingSent(mergeElements);
        return;
      }
      if mergeElements > 0 {
        flags.Merge(mergeElements);
      } else {
        forall x: nat { NoGapOfNone(flagged, x); }
      }
      assert FlagsBelow(flags.items, vboSize) && FlagsBelow(flags.items, |source|);
      assert flags.Valid();
      ghost var sent := flags.items;
      var i: nat := 0;
      NothingCopied(was, source, flags.items);
      while i < |flags.items|
        modifies this`memory
        invariant i <= |flags.items| && |memory| == vboSize && flags.items == sent
        invariant CopiedUpTo(memory, was, source, sent, i)
      {
        var interval := flags.items[i];
        LimitsBelow(sent, vboSize, i);
        LimitsBelow(sent, |source|, i);
        ghost var before := memory;
        memory := memory[..interval.offset] + source[interval.offset..interval.limit] + memory[interval.limit..];
        CopyStep(before, was, source, sent, i, memory);
        i := i + 1;
      }
      AllCopied(memory, was, source, sent, flagged, mergeElements);
      flags.Clear();
    }
  }

  lemma NothingSent(maxGap: nat)
    ensures forall x: nat :: !Sent([], maxGap, x)
  {
  }

  lemma NothingCopied<T>(was: seq<T>, source: seq<T>, flags: seq<Interval>)
    ensures CopiedUpTo(was, was, source, flags, 0)
  {
  }

  lemma AllCopied<T>(memory: seq<T>, was: seq<T>, source: seq<T>, merged: seq<Interval>, flags: seq<Interval>,
                     maxGap: nat)
    requires CopiedUpTo(memory, was, source, merged, |merged|) && FillsGaps(merged, flags, maxGap)
    ensures Flushed(memory, was, source, flags, maxGap)
  {
    hide Covers, InGap;
    assert merged[..|merged|] == merged;
  }
}
