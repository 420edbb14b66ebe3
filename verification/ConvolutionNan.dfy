/** Which outputs of a chunk the convolution reports as not-a-number, src/series/type/convseries.h. */
module ConvolutionNan {
  import Convolution

  type KernelSize = Convolution.KernelSize

  /** What the marks of a chunk depend on: which inputs of the earlier chunks that are held, and which of the chunk
      itself, are not numbers ("bad"), the kernel size, where the chunk begins, and the backfill option. */
  datatype Chunk = Chunk(prior: seq<bool>, bad: seq<bool>, kernelSize: KernelSize, offset: nat, backfillZeros: bool) {
    /** What is held of the series before the chunk is all of it, or at least a kernel without its first sample. */
    ghost predicate Valid() {
      |prior| <= offset && (|prior| == offset || |prior| + 1 >= kernelSize)
    }
  }

  /** The input that output i of the chunk at offset meets with kernel sample k. */
  function InputOf(offset: nat, i: nat, k: nat): int { offset + i - k }

  /** nanEnd before any input of the chunk is read: without zero backfill the outputs that would need
      inputs from before the series are not numbers. */
  function InitialNanEnd(kernelSize: KernelSize, offset: nat, backfillZeros: bool): (e: nat)
    ensures e < kernelSize
  {
    if !backfillZeros && kernelSize - 1 > offset then kernelSize - 1 - offset else 0
  }

  /** Those are the outputs whose window of kernelSize inputs begins before the series. */
  lemma InitialMarksAreExact(kernelSize: KernelSize, offset: nat, backfillZeros: bool, i: nat)
    ensures i < InitialNanEnd(kernelSize, offset, backfillZeros) <==>
            !backfillZeros && exists k: nat :: k < kernelSize && InputOf(offset, i, k) < 0
  {
    if offset + i < kernelSize - 1 { assert InputOf(offset, i, kernelSize - 1) < 0; }
  }

  /** The chunks that are held reach far enough, by their number. */
  lemma ScannedChunksReach(x: Chunk, chunkIndex: nat, size: nat)
    requires size > 0 && x.offset == chunkIndex * size
    requires var n := (x.kernelSize + size - 2) / size; |x.prior| == (if n < chunkIndex then n else chunkIndex) * size
    ensures x.Valid()
  {
    var n := (x.kernelSize + size - 2) / size;
    if n < chunkIndex {
      var r := (x.kernelSize + size - 2) % size;
      assert x.kernelSize + size - 2 == n * size + r;
      assert (chunkIndex - n) * size >= 0 && chunkIndex * size == n * size + (chunkIndex - n) * size;
    }
  }

  // ---------------------------------------------------------------- what is found

  /** The input d places before the chunk is bad. */
  predicate BadAt(prior: seq<bool>, d: int) { 0 < d <= |prior| && prior[|prior| - d] }

  /** Distance back from the chunk to the latest bad input of the earlier chunks, 0 if there is none
      among the last `reach` inputs. */
  function LatestBad(prior: seq<bool>, reach: nat): (d: nat)
    ensures d <= |prior| && d <= reach
    ensures d > 0 ==> BadAt(prior, d)
    ensures forall e :: 0 < e < d || (d == 0 && e <= reach) ==> !BadAt(prior, e)
  {
    if reach == 0 then 0
    else
      var d := LatestBad(prior, reach - 1);
      if d > 0 then d else if BadAt(prior, reach) then reach else 0
  }

  function Latest(x: Chunk): (d: nat)
    ensures d <= x.kernelSize
  {
    LatestBad(x.prior, x.kernelSize)
  }

  /** The first bad input from `from` on; `to` if there is none before it. */
  function NextBad(bad: seq<bool>, from: nat, to: nat): (f: nat)
    requires from <= to <= |bad|
    ensures from <= f <= to && (f < to ==> bad[f]) && forall j :: from <= j < f ==> !bad[j]
    decreases |bad| - from
  {
    if from == to || bad[from] then from else NextBad(bad, from + 1, to)
  }

  /** nanEnd once the inputs from `from` to i are read, starting with `start`. */
  function NanEnd(bad: seq<bool>, kernelSize: KernelSize, start: nat, from: nat, i: nat): nat
    requires from <= i <= |bad|
  {
    if i == from then start
    else if bad[i - 1] then i - 1 + kernelSize
    else NanEnd(bad, kernelSize, start, from, i - 1)
  }

  /** Without a bad input nanEnd stays. */
  lemma {:induction false} NanEndStays(bad: seq<bool>, kernelSize: KernelSize, start: nat, from: nat, a: nat, b: nat)
    requires from <= a <= b <= |bad| && forall j :: a <= j < b ==> !bad[j]
    ensures NanEnd(bad, kernelSize, start, from, b) == NanEnd(bad, kernelSize, start, from, a)
  {
    if a < b { NanEndStays(bad, kernelSize, start, from, a, b - 1); }
  }

  /** Reading may be interrupted. */
  lemma {:induction false} NanEndSplit(bad: seq<bool>, kernelSize: KernelSize, start: nat, c: nat, i: nat)
    requires c <= i <= |bad|
    ensures NanEnd(bad, kernelSize, start, 0, i) == NanEnd(bad, kernelSize, NanEnd(bad, kernelSize, start, 0, c), c, i)
  {
    if c < i { NanEndSplit(bad, kernelSize, start, c, i - 1); }
  }

  /** With a bad input the start does not matter any more, and nanEnd belongs to the last bad one. */
  lemma {:induction false} NanEndBehind(bad: seq<bool>, kernelSize: KernelSize, start: nat, from: nat, j: nat, b: nat)
    requires from <= j < b <= |bad| && bad[j]
    ensures forall other: nat :: NanEnd(bad, kernelSize, start, from, b) == NanEnd(bad, kernelSize, other, 0, b)
    ensures j + kernelSize <= NanEnd(bad, kernelSize, start, from, b) < b + kernelSize
    ensures var last := NanEnd(bad, kernelSize, start, from, b) - kernelSize;
            bad[last] && forall k :: last < k < b ==> !bad[k]
  {
    if !bad[b - 1] { NanEndBehind(bad, kernelSize, start, from, j, b - 1); }
  }

  // ---------------------------------------------------------------- what ought to be marked

  /** Output i must not be a number: its window begins before the series, or holds an input that is none. */
  ghost predicate Spoilt(x: Chunk, i: nat) {
    || (!x.backfillZeros && x.offset + i < x.kernelSize - 1)
    || (exists d :: BadAt(x.prior, d) && i + d < x.kernelSize)
    || (exists j :: 0 <= j <= i && j < |x.bad| && x.bad[j] && i < j + x.kernelSize)
  }

  /** Where the outputs end that are spoilt from before the chunk. */
  function TrueStart(x: Chunk): nat
  {
    if Latest(x) > 0 then x.kernelSize - Latest(x) else InitialNanEnd(x.kernelSize, x.offset, x.backfillZeros)
  }

  /** Where they end by the code, once the earlier chunks are scanned: the distance is added instead. */
  function Scanned(x: Chunk): nat
  {
    if Latest(x) > 0 then Latest(x) + x.kernelSize - 1
    else InitialNanEnd(x.kernelSize, x.offset, x.backfillZeros)
  }

  /** Where the outputs end that are spoilt by what comes before input i. */
  function TrueEnd(x: Chunk, i: nat): nat
    requires i <= |x.bad|
  {
    NanEnd(x.bad, x.kernelSize, TrueStart(x), 0, i)
  }

  /** Reading the inputs one by one from the true start would mark exactly the spoilt outputs. */
  lemma SpoiltIff(x: Chunk, i: nat)
    requires x.Valid() && i < |x.bad|
    ensures Spoilt(x, i) <==> i < TrueEnd(x, i + 1)
  {
    var f := NextBad(x.bad, 0, i + 1);
    SpoiltBefore(x, i);
    if f <= i {
      NanEndBehind(x.bad, x.kernelSize, TrueStart(x), 0, f, i + 1);
      var last := TrueEnd(x, i + 1) - x.kernelSize;
      assert x.bad[last];
    } else {
      NanEndStays(x.bad, x.kernelSize, TrueStart(x), 0, 0, i + 1);
    }
  }

  /** What comes from before the chunk ends within the reach of its first input. */
  lemma SpoiltBefore(x: Chunk, i: nat)
    requires x.Valid()
    ensures i < TrueStart(x) <==> (!x.backfillZeros && x.offset + i < x.kernelSize - 1)
                                  || exists d :: BadAt(x.prior, d) && i + d < x.kernelSize
    ensures TrueStart(x) < x.kernelSize
  {
    var d := Latest(x);
    if d > 0 && i < x.kernelSize - d { assert BadAt(x.prior, d) && i + d < x.kernelSize; }
  }

  // ---------------------------------------------------------------- runs

  /** One run of the chunk's computer that comes as far as the marks: how many inputs have arrived, and how many
      outputs it reports as finished, fewer than that if a transform is late.  (Runs that return earlier, since
      the kernel or an earlier chunk is not complete, leave everything as it is and come before all others.) */
  datatype Call = Call(endCount: nat, returned: nat)

  /** How many outputs are finished when call t begins. */
  function Begin(calls: seq<Call>, t: nat): nat
    requires t <= |calls|
  {
    if t == 0 then 0 else calls[t - 1].returned
  }

  /** How many inputs the calls before call t have read. */
  function Seen(calls: seq<Call>, t: nat): nat
    requires t <= |calls|
  {
    if t == 0 then 0 else calls[t - 1].endCount
  }

  ghost predicate LegalCall(calls: seq<Call>, n: nat, t: nat)
  {
    t < |calls| && Begin(calls, t) <= calls[t].returned <= calls[t].endCount <= n && Seen(calls, t) <= calls[t].endCount
  }

  ghost predicate Legal(calls: seq<Call>, n: nat) { forall t: nat :: t < |calls| ==> LegalCall(calls, n, t) }

  lemma {:induction false} BeginSeen(calls: seq<Call>, n: nat, s: nat, t: nat)
    requires Legal(calls, n) && s <= t <= |calls|
    ensures Begin(calls, s) <= Begin(calls, t) <= Seen(calls, t) <= n && Seen(calls, s) <= Seen(calls, t)
  {
    if t > 0 { assert LegalCall(calls, n, t - 1); }
    if s < t { BeginSeen(calls, n, s, t - 1); }
  }

  /** Call t begins with nothing finished, and finds a bad input in an earlier chunk: it starts over. */
  ghost predicate StartsOver(x: Chunk, calls: seq<Call>, t: nat)
    requires t <= |calls|
  {
    Begin(calls, t) == 0 && Latest(x) > 0
  }

  /** The first bad input among those that call t reads again, because the call before it stopped short. */
  function Reread(x: Chunk, calls: seq<Call>, t: nat): nat
    requires Legal(calls, |x.bad|) && t <= |calls|
  {
    BeginSeen(calls, |x.bad|, t, t);
    NextBad(x.bad, Begin(calls, t), Seen(calls, t))
  }

  /** Call t marks output i because nanEnd already stands behind a bad input that comes after i. */
  ghost predicate MarkedEarly(x: Chunk, calls: seq<Call>, t: nat, i: nat)
    requires Legal(calls, |x.bad|) && t <= |calls|
  {
    !StartsOver(x, calls, t) && Begin(calls, t) <= i < Reread(x, calls, t) < Seen(calls, t)
  }

  /** Output i is marked after the calls. */
  ghost predicate Marked(x: Chunk, calls: seq<Call>, i: nat)
    requires i < |x.bad| && Legal(calls, |x.bad|)
  {
    && i < Seen(calls, |calls|)
    && (|| i < NanEnd(x.bad, x.kernelSize, Scanned(x), 0, i + 1)
        || exists t: nat :: t < |calls| && MarkedEarly(x, calls, t, i))
  }

  function NanEndAfter(x: Chunk, calls: seq<Call>): nat
    requires Legal(calls, |x.bad|)
  {
    BeginSeen(calls, |x.bad|, |calls|, |calls|);
    var seen := Seen(calls, |calls|);
    if seen == 0 then InitialNanEnd(x.kernelSize, x.offset, x.backfillZeros)
    else NanEnd(x.bad, x.kernelSize, Scanned(x), 0, seen)
  }

  /** The assertions about nanEnd hold as far as call t reads inputs again. */
  ghost predicate RereadsSoundly(x: Chunk, calls: seq<Call>, t: nat)
    requires Legal(calls, |x.bad|) && t <= |calls|
  {
    BeginSeen(calls, |x.bad|, t, t);
    if StartsOver(x, calls, t) then Seen(calls, t) == 0
    else forall j :: Reread(x, calls, t) < j < Seen(calls, t) ==> !x.bad[j]
  }

  /** The first bad input of the chunk comes late enough after that of the earlier chunks. */
  ghost predicate FirstIsLate(x: Chunk, seen: nat)
    requires seen <= |x.bad|
  {
    Latest(x) > 0 ==> var f := NextBad(x.bad, 0, seen); f == seen || f + 1 >= Latest(x)
  }

  ghost predicate AssertionsHold(x: Chunk, calls: seq<Call>)
    requires Legal(calls, |x.bad|)
  {
    BeginSeen(calls, |x.bad|, |calls|, |calls|);
    FirstIsLate(x, Seen(calls, |calls|)) && forall t: nat :: t < |calls| ==> RereadsSoundly(x, calls, t)
  }

  /** Earlier calls are not affected by later ones. */
  lemma Extend(x: Chunk, calls: seq<Call>, call: Call)
    requires Legal(calls + [call], |x.bad|)
    ensures Legal(calls, |x.bad|)
    ensures forall t: nat :: t <= |calls| ==> Begin(calls + [call], t) == Begin(calls, t)
    ensures forall t: nat :: t <= |calls| ==> Seen(calls + [call], t) == Seen(calls, t)
    ensures forall t: nat :: t <= |calls| ==> Reread(x, calls + [call], t) == Reread(x, calls, t)
    ensures Seen(calls, |calls|) <= call.endCount <= |x.bad| && Begin(calls, |calls|) <= call.endCount
  {
    var more := calls + [call];
    forall t: nat | t < |calls|
      ensures LegalCall(calls, |x.bad|, t)
    {
      assert LegalCall(more, |x.bad|, t);
    }
    assert LegalCall(more, |x.bad|, |calls|);
  }

  /** nanEnd when the marking loop of the next call begins. */
  function Entry(x: Chunk, calls: seq<Call>): nat
    requires Legal(calls, |x.bad|)
  {
    if Begin(calls, |calls|) == 0 && Latest(x) > 0 then Scanned(x) else NanEndAfter(x, calls)
  }

  /** During the loop nanEnd is what reading everything once from the scanned start gives, except that
      until the reread bad input is met it still stands behind the last one. */
  lemma EntryGives(x: Chunk, calls: seq<Call>, i: nat)
    requires Legal(calls, |x.bad|) && Begin(calls, |calls|) <= i <= |x.bad|
    ensures var c, e, f := Begin(calls, |calls|), Seen(calls, |calls|), Reread(x, calls, |calls|);
            NanEnd(x.bad, x.kernelSize, Entry(x, calls), c, i) ==
              if !StartsOver(x, calls, |calls|) && i <= f < e then NanEndAfter(x, calls)
              else NanEnd(x.bad, x.kernelSize, Scanned(x), 0, i)
  {
    BeginSeen(calls, |x.bad|, |calls|, |calls|);
    var c, e, f := Begin(calls, |calls|), Seen(calls, |calls|), Reread(x, calls, |calls|);
    if !StartsOver(x, calls, |calls|) && e > 0 {
      if f < e && i <= f {
        NanEndStays(x.bad, x.kernelSize, Entry(x, calls), c, c, i);
      } else if f < e {
        NanEndBehind(x.bad, x.kernelSize, Entry(x, calls), c, f, i);
      } else {
        NanEndStays(x.bad, x.kernelSize, Scanned(x), 0, c, e);
        NanEndSplit(x.bad, x.kernelSize, Scanned(x), c, i);
      }
    }
  }

  /** What the loop of a call adds to the marks. */
  lemma LoopMarks(x: Chunk, calls: seq<Call>, k: nat)
    requires Legal(calls, |x.bad|) && Begin(calls, |calls|) <= k < |x.bad|
    ensures k < NanEnd(x.bad, x.kernelSize, Entry(x, calls), Begin(calls, |calls|), k + 1) <==>
            k < NanEnd(x.bad, x.kernelSize, Scanned(x), 0, k + 1) || MarkedEarly(x, calls, |calls|, k)
  {
    BeginSeen(calls, |x.bad|, |calls|, |calls|);
    EntryGives(x, calls, k + 1);
    if MarkedEarly(x, calls, |calls|, k) {
      NanEndBehind(x.bad, x.kernelSize, Scanned(x), 0, Reread(x, calls, |calls|), Seen(calls, |calls|));
    }
  }

  /** The marks after one more call. */
  lemma MarkedNext(x: Chunk, calls: seq<Call>, call: Call, k: nat)
    requires Legal(calls + [call], |x.bad|) && k < |x.bad| && Legal(calls, |x.bad|)
    ensures var c := Begin(calls, |calls|);
            Marked(x, calls + [call], k) <==>
              (c > 0 && Marked(x, calls, k)) ||
              (c <= k < call.endCount && k < NanEnd(x.bad, x.kernelSize, Entry(x, calls), c, k + 1))
  {
    hide NanEnd, NextBad, Latest, LatestBad;
    var more, c := calls + [call], Begin(calls, |calls|);
    Extend(x, calls, call);
    BeginSeen(calls, |x.bad|, |calls|, |calls|);
    forall t: nat | t <= |calls|
      ensures MarkedEarly(x, more, t, k) <==> MarkedEarly(x, calls, t, k)
      ensures t < |calls| && MarkedEarly(x, calls, t, k) ==> k < Seen(calls, |calls|)
    {
      BeginSeen(calls, |x.bad|, t, |calls|);
    }
    if c <= k {
      LoopMarks(x, calls, k);
      if c == 0 { EarlyAgain(x, calls, k); }
    }
  }

  /** Calls that begin with nothing finished clear the marks and make the same ones again. */
  lemma EarlyAgain(x: Chunk, calls: seq<Call>, k: nat)
    requires Legal(calls, |x.bad|) && Begin(calls, |calls|) == 0
    ensures (exists t: nat :: t < |calls| && MarkedEarly(x, calls, t, k)) ==> MarkedEarly(x, calls, |calls|, k)
  {
    if t: nat :| t < |calls| && MarkedEarly(x, calls, t, k) {
      BeginSeen(calls, |x.bad|, t, |calls|);
    }
  }

  /** What the assertion in the loop of a call demands. */
  ghost predicate LoopSound(x: Chunk, calls: seq<Call>, endCount: nat)
    requires Legal(calls, |x.bad|) && Begin(calls, |calls|) <= endCount <= |x.bad|
  {
    var c := Begin(calls, |calls|);
    forall j: nat :: c <= j < endCount && x.bad[j] ==>
      NanEnd(x.bad, x.kernelSize, Entry(x, calls), c, j) <= j + x.kernelSize
  }

  /** The assertion in the loop can only fail at the first bad input of the chunk, or at the first one reread. */
  lemma LoopSoundIff(x: Chunk, calls: seq<Call>, endCount: nat)
    requires Legal(calls, |x.bad|) && endCount <= |x.bad|
    requires Begin(calls, |calls|) <= endCount && Seen(calls, |calls|) <= endCount
    ensures FirstIsLate(x, Seen(calls, |calls|)) && (StartsOver(x, calls, |calls|) ==> Seen(calls, |calls|) == 0) ==>
            (LoopSound(x, calls, endCount) <==> FirstIsLate(x, endCount) && RereadsSoundly(x, calls, |calls|))
  {
    var c, e, f := Begin(calls, |calls|), Seen(calls, |calls|), Reread(x, calls, |calls|);
    BeginSeen(calls, |x.bad|, |calls|, |calls|);
    if FirstIsLate(x, e) && (StartsOver(x, calls, |calls|) ==> e == 0) {
      var first := NextBad(x.bad, 0, endCount);
      forall j: nat | c <= j < endCount && x.bad[j]
        ensures NanEnd(x.bad, x.kernelSize, Entry(x, calls), c, j) <= j + x.kernelSize <==>
                if j == f < e then RereadsSoundly(x, calls, |calls|) else j == first ==> FirstIsLate(x, endCount)
      {
        EntryGives(x, calls, j);
        if j == f < e {
          NanEndBehind(x.bad, x.kernelSize, Scanned(x), 0, f, e);
        } else if first < j {
          NanEndBehind(x.bad, x.kernelSize, Scanned(x), 0, first, j);
        } else {
          NanEndStays(x.bad, x.kernelSize, Scanned(x), 0, 0, j);
        }
      }
      SameFirst(x, e, endCount);
    }
  }

  lemma SameFirst(x: Chunk, e: nat, endCount: nat)
    requires e <= endCount <= |x.bad|
    ensures NextBad(x.bad, 0, e) < e ==> NextBad(x.bad, 0, endCount) == NextBad(x.bad, 0, e)
    ensures NextBad(x.bad, 0, e) == e ==> NextBad(x.bad, 0, endCount) >= e
  {
  }

  /** The assertions of one more call. */
  lemma SoundNext(x: Chunk, calls: seq<Call>, call: Call)
    requires Legal(calls + [call], |x.bad|) && Legal(calls, |x.bad|)
    requires Begin(calls, |calls|) < call.endCount <= |x.bad|
    ensures AssertionsHold(x, calls + [call]) <==>
              && AssertionsHold(x, calls)
              && (StartsOver(x, calls, |calls|) ==> NanEndAfter(x, calls) < Scanned(x))
              && LoopSound(x, calls, call.endCount)
  {
    var more, e := calls + [call], Seen(calls, |calls|);
    Extend(x, calls, call);
    BeginSeen(calls, |x.bad|, |calls|, |calls|);
    assert RereadsSoundly(x, more, |calls|) <==> RereadsSoundly(x, calls, |calls|);
    assert forall t: nat :: t < |calls| ==> (RereadsSoundly(x, more, t) <==> RereadsSoundly(x, calls, t));
    SameFirst(x, e, call.endCount);
    if FirstIsLate(x, e) {
      if StartsOver(x, calls, |calls|) && e > 0 {
        StartsOverOnce(x, e);
      } else {
        LoopSoundIff(x, calls, call.endCount);
      }
    }
  }

  /** Finding the bad input of the earlier chunks a second time fails an assertion. */
  lemma StartsOverOnce(x: Chunk, e: nat)
    requires e <= |x.bad| && Latest(x) > 0 && FirstIsLate(x, e)
    ensures NanEnd(x.bad, x.kernelSize, Scanned(x), 0, e) >= Scanned(x)
  {
    var f := NextBad(x.bad, 0, e);
    if f < e {
      NanEndBehind(x.bad, x.kernelSize, Scanned(x), 0, f, e);
    } else {
      NanEndStays(x.bad, x.kernelSize, Scanned(x), 0, 0, e);
    }
  }

  // ---------------------------------------------------------------- the code

  /** The backward scan over the earlier chunks, made while nothing of the chunk is finished. */
  method ScanPrior(prior: seq<bool>, kernelSize: KernelSize) returns (found: bool, newNanEnd: nat)
    ensures found <==> LatestBad(prior, kernelSize) > 0
    ensures found ==> newNanEnd == LatestBad(prior, kernelSize) + kernelSize - 1
  {
    var start := |prior|;
    var end := if start > kernelSize then start - kernelSize else 0;
    var i := start;
    while i > end
      invariant end <= i <= start
      invariant forall e :: 0 < e <= start - i ==> !BadAt(prior, e)
    {
      i := i - 1;
      assert BadAt(prior, start - i) <==> prior[i];
      if prior[i] {
        return true, start - i + kernelSize - 1;
      }
    }
    return false, 0;
  }

  /** What the computer of a chunk keeps from call to call. */
  class Marker {
    const x: Chunk
    const nan: array<bool>  // the outputs that are set to NAN
    var nanEnd: nat
    var held: bool          // no assertion about nanEnd has failed

    constructor (x: Chunk, nan: array<bool>)
      requires x.Valid() && nan.Length == |x.bad| && forall k :: 0 <= k < nan.Length ==> !nan[k]
      ensures this.x == x && this.nan == nan && After([])
    {
      this.x, this.nan, held := x, nan, true;
      nanEnd := InitialNanEnd(x.kernelSize, x.offset, x.backfillZeros);
    }

    /** The state is the one after the calls. */
    ghost predicate After(calls: seq<Call>)
      reads this, nan
    {
      && x.Valid() && nan.Length == |x.bad| && Legal(calls, |x.bad|)
      && nanEnd == NanEndAfter(x, calls)
      && (forall k: nat :: k < |x.bad| ==> (nan[k] <==> Marked(x, calls, k)))
      && (held <==> AssertionsHold(x, calls))
    }

    /** The part of a call that makes marks, up to the products of the chunk with itself. */
    method Mark(computedCount: nat, call: Call, ghost calls: seq<Call>)
      requires After(calls) && Legal(calls + [call], |x.bad|) && computedCount == Begin(calls, |calls|)
      modifies this, nan
      ensures After(calls + [call])
    {
      Extend(x, calls, call);
      forall k: nat | k < |x.bad| { MarkedNext(x, calls, call, k); }
      if call.endCount == computedCount {
        NothingNew(x, calls, call);
        return;
      }
      SoundNext(x, calls, call);
      EndNext(x, calls, call);
      if computedCount == 0 {
        var found, newNanEnd := ScanPrior(x.prior, x.kernelSize);
        if found {
          held := held && newNanEnd > nanEnd;
          nanEnd := newNanEnd;
        }
        Clear();
      }
      Loop(computedCount, call.endCount);
    }

    /** The sums are begun anew. */
    method Clear()
      modifies nan
      ensures forall k :: 0 <= k < nan.Length ==> !nan[k]
    {
      for k := 0 to nan.Length
        invariant forall j :: 0 <= j < k ==> !nan[j]
      {
        nan[k] := false;
      }
    }

    /** The marking loop. */
    method Loop(computedCount: nat, endCount: nat)
      requires computedCount <= endCount <= nan.Length && nan.Length == |x.bad|
      modifies this, nan
      ensures nanEnd == NanEnd(x.bad, x.kernelSize, old(nanEnd), computedCount, endCount)
      ensures forall k: nat :: k < nan.Length ==>
                (nan[k] <==> old(nan[k]) || (computedCount <= k < endCount &&
                             k < NanEnd(x.bad, x.kernelSize, old(nanEnd), computedCount, k + 1)))
      ensures held <==> old(held) && forall j: nat :: computedCount <= j < endCount && x.bad[j] ==>
                NanEnd(x.bad, x.kernelSize, old(nanEnd), computedCount, j) <= j + x.kernelSize
    {
      ghost var entry := nanEnd;
      for i := computedCount to endCount
        invariant nanEnd == NanEnd(x.bad, x.kernelSize, entry, computedCount, i)
        invariant forall k: nat :: k < nan.Length ==>
                    (nan[k] <==> old(nan[k]) || (computedCount <= k < i &&
                                 k < NanEnd(x.bad, x.kernelSize, entry, computedCount, k + 1)))
        invariant held <==> old(held) && forall j: nat :: computedCount <= j < i && x.bad[j] ==>
                    NanEnd(x.bad, x.kernelSize, entry, computedCount, j) <= j + x.kernelSize
      {
        if x.bad[i] {
          held := held && i + x.kernelSize >= nanEnd;
          nanEnd := i + x.kernelSize;
        }
        if i < nanEnd { nan[i] := true; }
      }
    }
  }

  /** A call for which nothing has arrived changes nothing. */
  lemma NothingNew(x: Chunk, calls: seq<Call>, call: Call)
    requires Legal(calls + [call], |x.bad|) && Legal(calls, |x.bad|)
    requires call.endCount == Begin(calls, |calls|)
    ensures NanEndAfter(x, calls + [call]) == NanEndAfter(x, calls)
    ensures AssertionsHold(x, calls + [call]) <==> AssertionsHold(x, calls)
    ensures forall k: nat :: k < |x.bad| ==> (Marked(x, calls + [call], k) <==> Marked(x, calls, k))
  {
    var more := calls + [call];
    Extend(x, calls, call);
    BeginSeen(calls, |x.bad|, |calls|, |calls|);
    assert forall t: nat :: t <= |calls| ==> (RereadsSoundly(x, more, t) <==> RereadsSoundly(x, calls, t));
    forall k: nat | k < |x.bad| { MarkedNext(x, calls, call, k); }
  }

  /** nanEnd after one more call. */
  lemma EndNext(x: Chunk, calls: seq<Call>, call: Call)
    requires Legal(calls + [call], |x.bad|) && Legal(calls, |x.bad|)
    requires Begin(calls, |calls|) < call.endCount <= |x.bad|
    ensures NanEndAfter(x, calls + [call]) ==
            NanEnd(x.bad, x.kernelSize, Entry(x, calls), Begin(calls, |calls|), call.endCount)
  {
    Extend(x, calls, call);
    BeginSeen(calls, |x.bad|, |calls|, |calls|);
    EntryGives(x, calls, call.endCount);
  }

  /** All calls of a chunk, one after the other. */
  method Run(x: Chunk, calls: seq<Call>) returns (nan: array<bool>, held: bool)
    requires x.Valid() && Legal(calls, |x.bad|)
    ensures nan.Length == |x.bad|
    ensures forall i: nat :: i < |x.bad| ==> (nan[i] <==> Marked(x, calls, i))
    ensures held <==> AssertionsHold(x, calls)
  {
    nan := new bool[|x.bad|](k => false);
    var marker := new Marker(x, nan);
    var computedCount := 0;
    for t := 0 to |calls|
      invariant fresh(marker) && fresh(nan) && marker.x == x && marker.nan == nan
      invariant marker.After(calls[..t]) && computedCount == Begin(calls[..t], t)
    {
      LegalPrefix(calls, |x.bad|, t + 1);
      assert calls[..t + 1] == calls[..t] + [calls[t]];
      marker.Mark(computedCount, calls[t], calls[..t]);
      computedCount := calls[t].returned;
    }
    assert calls[..|calls|] == calls;
    held := marker.held;
  }

  lemma LegalPrefix(calls: seq<Call>, n: nat, t: nat)
    requires Legal(calls, n) && t <= |calls|
    ensures Legal(calls[..t], n)
  {
    forall k: nat | k < t
      ensures LegalCall(calls[..t], n, k)
    {
      assert LegalCall(calls, n, k);
    }
  }

  // ---------------------------------------------------------------- which runs are right

  /** The finished outputs are marked if and only if they are spoilt. */
  ghost predicate MarksRight(x: Chunk, calls: seq<Call>)
    requires Legal(calls, |x.bad|)
  {
    forall i: nat :: i < |x.bad| && i < Begin(calls, |calls|) ==> (Marked(x, calls, i) <==> Spoilt(x, i))
  }

  /** The scan of the earlier chunks finds something, and reaches an output that is finished but not spoilt, before
      the first bad input of the chunk. */
  ghost predicate ScansTooFar(x: Chunk, done: nat)
  {
    Latest(x) > 0 && x.kernelSize - Latest(x) < done && x.kernelSize - Latest(x) < NextBad(x.bad, 0, |x.bad|)
  }

  /** Call t begins where the call before stopped short, though that one had read a bad input, with an output before
      that input which is finished by now and which nothing before it spoils. */
  ghost predicate RereadsWrongly(x: Chunk, calls: seq<Call>, t: nat, done: nat)
    requires Legal(calls, |x.bad|) && t <= |calls|
  {
    BeginSeen(calls, |x.bad|, t, t);
    var c, f := Begin(calls, t), Reread(x, calls, t);
    && !StartsOver(x, calls, t) && f < Seen(calls, t)
    && c < f && c < done && TrueEnd(x, c) < f && TrueEnd(x, c) < done
  }

  lemma ScansTooFarWrong(x: Chunk, calls: seq<Call>)
    requires x.Valid() && Legal(calls, |x.bad|) && ScansTooFar(x, Begin(calls, |calls|))
    ensures !MarksRight(x, calls)
  {
    BeginSeen(calls, |x.bad|, |calls|, |calls|);
    var i: nat := x.kernelSize - Latest(x);
    SpoiltIff(x, i);
    NanEndStays(x.bad, x.kernelSize, TrueStart(x), 0, 0, i + 1);
    NanEndStays(x.bad, x.kernelSize, Scanned(x), 0, 0, i + 1);
    assert Marked(x, calls, i) && !Spoilt(x, i);
  }

  lemma RereadsWrong(x: Chunk, calls: seq<Call>, t: nat)
    requires x.Valid() && Legal(calls, |x.bad|) && t < |calls|
    requires RereadsWrongly(x, calls, t, Begin(calls, |calls|))
    ensures !MarksRight(x, calls)
  {
    BeginSeen(calls, |x.bad|, t, |calls|);
    BeginSeen(calls, |x.bad|, |calls|, |calls|);
    var c := Begin(calls, t);
    var i := if TrueEnd(x, c) < c then c else TrueEnd(x, c);
    SpoiltIff(x, i);
    NanEndStays(x.bad, x.kernelSize, TrueStart(x), 0, c, i + 1);
    assert MarkedEarly(x, calls, t, i);
    assert Marked(x, calls, i) && !Spoilt(x, i);
  }

  lemma WrongMark(x: Chunk, calls: seq<Call>, i: nat)
    requires x.Valid() && Legal(calls, |x.bad|) && i < Begin(calls, |calls|) && i < |x.bad|
    requires Marked(x, calls, i) != Spoilt(x, i)
    ensures var done := Begin(calls, |calls|);
            ScansTooFar(x, done) || exists t: nat :: t < |calls| && RereadsWrongly(x, calls, t, done)
  {
    SpoiltIff(x, i);
    BeginSeen(calls, |x.bad|, |calls|, |calls|);
    if t: nat :| t < |calls| && MarkedEarly(x, calls, t, i) {
      BeginSeen(calls, |x.bad|, t, |calls|);
      NanEndStays(x.bad, x.kernelSize, TrueStart(x), 0, Begin(calls, t), i + 1);
      assert RereadsWrongly(x, calls, t, Begin(calls, |calls|));
    } else {
      var f := NextBad(x.bad, 0, i + 1);
      if f <= i {
        NanEndBehind(x.bad, x.kernelSize, TrueStart(x), 0, f, i + 1);
      } else {
        NanEndStays(x.bad, x.kernelSize, TrueStart(x), 0, 0, i + 1);
        NanEndStays(x.bad, x.kernelSize, Scanned(x), 0, 0, i + 1);
      }
    }
  }

  /** The marks are right unless the scan of the earlier chunks goes too far, or a call that follows one that stopped
      short reads a bad input once more: nanEnd stands behind that input from the beginning. */
  lemma MarksRightIff(x: Chunk, calls: seq<Call>)
    requires x.Valid() && Legal(calls, |x.bad|)
    ensures var done := Begin(calls, |calls|);
            MarksRight(x, calls) <==>
              !ScansTooFar(x, done) && forall t: nat :: t < |calls| ==> !RereadsWrongly(x, calls, t, done)
  {
    hide NanEnd, Spoilt, Marked, ScansTooFar, RereadsWrongly;
    var done := Begin(calls, |calls|);
    if ScansTooFar(x, done) { ScansTooFarWrong(x, calls); }
    if t: nat :| t < |calls| && RereadsWrongly(x, calls, t, done) { RereadsWrong(x, calls, t); }
    if !MarksRight(x, calls) {
      var i: nat :| i < |x.bad| && i < done && !(Marked(x, calls, i) <==> Spoilt(x, i));
      WrongMark(x, calls, i);
    }
  }

  /** If no call stops short, only the scan can go wrong, and only the first bad input can fail an assertion. */
  lemma WithoutStops(x: Chunk, calls: seq<Call>)
    requires x.Valid() && Legal(calls, |x.bad|)
    requires forall t :: 0 <= t < |calls| ==> calls[t].returned == calls[t].endCount
    ensures MarksRight(x, calls) <==> !ScansTooFar(x, Begin(calls, |calls|))
    ensures Begin(calls, |calls|) <= |x.bad| && (AssertionsHold(x, calls) <==> FirstIsLate(x, Begin(calls, |calls|)))
  {
    BeginSeen(calls, |x.bad|, |calls|, |calls|);
    MarksRightIff(x, calls);
    forall t: nat | t < |calls|
      ensures RereadsSoundly(x, calls, t) && !RereadsWrongly(x, calls, t, Begin(calls, |calls|))
    {
      BeginSeen(calls, |x.bad|, t, t);
      assert Begin(calls, t) == Seen(calls, t);
    }
  }

  /** An example: a kernel of two samples, a bad input right before the chunk, and two good ones in it.  Only the
      first output is spoilt, but both are marked, though no assertion fails. */
  lemma ScanFailsAt()
    ensures var x, calls := Chunk([true], [false, false], 2, 1, true), [Call(2, 2)];
            x.Valid() && Legal(calls, 2) && AssertionsHold(x, calls) && !MarksRight(x, calls)
  {
    var x, calls := Chunk([true], [false, false], 2, 1, true), [Call(2, 2)];
    assert BadAt(x.prior, 1) && Latest(x) == 1;
    assert NextBad(x.bad, 0, 2) == 2;
    ScansTooFarWrong(x, calls);
  }

  /** An example: nothing before the chunk, and a bad input at place 1.  The first call stops before output 0, the
      second one marks it, though it is not spoilt and no assertion fails. */
  lemma RereadFailsAt()
    ensures var x, calls := Chunk([], [false, true], 2, 0, true), [Call(2, 0), Call(2, 2)];
            x.Valid() && Legal(calls, 2) && AssertionsHold(x, calls) && !MarksRight(x, calls)
            && Marked(x, calls, 0) && !Spoilt(x, 0)
  {
    var x, calls := Chunk([], [false, true], 2, 0, true), [Call(2, 0), Call(2, 2)];
    assert LegalCall(calls, 2, 0) && LegalCall(calls, 2, 1);
    assert Latest(x) == 0 && Reread(x, calls, 1) == 1;
    assert MarkedEarly(x, calls, 1, 0);
    assert Marked(x, calls, 0) && !Spoilt(x, 0);
  }

  /** With two bad inputs a repeated call also fails the assertion about the order. */
  lemma AssertionFailsAt()
    ensures var x, calls := Chunk([], [true, true], 2, 0, true), [Call(2, 0), Call(2, 2)];
            x.Valid() && Legal(calls, 2) && MarksRight(x, calls) && !AssertionsHold(x, calls)
  {
    var x, calls := Chunk([], [true, true], 2, 0, true), [Call(2, 0), Call(2, 2)];
    assert LegalCall(calls, 2, 0) && LegalCall(calls, 2, 1);
    assert Latest(x) == 0 && Reread(x, calls, 1) == 0;
    assert Reread(x, calls, 1) < 1 < Seen(calls, 1) && x.bad[1];
    assert !RereadsSoundly(x, calls, 1);
    MarksRightIff(x, calls);
  }
}
