/** Slots kept in shared memory and mirrored in a GL buffer: src/graphics/splitbuffer.h. */
module SplitBuffers {
  import opened Intervals
  import opened GlBuffers
  import opened Sequences

  /** A slot that was created and not destroyed since. */
  ghost predicate Live(extent: nat, available: seq<nat>, i: nat) { i < extent && i !in available }

  ghost predicate Within(s: seq<nat>, extent: nat) { forall i :: 0 <= i < |s| ==> s[i] < extent }

  ghost function LiveSlots(extent: nat, available: seq<nat>): set<nat> {
    set i | 0 <= i < extent && i !in available
  }

  lemma {:induction false} AllLive(extent: nat)
    ensures |LiveSlots(extent, [])| == extent
  {
    if extent > 0 {
      AllLive(extent - 1);
      assert LiveSlots(extent, []) == LiveSlots(extent - 1, []) + {extent - 1};
    } else {
      assert LiveSlots(0, []) == {};
    }
  }

  /** getActiveSize counts the live slots. */
  lemma {:induction false} ActiveSizeCounts(extent: nat, available: seq<nat>)
    requires Distinct(available) && Within(available, extent)
    ensures |available| <= extent && |LiveSlots(extent, available)| == extent - |available|
  {
    if available == [] {
      AllLive(extent);
    } else {
      var k := |available| - 1;
      var rest, last := available[..k], available[k];
      assert Distinct(rest) && Within(rest, extent);
      ActiveSizeCounts(extent, rest);
      assert last !in rest;
      assert LiveSlots(extent, rest) == LiveSlots(extent, available) + {last} by {
        assert available == rest + [last];
      }
    }
  }

  /** The remote copy shows every live slot that is not flagged. */
  ghost predicate Mirrors<S>(memory: seq<S>, shared: seq<S>, available: seq<nat>, flags: seq<Interval>) {
    forall i: nat :: Live(|shared|, available, i) && !Covers(flags, i) ==> i < |memory| && memory[i] == shared[i]
  }

  /** The remote copy shows every live slot. */
  ghost predicate InSync<S>(memory: seq<S>, shared: seq<S>, available: seq<nat>) {
    forall i: nat :: Live(|shared|, available, i) ==> i < |memory| && memory[i] == shared[i]
  }

  /** Growing the buffer and sending the flags brings every live slot up to date. */
  lemma SyncMirrors<S>(was: seq<S>, grown: seq<S>, memory: seq<S>, shared: seq<S>, available: seq<nat>,
                       flags: seq<Interval>, maxGap: nat)
    requires Mirrors(was, shared, available, flags) && was <= grown && |grown| >= |shared|
    requires Flushed(memory, grown, shared, flags, maxGap)
    ensures InSync(memory, shared, available)
  {
    hide InGap, Covers;
  }

  /** What a sync does to the remote memory: it may grow, and takes over what is sent. */
  ghost predicate Synced<S(!new)>(was: seq<S>, memory: seq<S>, shared: seq<S>, flags: seq<Interval>, maxGap: nat) {
    exists grown: seq<S> :: was <= grown && |grown| >= |shared| && Flushed(memory, grown, shared, flags, maxGap)
  }

  /** A write to a live slot reaches the remote copy with the next sync if and only if the slot is sent then
      (it is flagged, or lies in a gap that is closed), or the remote copy has the value already. Otherwise the
      write is lost: a mutator is of no use after the sync that clears its flag. */
  lemma WriteIsSyncedIff<S(!new)>(was: seq<S>, memory: seq<S>, shared: seq<S>, available: seq<nat>,
                                  flags: seq<Interval>,
                                  maxGap: nat, index: nat, value: S)
    requires Mirrors(was, shared, available, flags) && Live(|shared|, available, index)
    requires Synced(was, memory, shared[index := value], flags, maxGap)
    ensures InSync(memory, shared[index := value], available) <==>
            Sent(flags, maxGap, index) || (index < |was| && was[index] == value)
  {
    var next := shared[index := value];
    var grown :| was <= grown && |grown| >= |next| && Flushed(memory, grown, next, flags, maxGap);
    hide Covers, InGap;
    assert Live(|next|, available, index);
    forall i: nat | Live(|next|, available, i) && i != index
      ensures i < |memory| && memory[i] == next[i]
    {
      assert Live(|shared|, available, i);
    }
    if !Sent(flags, maxGap, index) {
      assert index < |was| && memory[index] == grown[index] == was[index];
    }
  }

  class SplitBuffer<SharedType(0,!new), LocalType(0)> {
    var sharedData: seq<SharedType>
    var localData: seq<LocalType>
    var available: seq<nat>
    const remote: GlBuffer<SharedType>

    constructor (mergeElements: nat)
      ensures Valid() && fresh(remote) && fresh(remote.flags)
      ensures Contents() == map[] && available == [] && GetExtentSize() == 0
    {
      sharedData, localData, available := [], [], [];
      remote := new GlBuffer(mergeElements);
    }

    /** The slots, whatever the remote copy holds. */
    ghost predicate Orderly()
      reads this, remote, remote.flags
    {
      && |localData| == |sharedData|
      && Distinct(available) && Within(available, |sharedData|)
      && remote.Valid() && FlagsBelow(remote.flags.items, |sharedData|)
    }

    /** ... and the remote copy shows what is not flagged. */
    ghost predicate Valid()
      reads this, remote, remote.flags
    {
      Orderly() && Mirrors(remote.memory, sharedData, available, remote.flags.items)
    }

    /** The live slots and what is stored in them. */
    ghost function Contents(): map<nat, (SharedType, LocalType)>
      requires |localData| == |sharedData|
      reads this
    {
      map i | 0 <= i < |sharedData| && i !in available :: (sharedData[i], localData[i])
    }

    function GetExtentSize(): nat
      reads this
    {
      |sharedData|
    }

    function GetActiveSize(): (n: nat)
      requires Valid()
      reads this, remote, remote.flags
      ensures n == |Contents().Keys|
    {
      ActiveSizeCounts(|sharedData|, available);
      assert Contents().Keys == LiveSlots(|sharedData|, available);
      |sharedData| - |available|
    }

    /** A slot that is not live, the one freed last if there is one. It is flagged; nothing else changes. */
    method Create() returns (index: nat)
      requires Valid()
      modifies this, remote.flags
      ensures Valid()
      ensures index !in old(Contents()) && index in Contents()
      ensures Contents() - {index} == old(Contents())
      ensures if old(available) == [] then index == old(|sharedData|) && available == []
              else old(available) == available + [index]
      ensures GetExtentSize() == old(GetExtentSize()) + if old(available) == [] then 1 else 0
      ensures Covers(remote.flags.items, index)
    {
      hide Covers, Increasing;
      var shared: SharedType := *;
      var local: LocalType := *;
      if available == [] {
        index := |sharedData|;
        sharedData := sharedData + [shared];
        localData := localData + [local];
      } else {
        index := available[|available| - 1];
        available := available[..|available| - 1];
        sharedData := sharedData[index := shared];
        localData := localData[index := local];
      }
      Mutate(index);
    }

    /** Frees a live slot. */
    method Destroy(index: nat)
      requires Valid() && index in Contents()
      modifies this
      ensures Valid()
      ensures Contents() == old(Contents()) - {index} && available == old(available) + [index]
      ensures GetExtentSize() == old(GetExtentSize())
    {
      var shared: SharedType := *;   // what destruction leaves behind
      var local: LocalType := *;
      sharedData := sharedData[index := shared];
      localData := localData[index := local];
      available := available + [index];
    }

    /** Flags a slot, so that it may be written until the next sync. */
    method Mutate(index: nat)
      requires Orderly() && index < |sharedData|
      modifies remote.flags
      ensures Orderly() && (old(Valid()) ==> Valid())
      ensures forall x: nat :: Covers(remote.flags.items, x) <==> old(Covers(remote.flags.items, x)) || x == index
    {
      hide Covers, Increasing;
      remote.FlagIndex(index);
    }

    /** An assignment through the mutator of a slot. The promise of the mirror is kept while the slot is flagged. */
    method Write(index: nat, shared: SharedType, local: LocalType)
      requires Orderly() && index in Contents()
      modifies this
      ensures Orderly() && (old(Valid()) && Covers(remote.flags.items, index) ==> Valid())
      ensures Contents() == old(Contents())[index := (shared, local)] && available == old(available)
      ensures sharedData == old(sharedData)[index := shared]
    {
      sharedData := sharedData[index := shared];
      localData := localData[index := local];
    }

    /** Brings the remote copy up to date. */
    method Sync()
      requires Orderly() && |sharedData| * 3 / 2 < INDEX_RANGE
      modifies remote, remote.flags
      ensures Orderly() && remote.flags.items == []
      ensures Synced(old(remote.memory), remote.memory, sharedData, old(remote.flags.items), remote.mergeElements)
      ensures old(Valid()) ==> Valid() && InSync(remote.memory, sharedData, available)
      ensures old(Valid()) ==>
                forall i :: i in Contents() ==> i < |remote.memory| && remote.memory[i] == Contents()[i].0
    {
      ghost var was := remote.memory;
      ghost var flags := remote.flags.items;
      if remote.NeedsResize(GetExtentSize()) {
        remote.UpdateSize(GetExtentSize());
      }
      ghost var grown := remote.memory;
      remote.UpdateFlags(sharedData);
      if old(Valid()) {
        SyncMirrors(was, grown, remote.memory, sharedData, available, flags, remote.mergeElements);
      }
    }
  }

  // ---------------------------------------------------------------- any history

  datatype Op<S, L> = Create(shared: S, local: L) | Destroy(index: nat) | Write(index: nat, shared: S, local: L) | Sync

  /** The slots as the callers see them: which are free, and what is in the others. */
  datatype Frame<S, L> = Frame(extent: nat, free: seq<nat>, contents: map<nat, (S, L)>)

  predicate Legal<S, L>(f: Frame<S, L>, op: Op<S, L>) {
    match op
    case Create(_, _) => true
    case Destroy(i) => i in f.contents
    case Write(i, _, _) => i in f.contents
    case Sync => f.extent * 3 / 2 < INDEX_RANGE
  }

  function Apply<S, L>(f: Frame<S, L>, op: Op<S, L>): Frame<S, L> {
    match op
    case Create(s, l) =>
      if f.free == [] then Frame(f.extent + 1, [], f.contents[f.extent := (s, l)])
      else
        var k := |f.free| - 1;
        Frame(f.extent, f.free[..k], f.contents[f.free[k] := (s, l)])
    case Destroy(i) => Frame(f.extent, f.free + [i], f.contents - {i})
    case Write(i, s, l) => f.(contents := f.contents[i := (s, l)])
    case Sync => f
  }

  predicate LegalRun<S, L>(f: Frame<S, L>, ops: seq<Op<S, L>>)
    decreases |ops|
  {
    ops == [] || (Legal(f, ops[0]) && LegalRun(Apply(f, ops[0]), ops[1..]))
  }

  function Run<S, L>(f: Frame<S, L>, ops: seq<Op<S, L>>): Frame<S, L>
    decreases |ops|
  {
    if ops == [] then f else Run(Apply(f, ops[0]), ops[1..])
  }

  ghost function View<S(0,!new), L(0)>(buffer: SplitBuffer<S, L>): Frame<S, L>
    requires buffer.Orderly()
    reads buffer, buffer.remote, buffer.remote.flags
  {
    Frame(buffer.GetExtentSize(), buffer.available, buffer.Contents())
  }

  /** One step of a history: slots are written through a mutator that was asked for just before. */
  method Perform<S(0,!new), L(0)>(buffer: SplitBuffer<S, L>, op: Op<S, L>)
    requires buffer.Valid() && Legal(View(buffer), op)
    modifies buffer, buffer.remote, buffer.remote.flags
    ensures buffer.Valid() && View(buffer) == Apply(old(View(buffer)), op)
    ensures op.Sync? ==> InSync(buffer.remote.memory, buffer.sharedData, buffer.available)
  {
    hide Covers, Increasing, Mirrors, InSync, Synced;
    match op
    case Create(s, l) =>
      var index := buffer.Create();
      ghost var created := buffer.Contents();
      buffer.Write(index, s, l);
      assert created[index := (s, l)] == (created - {index})[index := (s, l)];
      if old(buffer.available) != [] {
        assert old(buffer.available)[..|old(buffer.available)| - 1] == buffer.available;
      }
    case Destroy(i) => buffer.Destroy(i);
    case Write(i, s, l) =>
      buffer.Mutate(i);
      buffer.Write(i, s, l);
    case Sync => buffer.Sync();
  }

  /** Any history of creations, writes, destructions and syncs: the live slots hold what was written last, and
      after every sync the remote copy equals them all. */
  method PerformAll<S(0,!new), L(0)>(mergeElements: nat, ops: seq<Op<S, L>>) returns (buffer: SplitBuffer<S, L>)
    requires LegalRun(Frame(0, [], map[]), ops)
    ensures buffer.Valid() && View(buffer) == Run(Frame(0, [], map[]), ops)
    ensures ops != [] && ops[|ops| - 1].Sync? ==>
              forall i :: i in Run(Frame(0, [], map[]), ops).contents ==>
                i < |buffer.remote.memory| && buffer.remote.memory[i] == Run(Frame(0, [], map[]), ops).contents[i].0
  {
    hide Mirrors, InSync, Legal, Apply;
    buffer := new SplitBuffer(mergeElements);
    for i := 0 to |ops|
      invariant fresh(buffer) && fresh(buffer.remote) && fresh(buffer.remote.flags) && buffer.Valid()
      invariant LegalRun(View(buffer), ops[i..]) && Run(View(buffer), ops[i..]) == Run(Frame(0, [], map[]), ops)
      invariant i > 0 && ops[i - 1].Sync? ==> InSync(buffer.remote.memory, buffer.sharedData, buffer.available)
    {
      assert ops[i..][0] == ops[i] && ops[i..][1..] == ops[i + 1..];
      Perform(buffer, ops[i]);
    }
    if ops != [] && ops[|ops| - 1].Sync? {
      InSyncMeans(buffer.remote.memory, buffer.sharedData, buffer.available);
    }
  }

  lemma InSyncMeans<S>(memory: seq<S>, shared: seq<S>, available: seq<nat>)
    requires InSync(memory, shared, available)
    ensures forall i: nat :: i < |shared| && i !in available ==> i < |memory| && memory[i] == shared[i]
  {
    forall i: nat | i < |shared| && i !in available
      ensures i < |memory| && memory[i] == shared[i]
    {
      assert Live(|shared|, available, i);
    }
  }

  /** A run in which a mutator is used once more after a sync: the write is lost, even after another sync. */
  method StaleWriteIsLost() returns (buffer: SplitBuffer<int, int>)
    ensures buffer.Orderly() && 0 in buffer.Contents() && buffer.Contents()[0].0 == 2
    ensures |buffer.remote.memory| > 0 && buffer.remote.memory[0] == 1
  {
    buffer := new SplitBuffer(0);
    var index := buffer.Create();
    buffer.Write(index, 1, 0);
    buffer.Sync();
    ghost var was, shared := buffer.remote.memory, buffer.sharedData;
    assert was[0] == 1;
    buffer.Write(index, 2, 0);
    buffer.Sync();
    NothingIsSent(was, buffer.remote.memory, buffer.sharedData, 0);
  }

  lemma NothingIsSent<S(!new)>(was: seq<S>, memory: seq<S>, shared: seq<S>, maxGap: nat)
    requires Synced(was, memory, shared, [], maxGap)
    ensures was <= memory
  {
    NothingSent(maxGap);
  }
}
