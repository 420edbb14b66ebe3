/** Drawing into several channels and merging them: ImDrawListSplitter of src/imgui/imgui_draw.cpp. */
module Splitting {
  import opened DrawCommands
  import opened DrawLists
  import opened DrawStreams

  datatype Channel = Channel(cmds: seq<Cmd>, idx: seq<nat>)

  const NoChannel := Channel([], [])

  /** A channel that is put aside: never used, or in the state drawing leaves behind. */
  ghost predicate Saved(ch: Channel) {
    && Tiles(ch.cmds, |ch.idx|)
    && (ch.cmds != [] ==> Last(ch.cmds).callback == NoHook && AllBusy(Init(ch.cmds)))
  }

  /** All channels one after the other. */
  ghost function Events(chs: seq<Channel>): seq<Event>
    requires forall i :: 0 <= i < |chs| ==> Tiles(chs[i].cmds, |chs[i].idx|)
  {
    if chs == [] then []
    else TilesInRange(Last(chs).cmds, Last(chs).idx); Events(Init(chs)) + Stream(Last(chs).cmds, Last(chs).idx)
  }

  // ----- Appending one channel -----

  lemma {:induction false} MarksAppend(a: seq<Cmd>, b: seq<Cmd>)
    ensures Marks(a + b) == Marks(a) + Marks(b)
    decreases |b|
  {
    hide Tiles, Headers;
    if b == [] {
      assert a + b == a;
    } else {
      hide Marks;
      InitLast(b);
      MarksAppend(a, Init(b));
      Snoc(Init(b), Last(b));
      Snoc(a + Init(b), Last(b));
      assert a + b == (a + Init(b)) + [Last(b)];
    }
  }

  /** Number of indices the commands draw. */
  function Total(cmds: seq<Cmd>): nat {
    if cmds == [] then 0 else Total(Init(cmds)) + Last(cmds).elemCount
  }

  /** The commands with their offsets corrected: the first starts at `start`. */
  function Shift(cmds: seq<Cmd>, start: nat): (r: seq<Cmd>)
    ensures |r| == |cmds|
  {
    if cmds == [] then []
    else Shift(Init(cmds), start) + [Last(cmds).(idxOffset := start + Total(Init(cmds)))]
  }

  /** Callbacks draw no indices. */
  ghost predicate Clean(cmds: seq<Cmd>) {
    forall i :: 0 <= i < |cmds| ==> cmds[i].callback.Hook? ==> cmds[i].elemCount == 0
  }

  lemma {:induction false} TilesTotal(cmds: seq<Cmd>, end: nat)
    requires Tiles(cmds, end)
    ensures Total(cmds) == end && Clean(cmds)
  {
    if cmds != [] {
      TilesTotal(Init(cmds), Last(cmds).idxOffset);
      assert forall i :: 0 <= i < |cmds| - 1 ==> cmds[i] == Init(cmds)[i];
    }
  }

  lemma ShiftLast(cmds: seq<Cmd>, start: nat)
    requires cmds != []
    ensures Shift(cmds, start) == Shift(Init(cmds), start) + [Last(cmds).(idxOffset := start + Total(Init(cmds)))]
    ensures Total(cmds) == Total(Init(cmds)) + Last(cmds).elemCount
    ensures Clean(cmds) ==> Clean(Init(cmds)) && (Last(cmds).callback.Hook? ==> Last(cmds).elemCount == 0)
  {
    assert forall i :: 0 <= i < |Init(cmds)| ==> Init(cmds)[i] == cmds[i];
  }

  lemma {:induction false} ShiftTiles(a: seq<Cmd>, start: nat, cmds: seq<Cmd>)
    requires Tiles(a, start) && Clean(cmds)
    ensures Tiles(a + Shift(cmds, start), start + Total(cmds))
    ensures Marks(Shift(cmds, start)) == Marks(cmds)
  {
    hide Tiles, Headers;
    if cmds == [] {
      assert a + [] == a;
    } else {
      hide Marks, Shift, Total, Clean;
      ShiftLast(cmds, start);
      ShiftTiles(a, start, Init(cmds));
      ShiftSnoc(a, start, cmds, Shift(Init(cmds), start));
    }
  }

  lemma ShiftSnoc(a: seq<Cmd>, start: nat, cmds: seq<Cmd>, r: seq<Cmd>)
    requires cmds != [] && Tiles(a + r, start + Total(Init(cmds))) && Marks(r) == Marks(Init(cmds))
    requires Last(cmds).callback.Hook? ==> Last(cmds).elemCount == 0
    ensures var c := Last(cmds).(idxOffset := start + Total(Init(cmds)));
            && Tiles(a + (r + [c]), start + Total(Init(cmds)) + c.elemCount)
            && Marks(r + [c]) == Marks(cmds)
  {
    hide Tiles, Headers, Marks, Total;
    var c := Last(cmds).(idxOffset := start + Total(Init(cmds)));
    InitLast(cmds);
    assert a + (r + [c]) == (a + r) + [c];
    Snoc(a + r, c);
    Snoc(r, c);
    Snoc(Init(cmds), Last(cmds));
  }

  lemma {:induction false} TotalAppend(a: seq<Cmd>, b: seq<Cmd>)
    ensures Total(a + b) == Total(a) + Total(b)
    decreases |b|
  {
    if b == [] {
      assert a + b == a;
    } else {
      assert Init(a + b) == a + Init(b);
      TotalAppend(a, Init(b));
    }
  }

  /** A channel's commands without the unused one at the end. */
  function Used(cmds: seq<Cmd>): seq<Cmd> {
    if cmds != [] && Last(cmds).elemCount == 0 then Init(cmds) else cmds
  }

  /** The merged commands with one more channel: its first command may continue the last one. */
  function Appended(acc: seq<Cmd>, start: nat, cmds: seq<Cmd>): seq<Cmd> {
    if acc != [] && cmds != [] && Joins(Last(acc), cmds[0])
    then Init(acc) + [Last(acc).(elemCount := Last(acc).elemCount + cmds[0].elemCount)]
         + Shift(cmds[1..], start + cmds[0].elemCount)
    else acc + Shift(cmds, start)
  }

  lemma UsedKeeps(ch: Channel)
    requires Saved(ch)
    ensures Marks(Used(ch.cmds)) == Marks(ch.cmds)
    ensures Total(Used(ch.cmds)) == |ch.idx| && Clean(Used(ch.cmds)) && AllBusy(Used(ch.cmds))
  {
    TilesTotal(ch.cmds, |ch.idx|);
    if ch.cmds != [] {
      assert forall i :: 0 <= i < |Init(ch.cmds)| ==> Init(ch.cmds)[i] == ch.cmds[i];
      if Last(ch.cmds).elemCount == 0 { assert MarksOf(Last(ch.cmds)) == []; }
    }
  }

  lemma AppendedMeans(acc: seq<Cmd>, start: nat, cmds: seq<Cmd>)
    requires Tiles(acc, start) && Clean(cmds)
    ensures Tiles(Appended(acc, start, cmds), start + Total(cmds))
    ensures Marks(Appended(acc, start, cmds)) == Marks(acc) + Marks(cmds)
  {
    hide Tiles, Marks, Headers;
    if acc != [] && cmds != [] && Joins(Last(acc), cmds[0]) {
      var first, rest := cmds[0], cmds[1..];
      var longer := Init(acc) + [Last(acc).(elemCount := Last(acc).elemCount + first.elemCount)];
      Extend(acc, first.elemCount);
      assert Clean(rest);
      ShiftTiles(longer, start + first.elemCount, rest);
      MarksAppend(longer, Shift(rest, start + first.elemCount));
      assert cmds == [first] + rest;
      MarksAppend([first], rest);
      OneMark(first);
      TotalAppend([first], rest);
    } else {
      ShiftTiles(acc, start, cmds);
      MarksAppend(acc, Shift(cmds, start));
    }
  }

  /** One command fewer exactly when the first one continues the last one before; and no idle ones come in. */
  lemma AppendedLength(acc: seq<Cmd>, start: nat, cmds: seq<Cmd>)
    ensures |Appended(acc, start, cmds)| == |acc| + |cmds| -
              if acc != [] && cmds != [] && acc[|acc| - 1].header == cmds[0].header &&
                 acc[|acc| - 1].callback == NoHook && cmds[0].callback == NoHook then 1 else 0
    ensures AllBusy(acc) && AllBusy(cmds) ==> AllBusy(Appended(acc, start, cmds))
  {
    ShiftBusy(cmds, start);
    if acc != [] && cmds != [] && Joins(Last(acc), cmds[0]) { ShiftBusy(cmds[1..], start + cmds[0].elemCount); }
  }

  lemma {:induction false} ShiftBusy(cmds: seq<Cmd>, start: nat)
    ensures AllBusy(cmds) ==> AllBusy(Shift(cmds, start))
  {
    if cmds != [] {
      ShiftBusy(Init(cmds), start);
      if AllBusy(cmds) { assert Busy(cmds[|cmds| - 1]); }
    }
  }

  lemma OneMark(c: Cmd)
    ensures Marks([c]) == MarksOf(c) && Total([c]) == c.elemCount
  {
    assert Init([c]) == [];
  }

  // ----- The buffers one after the other -----

  /** Command buffer k: the draw list's own is number 0. */
  function Buffer(own: seq<Cmd>, chs: seq<Channel>, k: nat): seq<Cmd>
    requires k == 0 || k < |chs|
  {
    if k == 0 then own else chs[k].cmds
  }

  function Flat(own: seq<Cmd>, chs: seq<Channel>, n: nat): seq<Cmd>
    requires n <= 1 || n <= |chs|
  {
    if n == 0 then [] else Flat(own, chs, n - 1) + Buffer(own, chs, n - 1)
  }

  lemma {:induction false} FlatFrame(own: seq<Cmd>, chs: seq<Channel>, own': seq<Cmd>, chs': seq<Channel>, n: nat)
    requires |chs| == |chs'| && (n <= 1 || n <= |chs|)
    requires forall k :: 0 <= k < n ==> Buffer(own, chs, k) == Buffer(own', chs', k)
    ensures Flat(own, chs, n) == Flat(own', chs', n)
  {
    if n > 0 { FlatFrame(own, chs, own', chs', n - 1); }
  }

  /** Buffer k holds the last command of the first n buffers. */
  ghost predicate HoldsLast(own: seq<Cmd>, chs: seq<Channel>, n: nat, k: nat)
    requires n <= 1 || n <= |chs|
  {
    && k < n && Buffer(own, chs, k) != []
    && forall j :: k < j < n ==> Buffer(own, chs, j) == []
  }

  lemma {:induction false} FlatLast(own: seq<Cmd>, chs: seq<Channel>, n: nat, k: nat)
    requires (n <= 1 || n <= |chs|) && HoldsLast(own, chs, n, k)
    ensures Flat(own, chs, n) == Flat(own, chs, k) + Buffer(own, chs, k)
    ensures Flat(own, chs, n) != [] && Last(Flat(own, chs, n)) == Last(Buffer(own, chs, k))
    ensures Init(Flat(own, chs, n)) == Flat(own, chs, k) + Init(Buffer(own, chs, k))
  {
    hide Buffer, Flat;
    FlatStep(own, chs, n - 1);
    if k < n - 1 {
      FlatLast(own, chs, n - 1, k);
      assert Flat(own, chs, n) == Flat(own, chs, n - 1);
    }
  }

  lemma FlatStep(own: seq<Cmd>, chs: seq<Channel>, n: nat)
    requires n == 0 || n < |chs|
    ensures Flat(own, chs, n + 1) == Flat(own, chs, n) + Buffer(own, chs, n)
  {
  }

  /** Overwriting the last command where it lives overwrites it in the whole. */
  lemma FlatReplaceLast(own: seq<Cmd>, chs: seq<Channel>, own': seq<Cmd>, chs': seq<Channel>, n: nat, k: nat, c: Cmd)
    requires |chs| == |chs'| && (n <= 1 || n <= |chs|) && HoldsLast(own, chs, n, k)
    requires Buffer(own', chs', k) == Init(Buffer(own, chs, k)) + [c]
    requires forall j :: 0 <= j < n && j != k ==> Buffer(own', chs', j) == Buffer(own, chs, j)
    ensures HoldsLast(own', chs', n, k) && Flat(own, chs, n) != []
    ensures Flat(own', chs', n) == Init(Flat(own, chs, n)) + [c]
  {
    hide Flat;
    FlatLast(own, chs, n, k);
    FlatLast(own', chs', n, k);
    FlatFrame(own, chs, own', chs', k);
    Assoc(Flat(own, chs, k), Init(Buffer(own, chs, k)), [c]);
  }

  lemma Assoc<T>(a: seq<T>, b: seq<T>, c: seq<T>)
    ensures a + b + c == a + (b + c)
  {
  }

  /** What all channels draw, in channel order. */
  ghost function AllMarks(chs: seq<Channel>): seq<Mark> {
    if chs == [] then [] else AllMarks(Init(chs)) + Marks(Last(chs).cmds)
  }

  ghost function AllIdx(chs: seq<Channel>): seq<nat> {
    if chs == [] then [] else AllIdx(Init(chs)) + Last(chs).idx
  }

  lemma {:induction false} AllCongruent(v: seq<Channel>, w: seq<Channel>)
    requires |v| == |w|
    requires forall i :: 0 <= i < |v| ==> Marks(v[i].cmds) == Marks(w[i].cmds) && v[i].idx == w[i].idx
    ensures AllMarks(v) == AllMarks(w) && AllIdx(v) == AllIdx(w)
  {
    hide Marks;
    if v != [] { AllCongruent(Init(v), Init(w)); }
  }

  lemma AllSnoc(v: seq<Channel>, n: nat)
    requires n < |v|
    ensures AllMarks(v[..n + 1]) == AllMarks(v[..n]) + Marks(v[n].cmds)
    ensures AllIdx(v[..n + 1]) == AllIdx(v[..n]) + v[n].idx
  {
    assert Init(v[..n + 1]) == v[..n] && Last(v[..n + 1]) == v[n];
  }

  lemma {:induction false} EventsAreZip(v: seq<Channel>)
    requires forall i :: 0 <= i < |v| ==> Tiles(v[i].cmds, |v[i].idx|)
    ensures Events(v) == Zip(AllMarks(v), AllIdx(v))
  {
    hide Zip, Marks, Tiles, Stream;
    if v == [] {
      ZipEmpty([]);
    } else {
      assert forall i :: 0 <= i < |Init(v)| ==> Init(v)[i] == v[i];
      EventsAreZip(Init(v));
      StreamIsZip(Last(v).cmds, Last(v).idx);
      ZipAppend(AllMarks(Init(v)), Marks(Last(v).cmds), AllIdx(Init(v)), Last(v).idx);
    }
  }

  // ----- The splitter -----

  class Splitter {
    var channels: seq<Channel>
    var current: nat
    var count: nat

    constructor ()
      ensures channels == [] && current == 0 && count == 1
    {
      channels, current, count := [], 0, 1;
    }

    /** While split: the draw list is channel `current`, the others are put aside. */
    ghost predicate Valid(dl: DrawList)
      reads this, dl
    {
      && dl.Valid()
      && current < count <= |channels|
      && forall i :: 0 <= i < count && i != current ==> Saved(channels[i])
    }

    /** The channels as they stand. */
    ghost function View(dl: DrawList): (v: seq<Channel>)
      requires Valid(dl)
      reads this, dl
      ensures |v| == count
      ensures forall i :: 0 <= i < count ==> Saved(v[i])
    {
      channels[..count][current := Channel(dl.cmdBuffer, dl.idxBuffer)]
    }

    method Split(dl: DrawList, channelsCount: nat)
      requires dl.Valid()
      requires current == 0 && count <= 1 && channelsCount >= 1
      modifies this
      ensures Valid(dl) && count == channelsCount && current == 0
      ensures forall i :: 1 <= i < count ==> channels[i] == NoChannel
    {
      var old' := |channels|;
      if old' < channelsCount {
        channels := channels + seq(channelsCount - old', _ => NoChannel);
      }
      count := channelsCount;
      channels := channels[0 := NoChannel];
      var i := 1;
      while i < channelsCount
        invariant 1 <= i <= channelsCount == count <= |channels|
        invariant forall k :: 1 <= k < i ==> channels[k] == NoChannel
        invariant current == 0
      {
        channels := channels[i := NoChannel];
        i := i + 1;
      }
    }

    /** Gives the list a last command that fits the current header. */
    static method Refresh(dl: DrawList)
      requires Tiles(dl.cmdBuffer, |dl.idxBuffer|)
      requires dl.cmdBuffer != [] ==> Last(dl.cmdBuffer).callback == NoHook && AllBusy(Init(dl.cmdBuffer))
      requires Ordered(dl.header.clip)
      modifies dl`cmdBuffer
      ensures dl.cmdBuffer != [] && AllBusy(Init(dl.cmdBuffer))
      ensures dl.cmdBuffer != [] && Last(dl.cmdBuffer).callback == NoHook && Last(dl.cmdBuffer).header == dl.header
      ensures Tiles(dl.cmdBuffer, |dl.idxBuffer|) && Marks(dl.cmdBuffer) == old(Marks(dl.cmdBuffer))
    {
      hide Marks, Tiles, Headers;
      Snoc(dl.cmdBuffer, Cmd(dl.header, |dl.idxBuffer|, 0, NoHook));
      if dl.cmdBuffer == [] {
        dl.AddDrawCmd();
      } else {
        var curr := Last(dl.cmdBuffer);
        if curr.elemCount == 0 {
          InitLast(dl.cmdBuffer);
          Snoc(Init(dl.cmdBuffer), curr);
          Snoc(Init(dl.cmdBuffer), curr.(header := dl.header));
          dl.cmdBuffer := Init(dl.cmdBuffer) + [curr.(header := dl.header)];
        } else if curr.header != dl.header {
          dl.AddDrawCmd();
        }
      }
    }

    method SetCurrentChannel(dl: DrawList, idx: nat)
      requires Valid(dl) && idx < count
      modifies this`channels, this`current, dl`cmdBuffer, dl`idxBuffer, dl`idxWrite, dl`open, dl`intended
      ensures Valid(dl) && count == old(count) && current == idx
      ensures forall i :: 0 <= i < count ==>
                Marks(View(dl)[i].cmds) == Marks(old(View(dl))[i].cmds) && View(dl)[i].idx == old(View(dl))[i].idx
      ensures if idx == old(current) then dl.Abs() == old(dl.Abs())
              else dl.open == 0 && dl.intended == map[] && dl.idxWrite == |dl.idxBuffer|
    {
      hide Marks, Tiles, Headers;
      if current == idx { return; }
      channels := channels[current := Channel(dl.cmdBuffer, dl.idxBuffer)];
      current := idx;
      dl.cmdBuffer, dl.idxBuffer := channels[idx].cmds, channels[idx].idx;
      dl.idxWrite := |dl.idxBuffer|;
      dl.open, dl.intended := 0, map[];
      Refresh(dl);
    }

    /** The inner loop of Merge over the commands of one channel. */
    static method CorrectOffsets(cmds: seq<Cmd>, start: nat) returns (r: seq<Cmd>, idxOffset: nat)
      ensures r == Shift(cmds, start) && idxOffset == start + Total(cmds)
    {
      r, idxOffset := cmds, start;
      var n := 0;
      while n < |cmds|
        invariant 0 <= n <= |cmds| == |r|
        invariant r == Shift(cmds[..n], start) + cmds[n..]
        invariant idxOffset == start + Total(cmds[..n])
      {
        assert Init(cmds[..n + 1]) == cmds[..n] && Last(cmds[..n + 1]) == cmds[n] == r[n];
        r := r[n := r[n].(idxOffset := idxOffset)];
        idxOffset := idxOffset + r[n].elemCount;
        n := n + 1;
      }
      assert cmds[..n] == cmds && cmds[n..] == [];
    }

    /** Writes through last_cmd, which points into buffer `last`. */
    method StoreLast(dl: DrawList, n: nat, last: nat, c: Cmd)
      requires n <= |channels| && n >= 1 && HoldsLast(dl.cmdBuffer, channels, n, last)
      modifies this`channels, dl`cmdBuffer
      ensures |channels| == old(|channels|)
      ensures forall i :: 0 <= i < |channels| ==> channels[i].idx == old(channels[i].idx)
      ensures forall i :: n <= i < |channels| ==> channels[i] == old(channels[i])
      ensures HoldsLast(dl.cmdBuffer, channels, n, last) && old(Flat(dl.cmdBuffer, channels, n)) != []
      ensures Flat(dl.cmdBuffer, channels, n) == Init(old(Flat(dl.cmdBuffer, channels, n))) + [c]
    {
      hide Flat;
      ghost var own, chs := dl.cmdBuffer, channels;
      if last == 0 {
        dl.cmdBuffer := Init(dl.cmdBuffer) + [c];
      } else {
        channels := channels[last := channels[last].(cmds := Init(channels[last].cmds) + [c])];
      }
      FlatReplaceLast(own, chs, dl.cmdBuffer, channels, n, last, c);
    }

    /** Where last_cmd points: -1 for null, else the buffer that holds the last command so far. */
    static ghost predicate PointsToLast(own: seq<Cmd>, chs: seq<Channel>, n: nat, last: int)
      requires n <= 1 || n <= |chs|
    {
      if last < 0 then Flat(own, chs, n) == [] else HoldsLast(own, chs, n, last)
    }

    /** Joins the first of `cmds` to the last command so far, if they fit together. */
    method JoinFirst(dl: DrawList, i: nat, last: int, idxOffset: nat, cmds: seq<Cmd>) returns (rest: seq<Cmd>, at: nat)
      requires 1 <= i < |channels| && PointsToLast(dl.cmdBuffer, channels, i, last)
      modifies this`channels, dl`cmdBuffer
      ensures |channels| == old(|channels|)
      ensures forall k :: 0 <= k < |channels| ==> channels[k].idx == old(channels[k].idx)
      ensures forall k :: i <= k < |channels| ==> channels[k] == old(channels[k])
      ensures PointsToLast(dl.cmdBuffer, channels, i, last)
      ensures Flat(dl.cmdBuffer, channels, i) + Shift(rest, at)
           == Appended(old(Flat(dl.cmdBuffer, channels, i)), idxOffset, cmds)
      ensures at + Total(rest) == idxOffset + Total(cmds)
    {
      hide Flat, Shift, Total;
      if cmds != [] && last >= 0 {
        FlatLast(dl.cmdBuffer, channels, i, last);
        var lastCmd := if last == 0 then Last(dl.cmdBuffer) else Last(channels[last].cmds);
        if Joins(lastCmd, cmds[0]) {
          StoreLast(dl, i, last, lastCmd.(elemCount := lastCmd.elemCount + cmds[0].elemCount));
          FirstTotal(cmds);
          return cmds[1..], idxOffset + cmds[0].elemCount;
        }
      }
      return cmds, idxOffset;
    }

    /** One round of the first loop of Merge. */
    method MergeChannel(dl: DrawList, i: nat, last: int, idxOffset: nat) returns (last': int, idxOffset': nat)
      requires 1 <= i < |channels| && PointsToLast(dl.cmdBuffer, channels, i, last)
      modifies this`channels, dl`cmdBuffer
      ensures |channels| == old(|channels|)
      ensures forall k :: 0 <= k < |channels| ==> channels[k].idx == old(channels[k].idx)
      ensures forall k :: i < k < |channels| ==> channels[k] == old(channels[k])
      ensures PointsToLast(dl.cmdBuffer, channels, i + 1, last')
      ensures Flat(dl.cmdBuffer, channels, i + 1)
           == Appended(old(Flat(dl.cmdBuffer, channels, i)), idxOffset, Used(old(channels[i].cmds)))
      ensures var acc, cmds := old(Flat(dl.cmdBuffer, channels, i)), Used(old(channels[i].cmds));
              |Flat(dl.cmdBuffer, channels, i + 1)| == |acc| + |cmds| -
                if acc != [] && cmds != [] && acc[|acc| - 1].header == cmds[0].header &&
                   acc[|acc| - 1].callback == NoHook && cmds[0].callback == NoHook then 1 else 0
      ensures idxOffset' == idxOffset + Total(Used(old(channels[i].cmds)))
    {
      hide Flat, Shift, Total, Appended, PointsToLast;
      var cmds := channels[i].cmds;
      if cmds != [] && Last(cmds).elemCount == 0 {
        cmds := Init(cmds);
      }
      AppendedLength(Flat(dl.cmdBuffer, channels, i), idxOffset, cmds);
      var rest, at := JoinFirst(dl, i, last, idxOffset, cmds);
      last' := if rest != [] then i else last;
      ghost var chs := channels;
      var shifted;
      shifted, idxOffset' := CorrectOffsets(rest, at);
      ShiftLength(rest, at);
      channels := channels[i := channels[i].(cmds := shifted)];
      FlatNext(dl.cmdBuffer, chs, channels, i, last, last');
    }

    /** The first loop of Merge, over all channels after the first. */
    method MergeChannels(dl: DrawList, ghost v: seq<Channel>)
      requires 1 <= count <= |channels| && |v| == count
      requires Tiles(dl.cmdBuffer, |dl.idxBuffer|)
      requires Marks(dl.cmdBuffer) == Marks(v[0].cmds) && dl.idxBuffer == v[0].idx
      requires AllBusy(dl.cmdBuffer) && forall i :: 1 <= i < count ==> Saved(v[i]) && channels[i] == v[i]
      modifies this`channels, dl`cmdBuffer
      ensures |channels| == old(|channels|)
      ensures forall i :: 1 <= i < count ==> channels[i].idx == v[i].idx
      ensures AllBusy(Flat(dl.cmdBuffer, channels, count))
      ensures Tiles(Flat(dl.cmdBuffer, channels, count), |AllIdx(v)|)
      ensures Marks(Flat(dl.cmdBuffer, channels, count)) == AllMarks(v)
    {
      hide Tiles, Marks, Headers, Appended, Used, Flat, PointsToLast, AllBusy;
      FirstOfAll(v, dl.cmdBuffer, channels);
      var last := if dl.cmdBuffer != [] then 0 else -1;
      var idxOffset := if dl.cmdBuffer != [] then Last(dl.cmdBuffer).idxOffset + Last(dl.cmdBuffer).elemCount else 0;
      StartOffset(dl.cmdBuffer, |dl.idxBuffer|);
      var i: nat := 1;
      while i < count
        invariant 1 <= i <= count == |v| && |channels| == old(|channels|)
        invariant PointsToLast(dl.cmdBuffer, channels, i, last)
        invariant idxOffset == |AllIdx(v[..i])|
        invariant Tiles(Flat(dl.cmdBuffer, channels, i), idxOffset)
        invariant Marks(Flat(dl.cmdBuffer, channels, i)) == AllMarks(v[..i])
        invariant AllBusy(Flat(dl.cmdBuffer, channels, i))
        invariant forall k :: 1 <= k < count ==> channels[k].idx == v[k].idx
        invariant forall k :: i <= k < count ==> channels[k] == v[k]
      {
        MergedSoFar(Flat(dl.cmdBuffer, channels, i), v, i);
        last, idxOffset := MergeChannel(dl, i, last, idxOffset);
        i := i + 1;
      }
      assert v[..i] == v;
    }

    /** The second loop of Merge: copies everything into the draw list. */
    method CopyChannels(dl: DrawList)
      requires 1 <= count <= |channels|
      modifies dl`cmdBuffer, dl`idxBuffer
      ensures dl.cmdBuffer == Flat(old(dl.cmdBuffer), channels, count)
      ensures dl.idxBuffer == AllIdx([Channel([], old(dl.idxBuffer))] + channels[1..count])
    {
      hide Flat, AllIdx, AllMarks;
      ghost var all := [Channel([], dl.idxBuffer)] + channels[1..count];
      FirstIdx(all);
      FlatOne(dl.cmdBuffer, channels);
      var i := 1;
      while i < count
        invariant 1 <= i <= count
        invariant dl.cmdBuffer == Flat(old(dl.cmdBuffer), channels, i)
        invariant dl.idxBuffer == AllIdx(all[..i])
      {
        AllSnoc(all, i);
        FlatSnoc(old(dl.cmdBuffer), channels, i);
        assert all[i] == channels[i];
        dl.cmdBuffer := dl.cmdBuffer + channels[i].cmds;
        dl.idxBuffer := dl.idxBuffer + channels[i].idx;
        i := i + 1;
      }
      assert all[..i] == all;
    }

    /** Merge up to the point where all channels are in the draw list. */
    method MergeBuffers(dl: DrawList)
      requires Valid(dl)
      modifies this, dl`cmdBuffer, dl`idxBuffer, dl`idxWrite, dl`open, dl`intended
      ensures current == 0
      ensures Tiles(dl.cmdBuffer, |dl.idxBuffer|) && AllBusy(dl.cmdBuffer)
      ensures Marks(dl.cmdBuffer) == AllMarks(old(View(dl))) && dl.idxBuffer == AllIdx(old(View(dl)))
    {
      hide Tiles, Marks, Headers, Flat, AllMarks, AllIdx;
      ghost var v0 := View(dl);
      SetCurrentChannel(dl, 0);
      ghost var v := View(dl);
      AllCongruent(v0, v);
      dl.PopUnusedDrawCmd();
      MergeChannels(dl, v);
      IdxOnly([Channel([], dl.idxBuffer)] + channels[1..count], v);
      CopyChannels(dl);
    }

    /** The end of Merge: a command that is no callback and carries the current header comes last. */
    method EnsureLast(dl: DrawList)
      requires Tiles(dl.cmdBuffer, |dl.idxBuffer|) && AllBusy(dl.cmdBuffer)
      requires Ordered(dl.header.clip) && Ordered(dl.setup.fullscreen)
      requires forall i :: 0 <= i < |dl.clipStack| ==> Ordered(dl.clipStack[i])
      modifies dl`cmdBuffer, dl`idxWrite, dl`open, dl`intended
      ensures dl.Valid() && Marks(dl.cmdBuffer) == old(Marks(dl.cmdBuffer))
    {
      hide Tiles, Marks, Headers;
      dl.idxWrite := |dl.idxBuffer|;
      dl.open, dl.intended := 0, map[];
      if dl.cmdBuffer == [] || Last(dl.cmdBuffer).callback != NoHook {
        Snoc(dl.cmdBuffer, Cmd(dl.header, |dl.idxBuffer|, 0, NoHook));
        dl.AddDrawCmd();
      }
      Refresh(dl);
    }

    /** Merge: afterwards the draw list draws what the channels drew, in channel order, and is ready
        for further drawing under the current header. */
    method Merge(dl: DrawList)
      requires count > 1 ==> Valid(dl)
      modifies this, dl`cmdBuffer, dl`idxBuffer, dl`idxWrite, dl`open, dl`intended
      ensures old(count) > 1 ==> dl.Valid() && count == 1 && current == 0
      ensures old(count) > 1 ==>
                && InRange(dl.cmdBuffer, dl.idxBuffer) && AllBusy(Init(dl.cmdBuffer))
                && Stream(dl.cmdBuffer, dl.idxBuffer) == Events(old(View(dl)))
      ensures old(count) <= 1 ==> dl.cmdBuffer == old(dl.cmdBuffer) && dl.idxBuffer == old(dl.idxBuffer)
    {
      hide Tiles, Marks, Headers, Zip, Stream, Events, AllMarks, AllIdx;
      if count <= 1 { return; }
      EventsAreZip(View(dl));
      MergeBuffers(dl);
      EnsureLast(dl);
      count := 1;
      StreamIsZip(dl.cmdBuffer, dl.idxBuffer);
    }
  }

  lemma {:induction false} IdxOnly(v: seq<Channel>, w: seq<Channel>)
    requires |v| == |w|
    requires forall i :: 0 <= i < |v| ==> v[i].idx == w[i].idx
    ensures AllIdx(v) == AllIdx(w)
  {
    if v != [] { IdxOnly(Init(v), Init(w)); }
  }

  lemma FlatOne(own: seq<Cmd>, chs: seq<Channel>)
    ensures Flat(own, chs, 1) == own
  {
    assert Flat(own, chs, 0) == [];
  }

  lemma FlatSnoc(own: seq<Cmd>, chs: seq<Channel>, n: nat)
    requires 1 <= n < |chs|
    ensures Flat(own, chs, n + 1) == Flat(own, chs, n) + chs[n].cmds
  {
  }

  lemma FirstIdx(all: seq<Channel>)
    requires all != []
    ensures AllIdx(all[..1]) == all[0].idx
  {
    assert Init(all[..1]) == [];
  }

  lemma FirstOfAll(v: seq<Channel>, own: seq<Cmd>, chs: seq<Channel>)
    requires v != []
    ensures AllIdx(v[..1]) == v[0].idx && AllMarks(v[..1]) == Marks(v[0].cmds)
    ensures Flat(own, chs, 1) == own
    ensures Splitter.PointsToLast(own, chs, 1, if own != [] then 0 else -1)
  {
    assert Init(v[..1]) == [];
    assert Flat(own, chs, 0) == [];
  }

  lemma StartOffset(cmds: seq<Cmd>, end: nat)
    requires Tiles(cmds, end)
    ensures end == if cmds != [] then Last(cmds).idxOffset + Last(cmds).elemCount else 0
  {
  }

  lemma MergedSoFar(acc: seq<Cmd>, v: seq<Channel>, i: nat)
    requires i < |v| && Saved(v[i])
    requires Tiles(acc, |AllIdx(v[..i])|) && Marks(acc) == AllMarks(v[..i])
    ensures |AllIdx(v[..i])| + Total(Used(v[i].cmds)) == |AllIdx(v[..i + 1])|
    ensures Tiles(Appended(acc, |AllIdx(v[..i])|, Used(v[i].cmds)), |AllIdx(v[..i + 1])|)
    ensures Marks(Appended(acc, |AllIdx(v[..i])|, Used(v[i].cmds))) == AllMarks(v[..i + 1])
    ensures AllBusy(acc) ==> AllBusy(Appended(acc, |AllIdx(v[..i])|, Used(v[i].cmds)))
  {
    hide Tiles, Marks, Appended, Used, AllBusy;
    UsedKeeps(v[i]);
    AppendedLength(acc, |AllIdx(v[..i])|, Used(v[i].cmds));
    AppendedMeans(acc, |AllIdx(v[..i])|, Used(v[i].cmds));
    AllSnoc(v, i);
  }

  lemma ShiftLength(cmds: seq<Cmd>, start: nat)
    ensures |Shift(cmds, start)| == |cmds|
  {
  }

  lemma FirstTotal(cmds: seq<Cmd>)
    requires cmds != []
    ensures Total(cmds) == cmds[0].elemCount + Total(cmds[1..])
  {
    assert cmds == [cmds[0]] + cmds[1..];
    TotalAppend([cmds[0]], cmds[1..]);
    OneMark(cmds[0]);
  }

  /** Moving on past channel i after its commands were replaced. */
  lemma FlatNext(own: seq<Cmd>, chs: seq<Channel>, chs': seq<Channel>, i: nat, last: int, last': int)
    requires 1 <= i < |chs| == |chs'|
    requires forall k :: 0 <= k < i ==> chs'[k] == chs[k]
    requires Splitter.PointsToLast(own, chs, i, last)
    requires last' == if chs'[i].cmds != [] then i else last
    ensures Flat(own, chs', i + 1) == Flat(own, chs, i) + chs'[i].cmds
    ensures Splitter.PointsToLast(own, chs', i + 1, last')
  {
    FlatFrame(own, chs, own, chs', i);
  }
}
