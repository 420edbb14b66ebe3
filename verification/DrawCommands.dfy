/** Draw commands and what they mean, for the draw list of src/imgui/imgui_draw.cpp. */
module DrawCommands {

  datatype Rect = Rect(x: real, y: real, z: real, w: real)

  predicate Ordered(r: Rect) { r.x <= r.z && r.y <= r.w }

  /** The part of a command that ImDrawCmd_HeaderCompare looks at. */
  datatype Header = Header(clip: Rect, texture: nat, vtxOffset: nat)

  datatype Hook = NoHook | Hook(id: nat)

  datatype Cmd = Cmd(header: Header, idxOffset: nat, elemCount: nat, callback: Hook)

  /** What a renderer does: draw one index under a header, or call the user. */
  datatype Mark = Index(header: Header) | Call(id: nat)

  function Last<T>(s: seq<T>): T
    requires s != []
  {
    s[|s| - 1]
  }

  function Init<T>(s: seq<T>): seq<T>
    requires s != []
  {
    s[..|s| - 1]
  }

  lemma InitLast<T>(s: seq<T>)
    requires s != []
    ensures s == Init(s) + [Last(s)]
  {
  }

  function Repeat<T>(x: T, n: nat): (r: seq<T>)
    ensures |r| == n && forall i :: 0 <= i < n ==> r[i] == x
  {
    seq(n, _ => x)
  }

  function MarksOf(c: Cmd): seq<Mark> {
    if c.callback.Hook? then [Call(c.callback.id)] else Repeat(Index(c.header), c.elemCount)
  }

  /** The commands spelt out, one mark per index and callback. */
  function Marks(cmds: seq<Cmd>): seq<Mark> {
    if cmds == [] then [] else Marks(Init(cmds)) + MarksOf(Last(cmds))
  }

  /** The header each position of the index buffer is drawn with. */
  function Headers(cmds: seq<Cmd>): seq<Header> {
    if cmds == [] then [] else Headers(Init(cmds)) + Repeat(Last(cmds).header, Last(cmds).elemCount)
  }

  /** The commands cover the index buffer [0, end) without gap or overlap, callbacks covering nothing. */
  predicate Tiles(cmds: seq<Cmd>, end: nat) {
    if cmds == [] then end == 0
    else
      var c := Last(cmds);
      && c.idxOffset + c.elemCount == end
      && (c.callback.Hook? ==> c.elemCount == 0)
      && Tiles(Init(cmds), c.idxOffset)
  }

  /** A command that draws or calls something. */
  predicate Busy(c: Cmd) { c.elemCount > 0 || c.callback.Hook? }

  ghost predicate AllBusy(cmds: seq<Cmd>) { forall i :: 0 <= i < |cmds| ==> Busy(cmds[i]) }

  /** No command could have continued the one before it. */
  ghost predicate Apart(cmds: seq<Cmd>) { forall i :: 0 < i < |cmds| ==> !Joins(cmds[i - 1], cmds[i]) }

  /** And all vertex offsets are below n. */
  ghost predicate ApartBelow(cmds: seq<Cmd>, n: nat) {
    Apart(cmds) && forall i :: 0 <= i < |cmds| ==> cmds[i].header.vtxOffset < n
  }

  /** Two commands that could be one. */
  predicate Joins(last: Cmd, next: Cmd) {
    last.header == next.header && last.callback == NoHook && next.callback == NoHook
  }

  /** The same for a renderer, which does not look at the header of a callback. */
  predicate SameCmd(a: Cmd, b: Cmd) {
    a.(header := b.header) == b && (a.callback == NoHook ==> a.header == b.header)
  }

  /** Commands that tile the buffer, all busy and none continuing another, are determined by what they draw: there
      is no other way to coalesce a stream. */
  lemma {:induction false} CoalescedOnce(a: seq<Cmd>, b: seq<Cmd>, end: nat)
    requires Tiles(a, end) && AllBusy(a) && Apart(a)
    requires Tiles(b, end) && AllBusy(b) && Apart(b)
    requires Marks(a) == Marks(b)
    ensures |a| == |b| && forall i :: 0 <= i < |a| ==> SameCmd(a[i], b[i])
  {
    hide Marks, Tiles;
    LastRun(a, end);
    LastRun(b, end);
    if a != [] && b != [] {
      var m := Marks(a);
      assert m[|m| - 1] == MarksOf(Last(a))[|MarksOf(Last(a))| - 1] == MarksOf(Last(b))[|MarksOf(Last(b))| - 1];
      if Last(a).callback == NoHook { RunLength(a, b, end); }
      assert |MarksOf(Last(a))| == |MarksOf(Last(b))| && SameCmd(Last(a), Last(b));
      assert Marks(Init(a)) == m[..|m| - |MarksOf(Last(a))|] == Marks(Init(b));
      CoalescedOnce(Init(a), Init(b), Last(a).idxOffset);
      forall i | 0 <= i < |a|
        ensures SameCmd(a[i], b[i])
      {
        if i < |a| - 1 { assert a[i] == Init(a)[i] && b[i] == Init(b)[i]; }
      }
    }
  }

  /** How the marks of coalesced commands end: with the run of the last one, and nothing like it before. */
  lemma LastRun(cmds: seq<Cmd>, end: nat)
    requires Tiles(cmds, end) && AllBusy(cmds) && Apart(cmds)
    ensures (cmds == [] <==> Marks(cmds) == []) && (cmds == [] ==> end == 0)
    ensures cmds != [] ==>
              var c, m, rest := Last(cmds), Marks(cmds), Marks(Init(cmds));
              && m == rest + MarksOf(c) && |MarksOf(c)| > 0
              && AllBusy(Init(cmds)) && Apart(Init(cmds)) && Tiles(Init(cmds), c.idxOffset)
              && c.idxOffset + c.elemCount == end && (c.callback.Hook? ==> c.elemCount == 0)
              && (c.callback == NoHook && rest != [] ==> rest[|rest| - 1] != Index(c.header))
  {
    if cmds != [] && |cmds| > 1 {
      var c, p := Last(cmds), Last(Init(cmds));
      assert p == cmds[|cmds| - 2] && c == cmds[|cmds| - 1] && !Joins(p, c) && Busy(p);
      var rest := Marks(Init(cmds));
      assert rest[|rest| - 1] == MarksOf(p)[|MarksOf(p)| - 1];
    }
  }

  /** Neither of two runs that end the same marks can be the longer one. */
  lemma RunLength(a: seq<Cmd>, b: seq<Cmd>, end: nat)
    requires Tiles(a, end) && AllBusy(a) && Apart(a) && Tiles(b, end) && AllBusy(b) && Apart(b)
    requires a != [] && b != [] && Marks(a) == Marks(b) && Last(a).callback == NoHook
    ensures Last(b).callback == NoHook && Last(b).header == Last(a).header && Last(b).elemCount == Last(a).elemCount
  {
    hide Marks, Tiles;
    LastRun(a, end);
    LastRun(b, end);
    var m, x := Marks(a), Index(Last(a).header);
    assert m[|m| - 1] == MarksOf(Last(a))[|MarksOf(Last(a))| - 1] == MarksOf(Last(b))[|MarksOf(Last(b))| - 1];
    NotLonger(Marks(Init(a)), Last(a).elemCount, Marks(Init(b)), Last(b).elemCount, x);
    NotLonger(Marks(Init(b)), Last(b).elemCount, Marks(Init(a)), Last(a).elemCount, x);
  }

  lemma NotLonger<T>(p: seq<T>, n: nat, q: seq<T>, k: nat, x: T)
    requires p + Repeat(x, n) == q + Repeat(x, k) && (q != [] ==> q[|q| - 1] != x)
    ensures n <= k
  {
    var m := p + Repeat(x, n);
    assert forall i :: |p| <= i < |m| ==> m[i] == x;
    if q != [] { assert m[|q| - 1] == q[|q| - 1]; }
  }

  lemma {:induction false} TilesHeaders(cmds: seq<Cmd>, end: nat)
    requires Tiles(cmds, end)
    ensures |Headers(cmds)| == end
  {
    if cmds != [] { TilesHeaders(Init(cmds), Last(cmds).idxOffset); }
  }

  /** Tiling spelt out: every command starts where the one before it ends. */
  lemma {:induction false} TilesIsPrefixSum(cmds: seq<Cmd>, end: nat, i: nat)
    requires Tiles(cmds, end) && i < |cmds|
    ensures cmds[i].idxOffset == if i == 0 then 0 else cmds[i - 1].idxOffset + cmds[i - 1].elemCount
    ensures cmds[i].idxOffset + cmds[i].elemCount <= end
  {
    if i < |cmds| - 1 {
      TilesIsPrefixSum(Init(cmds), Last(cmds).idxOffset, i);
      assert Init(cmds)[i] == cmds[i];
      if i > 0 { assert Init(cmds)[i - 1] == cmds[i - 1]; }
    } else if i > 0 {
      assert Last(Init(cmds)) == cmds[i - 1];
    }
  }

  lemma Snoc(cmds: seq<Cmd>, c: Cmd)
    ensures Init(cmds + [c]) == cmds && Last(cmds + [c]) == c
    ensures Marks(cmds + [c]) == Marks(cmds) + MarksOf(c)
    ensures Headers(cmds + [c]) == Headers(cmds) + Repeat(c.header, c.elemCount)
    ensures forall end: nat ::
              Tiles(cmds + [c], end) <==>
              end == c.idxOffset + c.elemCount && (c.callback.Hook? ==> c.elemCount == 0) && Tiles(cmds, c.idxOffset)
  {
    assert Init(cmds + [c]) == cmds;
  }

  /** Giving the last command n more indices. */
  lemma Extend(cmds: seq<Cmd>, n: nat)
    requires cmds != [] && Last(cmds).callback == NoHook
    ensures var c := Last(cmds);
            var more := Init(cmds) + [c.(elemCount := c.elemCount + n)];
            && Marks(more) == Marks(cmds) + Repeat(Index(c.header), n)
            && Headers(more) == Headers(cmds) + Repeat(c.header, n)
            && (forall end: nat :: Tiles(cmds, end) ==> Tiles(more, end + n))
  {
    hide Marks, Headers, Tiles;
    var c := Last(cmds);
    InitLast(cmds);
    Snoc(Init(cmds), c);
    Snoc(Init(cmds), c.(elemCount := c.elemCount + n));
    assert Repeat(c.header, c.elemCount + n) == Repeat(c.header, c.elemCount) + Repeat(c.header, n);
    var mark := Index(c.header);
    assert Repeat(mark, c.elemCount + n) == Repeat(mark, c.elemCount) + Repeat(mark, n);
  }

  /** Making a callback of a last command that draws nothing. */
  lemma HookLast(cmds: seq<Cmd>, id: nat)
    requires cmds != [] && Last(cmds).callback == NoHook && Last(cmds).elemCount == 0
    ensures var hooked := Init(cmds) + [Last(cmds).(callback := Hook(id))];
            && Marks(hooked) == Marks(cmds) + [Call(id)] && Headers(hooked) == Headers(cmds)
            && (forall end: nat :: Tiles(cmds, end) ==> Tiles(hooked, end))
  {
    hide Marks, Headers, Tiles;
    var c := Last(cmds);
    InitLast(cmds);
    Snoc(Init(cmds), c);
    Snoc(Init(cmds), c.(callback := Hook(id)));
  }

  /** A callback separates the commands around it. */
  lemma Hooked(before: seq<Cmd>, hook: Cmd, next: Cmd, n: nat)
    requires hook.callback.Hook?
    ensures AllBusy(before) ==> AllBusy(before + [hook])
    ensures ApartBelow(before, n) && hook.header.vtxOffset < n && next.header.vtxOffset < n ==>
              ApartBelow(before + [hook] + [next], n)
    ensures Init(before + [hook] + [next]) == before + [hook]
  {
  }

  lemma BusyInit(cmds: seq<Cmd>, n: nat)
    requires cmds != []
    ensures AllBusy(Init(cmds)) && Busy(Last(cmds)) ==> AllBusy(cmds)
    ensures ApartBelow(cmds, n) ==> ApartBelow(Init(cmds), n)
  {
  }

  lemma BusyTwice(cmds: seq<Cmd>, n: nat)
    requires |cmds| > 1
    ensures AllBusy(Init(cmds)) ==> AllBusy(Init(Init(cmds)))
    ensures ApartBelow(cmds, n) ==> !Joins(cmds[|cmds| - 2], Last(cmds))
  {
  }

  lemma ApartSnoc(before: seq<Cmd>, next: Cmd, n: nat)
    ensures ApartBelow(before, n) && (before != [] ==> !Joins(Last(before), next)) && next.header.vtxOffset < n ==>
              ApartBelow(before + [next], n)
  {
  }

  /** Taking n indices back from the last command. */
  lemma Shrink(cmds: seq<Cmd>, n: nat)
    requires cmds != [] && Last(cmds).callback == NoHook && n <= Last(cmds).elemCount
    ensures var c := Last(cmds);
            var less := Init(cmds) + [c.(elemCount := c.elemCount - n)];
            && Marks(cmds) == Marks(less) + Repeat(Index(c.header), n)
            && Headers(cmds) == Headers(less) + Repeat(c.header, n)
            && (forall end: nat :: Tiles(cmds, end) ==> n <= end && Tiles(less, end - n))
  {
    hide Marks, Headers, Tiles;
    var c := Last(cmds);
    InitLast(cmds);
    Snoc(Init(cmds), c);
    Snoc(Init(cmds), c.(elemCount := c.elemCount - n));
    assert Repeat(c.header, c.elemCount) == Repeat(c.header, c.elemCount - n) + Repeat(c.header, n);
    var mark := Index(c.header);
    assert Repeat(mark, c.elemCount) == Repeat(mark, c.elemCount - n) + Repeat(mark, n);
  }
}

/** What reaches the screen when draw commands are carried out: the events of src/imgui/imgui_draw.cpp. */
module DrawStreams {
  import opened DrawCommands

  /** What reaches the screen: an index value under a header, or a user callback. */
  datatype Event = DrawIndex(header: Header, index: nat) | Invoke(id: nat)

  function EventsOf(c: Cmd, idx: seq<nat>): (r: seq<Event>)
    requires c.idxOffset + c.elemCount <= |idx|
  {
    if c.callback.Hook? then [Invoke(c.callback.id)]
    else seq(c.elemCount, k requires 0 <= k < c.elemCount => DrawIndex(c.header, idx[c.idxOffset + k]))
  }

  /** A renderer: each command reads its own part of the index buffer. */
  function Stream(cmds: seq<Cmd>, idx: seq<nat>): seq<Event>
    requires forall i :: 0 <= i < |cmds| ==> cmds[i].idxOffset + cmds[i].elemCount <= |idx|
  {
    if cmds == [] then [] else Stream(Init(cmds), idx) + EventsOf(Last(cmds), idx)
  }

  /** The commands stay inside the index buffer. */
  predicate InRange(cmds: seq<Cmd>, idx: seq<nat>) {
    forall i :: 0 <= i < |cmds| ==> cmds[i].idxOffset + cmds[i].elemCount <= |idx|
  }

  lemma TilesInRange(cmds: seq<Cmd>, idx: seq<nat>)
    requires Tiles(cmds, |idx|)
    ensures InRange(cmds, idx)
  {
    forall i | 0 <= i < |cmds| ensures cmds[i].idxOffset + cmds[i].elemCount <= |idx| {
      TilesIsPrefixSum(cmds, |idx|, i);
    }
  }

  /** The marks with the index values filled in from the buffer, in order. */
  function Zip(marks: seq<Mark>, idx: seq<nat>): seq<Event> {
    if marks == [] then []
    else match Last(marks)
      case Call(id) => Zip(Init(marks), idx) + [Invoke(id)]
      case Index(h) => if idx == [] then [] else Zip(Init(marks), Init(idx)) + [DrawIndex(h, Last(idx))]
  }

  function Count(marks: seq<Mark>): nat {
    if marks == [] then 0 else Count(Init(marks)) + if Last(marks).Index? then 1 else 0
  }

  lemma {:induction false} ZipAppend(m: seq<Mark>, m': seq<Mark>, i: seq<nat>, i': seq<nat>)
    requires Count(m') == |i'|
    ensures Zip(m + m', i + i') == Zip(m, i) + Zip(m', i')
    decreases |m'|
  {
    if m' == [] {
      assert m + m' == m && i + i' == i;
    } else {
      assert Init(m + m') == m + Init(m');
      if Last(m').Index? {
        assert Init(i + i') == i + Init(i');
        ZipAppend(m, Init(m'), i, Init(i'));
      } else {
        ZipAppend(m, Init(m'), i, i');
      }
    }
  }

  lemma {:induction false} CountAppend(m: seq<Mark>, m': seq<Mark>)
    ensures Count(m + m') == Count(m) + Count(m')
    decreases |m'|
  {
    if m' == [] {
      assert m + m' == m;
    } else {
      assert Init(m + m') == m + Init(m');
      CountAppend(m, Init(m'));
    }
  }

  lemma {:induction false} ZipRun(c: Cmd, idx: seq<nat>, n: nat)
    requires c.callback == NoHook && c.elemCount == n && c.idxOffset + n == |idx|
    ensures Count(Repeat(Index(c.header), n)) == n
    ensures Zip(Repeat(Index(c.header), n), idx[c.idxOffset..]) == EventsOf(c, idx)
    decreases n
  {
    if n > 0 {
      var c', idx' := c.(elemCount := n - 1), Init(idx);
      ZipRun(c', idx', n - 1);
      assert Init(Repeat(Index(c.header), n)) == Repeat(Index(c.header), n - 1);
      assert Init(idx[c.idxOffset..]) == idx'[c.idxOffset..];
      assert EventsOf(c, idx) == EventsOf(c', idx') + [DrawIndex(c.header, Last(idx))];
    } else {
      assert idx[c.idxOffset..] == [];
    }
  }

  lemma {:induction false} StreamPrefix(cmds: seq<Cmd>, idx: seq<nat>, n: nat)
    requires n <= |idx| && InRange(cmds, idx[..n]) && InRange(cmds, idx)
    ensures Stream(cmds, idx) == Stream(cmds, idx[..n])
  {
    if cmds != [] {
      assert forall i :: 0 <= i < |Init(cmds)| ==> Init(cmds)[i] == cmds[i];
      StreamPrefix(Init(cmds), idx, n);
      assert EventsOf(Last(cmds), idx) == EventsOf(Last(cmds), idx[..n]);
    }
  }

  /** The last command's events, as marks with index values. */
  lemma ZipLast(c: Cmd, idx: seq<nat>, marks: seq<Mark>)
    requires c.idxOffset + c.elemCount == |idx| && (c.callback.Hook? ==> c.elemCount == 0)
    ensures Count(MarksOf(c)) == c.elemCount
    ensures Zip(marks + MarksOf(c), idx) == Zip(marks, idx[..c.idxOffset]) + EventsOf(c, idx)
  {
    var head, tail := idx[..c.idxOffset], idx[c.idxOffset..];
    assert idx == head + tail;
    if c.callback.Hook? {
      var one := [Call(c.callback.id)];
      assert tail == [] && Init(one) == [];
      assert Zip(one, tail) == Zip([], tail) + [Invoke(c.callback.id)];
    } else {
      ZipRun(c, idx, c.elemCount);
    }
    ZipAppend(marks, MarksOf(c), head, tail);
  }

  /** Commands that tile the buffer draw the marks, each with the next index value. */
  lemma {:induction false} StreamIsZip(cmds: seq<Cmd>, idx: seq<nat>)
    requires Tiles(cmds, |idx|)
    ensures InRange(cmds, idx)
    ensures Stream(cmds, idx) == Zip(Marks(cmds), idx)
    ensures Count(Marks(cmds)) == |idx|
  {
    hide Zip, Count;
    TilesInRange(cmds, idx);
    if cmds != [] {
      var c := Last(cmds);
      StreamIsZip(Init(cmds), idx[..c.idxOffset]);
      assert forall i :: 0 <= i < |Init(cmds)| ==> Init(cmds)[i] == cmds[i];
      StreamPrefix(Init(cmds), idx, c.idxOffset);
      ZipLast(c, idx, Marks(Init(cmds)));
      CountAppend(Marks(Init(cmds)), MarksOf(c));
    } else {
      ZipEmpty(idx);
    }
  }

  lemma ZipEmpty(idx: seq<nat>)
    ensures Zip([], idx) == [] && Count([]) == 0
  {
  }
}
