/** ImDrawList: a command buffer that is coalesced as it grows. */
module DrawLists {
  import opened DrawCommands
  import opened PlainList

  /** Every index that was written names the vertex it was meant for: the vertex offset its command draws
      with, plus the 16-bit index. */
  ghost predicate NamesIntended(headers: seq<Header>, idx: seq<nat>, intended: map<nat, int>) {
    && |headers| == |idx|
    && forall j :: j in intended ==> j < |idx| && idx[j] < INDEX_RANGE && headers[j].vtxOffset + idx[j] == intended[j]
  }

  /** The indices still to be written are drawn with the current vertex offset. */
  ghost predicate OpenRange(headers: seq<Header>, from: nat, vtxOffset: nat) {
    forall j :: from <= j < |headers| ==> headers[j].vtxOffset == vtxOffset
  }

  /** The indices written so far are right, and _VtxCurrentIdx is right for those to come. */
  ghost predicate Named(f: Frame, headers: seq<Header>, idx: seq<nat>) {
    && f.header.vtxOffset + f.vtxCurrent == f.vtxBase <= f.vtxCount
    && f.vtxCurrent + (f.vtxCount - f.vtxBase) < INDEX_RANGE
    && f.idxCount == |idx|
    && NamesIntended(headers, idx, f.intended)
    && OpenRange(headers, f.idxWritten, f.header.vtxOffset)
  }

  /** What an operation does to the index buffer, and to the headers it is drawn with. */
  ghost predicate IdxEffect(f: Frame, g: Frame, op: Op, headers: seq<Header>, idx: seq<nat>, headers': seq<Header>,
                            idx': seq<nat>) {
    match op
    case Reserve(n, _) => headers' == headers + Repeat(g.header, n) && idx <= idx' && |idx'| == |idx| + n
    case Unreserve(n, _) => n <= |idx| == |headers| && headers' == headers[..|idx| - n] && idx' == idx[..|idx| - n]
    case WriteIdx(k) =>
      && headers' == headers && f.idxWritten < |idx| && f.vtxCurrent + k >= 0
      && idx' == idx[f.idxWritten := (f.vtxCurrent + k) % INDEX_RANGE]
    case WriteRect =>
      && headers' == headers && f.idxWritten + 6 <= |idx|
      && idx' == idx[..f.idxWritten] + RectIndices(f.vtxCurrent) + idx[f.idxWritten + 6..]
    case _ => headers' == headers && idx' == idx
  }

  /** The six indices of a rectangle whose first vertex has index `first` in the current range. */
  function RectIndices(first: nat): (r: seq<nat>)
    ensures |r| == 6
  {
    var idx := first % INDEX_RANGE;
    [idx, (idx + 1) % INDEX_RANGE, (idx + 2) % INDEX_RANGE, idx, (idx + 2) % INDEX_RANGE, (idx + 3) % INDEX_RANGE]
  }

  /** Every tidy step keeps all written indices right. */
  lemma NamedStep(f: Frame, s: Setup, op: Op, headers: seq<Header>, idx: seq<nat>, headers': seq<Header>,
                  idx': seq<nat>)
    requires Legal(f, op) && Tidy(f, s, op) && Named(f, headers, idx)
    requires IdxEffect(f, Apply(f, s, op), op, headers, idx, headers', idx')
    ensures Named(Apply(f, s, op), headers', idx')
  {
    match op
    case WriteRect => RectNames(f, s, headers, idx);
    case _ =>
  }

  lemma RectNames(f: Frame, s: Setup, headers: seq<Header>, idx: seq<nat>)
    requires Legal(f, WriteRect) && Tidy(f, s, WriteRect) && Named(f, headers, idx)
    ensures Named(Apply(f, s, WriteRect), headers,
                  idx[..f.idxWritten] + RectIndices(f.vtxCurrent) + idx[f.idxWritten + 6..])
  {
    var g := Apply(f, s, WriteRect);
    var now := idx[..f.idxWritten] + RectIndices(f.vtxCurrent) + idx[f.idxWritten + 6..];
    forall j | j in g.intended
      ensures j < |now| && now[j] < INDEX_RANGE && headers[j].vtxOffset + now[j] == g.intended[j]
    {
      RectNamesAt(f, headers, idx, j);
    }
  }

  lemma RectNamesAt(f: Frame, headers: seq<Header>, idx: seq<nat>, j: nat)
    requires Legal(f, WriteRect) && f.vtxBase == f.vtxWritten && Named(f, headers, idx)
    requires j in Placed(f.intended, f.idxWritten, RectCorners(f.vtxWritten))
    ensures var now := idx[..f.idxWritten] + RectIndices(f.vtxCurrent) + idx[f.idxWritten + 6..];
            && j < |now| && now[j] < INDEX_RANGE
            && headers[j].vtxOffset + now[j] == Placed(f.intended, f.idxWritten, RectCorners(f.vtxWritten))[j]
  {
    hide RectIndices, RectCorners, Placed;
    var w := f.idxWritten;
    var now := idx[..w] + RectIndices(f.vtxCurrent) + idx[w + 6..];
    PlacedAt(f.intended, w, RectCorners(f.vtxWritten), j);
    if w <= j < w + 6 {
      SixNamed(f.vtxCurrent, f.header.vtxOffset, j - w);
      assert now[j] == RectIndices(f.vtxCurrent)[j - w];
    } else {
      assert now[j] == idx[j];
    }
  }

  lemma PlacedAt(m: map<nat, int>, w: nat, v: seq<nat>, j: nat)
    requires |v| == 6
    ensures j in Placed(m, w, v) <==> j in m || w <= j < w + 6
    ensures w <= j < w + 6 ==> Placed(m, w, v)[j] == v[j - w]
    ensures !(w <= j < w + 6) && j in m ==> Placed(m, w, v)[j] == m[j]
  {
  }

  lemma SixNamed(first: nat, vtxOffset: nat, i: nat)
    requires i < 6 && first + 4 <= INDEX_RANGE
    ensures RectIndices(first)[i] < INDEX_RANGE
    ensures vtxOffset + RectIndices(first)[i] == RectCorners(vtxOffset + first)[i]
  {
  }

  class DrawList {
    const setup: Setup
    var cmdBuffer: seq<Cmd>
    var idxBuffer: seq<nat>
    var vtxBuffer: seq<nat>
    var header: Header
    var vtxCurrentIdx: nat
    var vtxWrite: nat
    var idxWrite: nat
    var clipStack: seq<Rect>
    var textureStack: seq<nat>
    ghost var open: nat
    ghost var vtxBase: nat
    ghost var intended: map<nat, int>

    ghost function Abs(): Frame
      reads this
    {
      Frame(header, clipStack, textureStack, Marks(cmdBuffer), |idxBuffer|, |vtxBuffer|, idxWrite, vtxWrite, open,
            vtxCurrentIdx, vtxBase, intended)
    }

    /** The state except for what ties the last command to the header. */
    ghost predicate Core()
      reads this
    {
      && cmdBuffer != [] && Last(cmdBuffer).callback == NoHook
      && Tiles(cmdBuffer, |idxBuffer|)
      && AllBusy(Init(cmdBuffer))
      && open <= Last(cmdBuffer).elemCount
      && Ordered(setup.fullscreen) && Ordered(header.clip)
      && (forall i :: 0 <= i < |clipStack| ==> Ordered(clipStack[i]))
    }

    ghost predicate Valid()
      reads this
    {
      && Core()
      && Last(cmdBuffer).header == header
    }

    /** No command could have continued the one before it, and vertex offsets have not gone down. */
    ghost predicate Sharp()
      reads this`cmdBuffer, this`header
    {
      ApartBelow(cmdBuffer, header.vtxOffset + 1)
    }

    /** _ResetForNewFrame. */
    constructor (setup: Setup)
      requires Ordered(setup.fullscreen)
      ensures this.setup == setup
      ensures Valid() && Abs() == Start && idxBuffer == [] && Headers(cmdBuffer) == [] && Sharp()
      ensures header == Header(Rect(0.0, 0.0, 0.0, 0.0), 0, 0)
      ensures clipStack == [] && textureStack == [] && vtxBuffer == []
    {
      this.setup := setup;
      header := Start.header;
      cmdBuffer := [Cmd(Start.header, 0, 0, NoHook)];
      idxBuffer, vtxBuffer, vtxCurrentIdx, vtxWrite, idxWrite := [], [], 0, 0, 0;
      clipStack, textureStack, open, vtxBase, intended := [], [], 0, 0, map[];
      new;
      Snoc([], Cmd(Start.header, 0, 0, NoHook));
    }

    method AddDrawCmd()
      requires Ordered(header.clip)
      modifies this`cmdBuffer
      ensures cmdBuffer == old(cmdBuffer) + [Cmd(header, |idxBuffer|, 0, NoHook)]
    {
      assert header.clip.x <= header.clip.z && header.clip.y <= header.clip.w;
      cmdBuffer := cmdBuffer + [Cmd(header, |idxBuffer|, 0, NoHook)];
    }

    /** _PopUnusedDrawCmd: a last command that draws nothing goes, which leaves a list unfit for drawing. */
    method PopUnusedDrawCmd()
      requires Tiles(cmdBuffer, |idxBuffer|)
      modifies this`cmdBuffer
      ensures Tiles(cmdBuffer, |idxBuffer|)
      ensures Marks(cmdBuffer) == old(Marks(cmdBuffer)) && Headers(cmdBuffer) == old(Headers(cmdBuffer))
      ensures cmdBuffer == if old(cmdBuffer != [] && !Busy(Last(cmdBuffer))) then old(Init(cmdBuffer))
                           else old(cmdBuffer)
    {
      if cmdBuffer == [] { return; }
      var curr := Last(cmdBuffer);
      if curr.elemCount == 0 && curr.callback == NoHook {
        cmdBuffer := Init(cmdBuffer);
      }
    }

    /** The last command is made one that draws nothing. */
    method EnsureIdle()
      requires Valid()
      modifies this`cmdBuffer
      ensures cmdBuffer != [] && Tiles(cmdBuffer, |idxBuffer|) && AllBusy(Init(cmdBuffer))
      ensures var c := Last(cmdBuffer); c.header == header && c.elemCount == 0 && c.callback == NoHook
      ensures Marks(cmdBuffer) == old(Marks(cmdBuffer)) && Headers(cmdBuffer) == old(Headers(cmdBuffer))
      ensures old(Sharp()) ==> ApartBelow(Init(cmdBuffer), header.vtxOffset + 1)
    {
      hide Marks, Headers, Tiles, AllBusy, ApartBelow;
      BusyInit(cmdBuffer, header.vtxOffset + 1);
      if Last(cmdBuffer).elemCount != 0 {
        Snoc(cmdBuffer, Cmd(header, |idxBuffer|, 0, NoHook));
        AddDrawCmd();
      }
    }

    method AddCallback(id: nat)
      requires Valid()
      modifies this`cmdBuffer, this`open
      ensures Valid() && Abs() == Apply(old(Abs()), setup, PlainList.AddCallback(id))
      ensures Marks(cmdBuffer) == old(Marks(cmdBuffer)) + [Call(id)]
      ensures Headers(cmdBuffer) == old(Headers(cmdBuffer))
      ensures old(Sharp()) ==> Sharp()
    {
      hide Marks, Headers, Tiles, AllBusy, ApartBelow;
      EnsureIdle();
      var curr := Last(cmdBuffer);
      HookLast(cmdBuffer, id);
      Hooked(Init(cmdBuffer), curr.(callback := Hook(id)), Cmd(header, |idxBuffer|, 0, NoHook),
             header.vtxOffset + 1);
      cmdBuffer := Init(cmdBuffer) + [curr.(callback := Hook(id))];
      Snoc(cmdBuffer, Cmd(header, |idxBuffer|, 0, NoHook));
      AddDrawCmd();
      open := 0;
    }

    /** The header was changed in a part the last command does not share yet. */
    ghost predicate HeaderChanged(before: Header)
      reads this
    {
      Core() && Last(cmdBuffer).header == before && before.vtxOffset == header.vtxOffset && open == 0
    }

    /** The last command follows the header: in place while it is empty, joined to the one before it where they
        agree, or replaced by a new one. */
    method OnChangedClipRect()
      requires cmdBuffer != [] && HeaderChanged(header.(clip := Last(cmdBuffer).header.clip))
      modifies this`cmdBuffer
      ensures Valid()
      ensures Marks(cmdBuffer) == old(Marks(cmdBuffer)) && Headers(cmdBuffer) == old(Headers(cmdBuffer))
      ensures old(Sharp()) ==> Sharp()
    {
      hide Marks, Headers, Tiles, AllBusy, ApartBelow;
      var curr := Last(cmdBuffer);
      Snoc(cmdBuffer, Cmd(header, |idxBuffer|, 0, NoHook));
      InitLast(cmdBuffer);
      Snoc(Init(cmdBuffer), curr);
      Snoc(Init(cmdBuffer), curr.(header := curr.header.(clip := header.clip)));
      BusyInit(cmdBuffer, header.vtxOffset + 1);
      if |cmdBuffer| > 1 { BusyTwice(cmdBuffer, header.vtxOffset + 1); }
      if curr.elemCount != 0 && curr.header.clip != header.clip {
        ApartSnoc(cmdBuffer, Cmd(header, |idxBuffer|, 0, NoHook), header.vtxOffset + 1);
        AddDrawCmd();
        return;
      }
      assert curr.callback == NoHook;
      if curr.elemCount == 0 && |cmdBuffer| > 1 {
        var prev := cmdBuffer[|cmdBuffer| - 2];
        if prev.header == header && prev.callback == NoHook {
          cmdBuffer := Init(cmdBuffer);
          return;
        }
      }
      ApartSnoc(Init(cmdBuffer), curr.(header := header), header.vtxOffset + 1);
      cmdBuffer := Init(cmdBuffer) + [curr.(header := curr.header.(clip := header.clip))];
    }

    method OnChangedTextureID()
      requires cmdBuffer != [] && HeaderChanged(header.(texture := Last(cmdBuffer).header.texture))
      modifies this`cmdBuffer
      ensures Valid()
      ensures Marks(cmdBuffer) == old(Marks(cmdBuffer)) && Headers(cmdBuffer) == old(Headers(cmdBuffer))
      ensures old(Sharp()) ==> Sharp()
    {
      hide Marks, Headers, Tiles, AllBusy, ApartBelow;
      var curr := Last(cmdBuffer);
      Snoc(cmdBuffer, Cmd(header, |idxBuffer|, 0, NoHook));
      InitLast(cmdBuffer);
      Snoc(Init(cmdBuffer), curr);
      Snoc(Init(cmdBuffer), curr.(header := curr.header.(texture := header.texture)));
      BusyInit(cmdBuffer, header.vtxOffset + 1);
      if |cmdBuffer| > 1 { BusyTwice(cmdBuffer, header.vtxOffset + 1); }
      if curr.elemCount != 0 && curr.header.texture != header.texture {
        ApartSnoc(cmdBuffer, Cmd(header, |idxBuffer|, 0, NoHook), header.vtxOffset + 1);
        AddDrawCmd();
        return;
      }
      assert curr.callback == NoHook;
      if curr.elemCount == 0 && |cmdBuffer| > 1 {
        var prev := cmdBuffer[|cmdBuffer| - 2];
        if prev.header == header && prev.callback == NoHook {
          cmdBuffer := Init(cmdBuffer);
          return;
        }
      }
      ApartSnoc(Init(cmdBuffer), curr.(header := header), header.vtxOffset + 1);
      cmdBuffer := Init(cmdBuffer) + [curr.(header := curr.header.(texture := header.texture))];
    }

    method OnChangedVtxOffset()
      requires Core() && open == 0
      requires Last(cmdBuffer).header == header.(vtxOffset := Last(cmdBuffer).header.vtxOffset)
      modifies this`cmdBuffer, this`vtxCurrentIdx
      ensures Valid() && vtxCurrentIdx == 0
      ensures Marks(cmdBuffer) == old(Marks(cmdBuffer)) && Headers(cmdBuffer) == old(Headers(cmdBuffer))
      ensures old(ApartBelow(cmdBuffer, header.vtxOffset)) ==> Sharp()
    {
      hide Marks, Headers, Tiles;
      vtxCurrentIdx := 0;
      var curr := Last(cmdBuffer);
      Snoc(cmdBuffer, Cmd(header, |idxBuffer|, 0, NoHook));
      InitLast(cmdBuffer);
      Snoc(Init(cmdBuffer), curr);
      Snoc(Init(cmdBuffer), curr.(header := curr.header.(vtxOffset := header.vtxOffset)));
      if curr.elemCount != 0 {
        AddDrawCmd();
        return;
      }
      assert curr.callback == NoHook;
      cmdBuffer := Init(cmdBuffer) + [curr.(header := curr.header.(vtxOffset := header.vtxOffset))];
    }

    method PushClipRect(r: Rect, intersect: bool)
      requires Valid()
      modifies this`cmdBuffer, this`header, this`clipStack, this`open
      ensures Valid() && Abs() == Apply(old(Abs()), setup, PushClip(r, intersect))
      ensures IsClip(header.clip, r, old(header.clip), intersect)
      ensures Headers(cmdBuffer) == old(Headers(cmdBuffer))
      ensures old(Sharp()) ==> Sharp()
    {
      hide Marks, Headers, Tiles, IsClip, ClipRect;
      ClipRectIsClip(r, header.clip, intersect);
      var cr := ClipRect(r, header.clip, intersect);
      clipStack := clipStack + [cr];
      header := header.(clip := cr);
      open := 0;
      OnChangedClipRect();
    }

    method PopClipRect()
      requires Valid() && clipStack != []
      modifies this`cmdBuffer, this`header, this`clipStack, this`open
      ensures Valid() && Abs() == Apply(old(Abs()), setup, PopClip)
      ensures |clipStack| == |old(clipStack)| - 1
      ensures header.clip == if |clipStack| == 0 then setup.fullscreen else old(clipStack)[|clipStack| - 1]
      ensures Headers(cmdBuffer) == old(Headers(cmdBuffer))
      ensures old(Sharp()) ==> Sharp()
    {
      hide Marks, Headers, Tiles;
      clipStack := Init(clipStack);
      header := header.(clip := if clipStack == [] then setup.fullscreen else Last(clipStack));
      open := 0;
      OnChangedClipRect();
    }

    method PushTextureID(t: nat)
      requires Valid()
      modifies this`cmdBuffer, this`header, this`textureStack, this`open
      ensures Valid() && Abs() == Apply(old(Abs()), setup, PushTexture(t))
      ensures header.texture == t && textureStack == old(textureStack) + [t]
      ensures Headers(cmdBuffer) == old(Headers(cmdBuffer))
      ensures old(Sharp()) ==> Sharp()
    {
      hide Marks, Headers, Tiles;
      textureStack := textureStack + [t];
      header := header.(texture := t);
      open := 0;
      OnChangedTextureID();
    }

    method PopTextureID()
      requires Valid() && textureStack != []
      modifies this`cmdBuffer, this`header, this`textureStack, this`open
      ensures Valid() && Abs() == Apply(old(Abs()), setup, PopTexture)
      ensures |textureStack| == |old(textureStack)| - 1
      ensures header.texture == if |textureStack| == 0 then 0 else old(textureStack)[|textureStack| - 1]
      ensures Headers(cmdBuffer) == old(Headers(cmdBuffer))
      ensures old(Sharp()) ==> Sharp()
    {
      hide Marks, Headers, Tiles;
      textureStack := Init(textureStack);
      header := header.(texture := if textureStack == [] then 0 else Last(textureStack));
      open := 0;
      OnChangedTextureID();
    }

    /** draw_cmd->ElemCount += n */
    method ExtendLast(n: nat)
      requires cmdBuffer != [] && Last(cmdBuffer).callback == NoHook && Tiles(cmdBuffer, |idxBuffer|)
      modifies this`cmdBuffer
      ensures cmdBuffer != []
      ensures Last(cmdBuffer) == old(Last(cmdBuffer)).(elemCount := old(Last(cmdBuffer)).elemCount + n)
      ensures Marks(cmdBuffer) == old(Marks(cmdBuffer)) + Repeat(Index(Last(cmdBuffer).header), n)
      ensures Headers(cmdBuffer) == old(Headers(cmdBuffer)) + Repeat(Last(cmdBuffer).header, n)
      ensures Tiles(cmdBuffer, |idxBuffer| + n)
      ensures Init(cmdBuffer) == old(Init(cmdBuffer))
      ensures old(Sharp()) ==> Sharp()
    {
      hide Marks, Headers, Tiles;
      var curr := Last(cmdBuffer);
      Extend(cmdBuffer, n);
      cmdBuffer := Init(cmdBuffer) + [curr.(elemCount := curr.elemCount + n)];
    }

    /** A range that begins now begins further on than the current one. */
    ghost predicate RangeClimbs(vtxCount: nat)
      reads this
    {
      vtxCurrentIdx + vtxCount >= INDEX_RANGE && setup.allowVtxOffset ==> header.vtxOffset < |vtxBuffer|
    }

    /** Large mesh support: a new vertex range begins when 16 bits would not do. */
    method StartRange(vtxCount: nat)
      requires Valid()
      modifies this`cmdBuffer, this`header, this`vtxCurrentIdx, this`open
      ensures Valid() && open == 0
      ensures Marks(cmdBuffer) == old(Marks(cmdBuffer)) && Headers(cmdBuffer) == old(Headers(cmdBuffer))
      ensures if old(NewRange(Abs(), setup, vtxCount))
              then header == old(header).(vtxOffset := |vtxBuffer|) && vtxCurrentIdx == 0
              else header == old(header) && vtxCurrentIdx == old(vtxCurrentIdx)
      ensures old(Sharp() && RangeClimbs(vtxCount)) ==> Sharp()
    {
      hide Marks, Headers, Tiles;
      open := 0;
      if vtxCurrentIdx + vtxCount >= INDEX_RANGE && setup.allowVtxOffset {
        header := header.(vtxOffset := |vtxBuffer|);
        OnChangedVtxOffset();
      }
    }

    /** The new parts of the buffers hold whatever was there: junkIdx and junkVtx. */
    method PrimReserve(idxCount: nat, vtxCount: nat, junkIdx: seq<nat>, junkVtx: seq<nat>)
      requires Valid() && |junkIdx| == idxCount && |junkVtx| == vtxCount
      modifies this
      ensures Valid() && Abs() == Apply(old(Abs()), setup, Reserve(idxCount, vtxCount))
      ensures Marks(cmdBuffer) == old(Marks(cmdBuffer)) + Repeat(Index(header), idxCount)
      ensures Headers(cmdBuffer) == old(Headers(cmdBuffer)) + Repeat(header, idxCount)
      ensures idxBuffer == old(idxBuffer) + junkIdx && vtxBuffer == old(vtxBuffer) + junkVtx
      ensures if old(vtxCurrentIdx) + vtxCount >= 0x1_0000 && setup.allowVtxOffset
              then header == old(header).(vtxOffset := |old(vtxBuffer)|) && vtxCurrentIdx == 0
              else header == old(header) && vtxCurrentIdx == old(vtxCurrentIdx)
      ensures old(Sharp() && RangeClimbs(vtxCount)) ==> Sharp()
    {
      hide Marks, Headers, Tiles, Apply, AllBusy, Sharp;
      ReserveIs(Abs(), setup, idxCount, vtxCount);
      StartRange(vtxCount);
      ExtendLast(idxCount);
      vtxWrite, idxWrite := |vtxBuffer|, |idxBuffer|;
      vtxBase := vtxWrite;
      vtxBuffer := vtxBuffer + junkVtx;
      idxBuffer := idxBuffer + junkIdx;
      open := idxCount;
    }

    method PrimUnreserve(idxCount: nat, vtxCount: nat)
      requires Valid() && Legal(Abs(), Unreserve(idxCount, vtxCount))
      modifies this`cmdBuffer, this`idxBuffer, this`vtxBuffer, this`open, this`intended
      ensures Valid() && Abs() == Apply(old(Abs()), setup, Unreserve(idxCount, vtxCount))
      ensures |old(Headers(cmdBuffer))| == |old(idxBuffer)|
      ensures Headers(cmdBuffer) == old(Headers(cmdBuffer))[..|old(idxBuffer)| - idxCount]
      ensures idxBuffer == old(idxBuffer)[..|old(idxBuffer)| - idxCount]
      ensures vtxBuffer == old(vtxBuffer)[..|old(vtxBuffer)| - vtxCount]
      ensures old(Sharp()) ==> Sharp()
    {
      hide Marks, Headers, Tiles;
      var curr := Last(cmdBuffer);
      Shrink(cmdBuffer, idxCount);
      TilesHeaders(cmdBuffer, |idxBuffer|);
      cmdBuffer := Init(cmdBuffer) + [curr.(elemCount := curr.elemCount - idxCount)];
      assert old(Marks(cmdBuffer))[..|old(Marks(cmdBuffer))| - idxCount] == Marks(cmdBuffer);
      assert old(Headers(cmdBuffer))[..|old(Headers(cmdBuffer))| - idxCount] == Headers(cmdBuffer);
      vtxBuffer := vtxBuffer[..|vtxBuffer| - vtxCount];
      idxBuffer := idxBuffer[..|idxBuffer| - idxCount];
      open := open - idxCount;
      intended := map j | j in intended && j < |idxBuffer| :: intended[j];
    }

    /** *_IdxWritePtr++ = (ImDrawIdx)(_VtxCurrentIdx + k): the cast keeps 16 bits. */
    method PrimWriteIdx(k: int)
      requires Valid() && Legal(Abs(), WriteIdx(k))
      modifies this`idxBuffer, this`idxWrite, this`intended
      ensures Valid() && Abs() == Apply(old(Abs()), setup, WriteIdx(k))
      ensures idxBuffer == old(idxBuffer)[old(idxWrite) := (vtxCurrentIdx + k) % 0x1_0000]
    {
      hide Marks, Headers, Tiles;
      idxBuffer := idxBuffer[idxWrite := (vtxCurrentIdx + k) % INDEX_RANGE];
      intended := intended[idxWrite := vtxBase + k];
      idxWrite := idxWrite + 1;
    }

    /** *_VtxWritePtr++ = vertex */
    method PrimWriteVtx(vertex: nat)
      requires Valid() && Legal(Abs(), WriteVtx(vertex))
      modifies this`vtxBuffer, this`vtxWrite
      ensures Valid() && Abs() == Apply(old(Abs()), setup, WriteVtx(vertex))
      ensures vtxBuffer == old(vtxBuffer)[old(vtxWrite) := vertex]
    {
      hide Marks, Headers, Tiles;
      vtxBuffer := vtxBuffer[vtxWrite := vertex];
      vtxWrite := vtxWrite + 1;
    }

    /** _VtxCurrentIdx += (ImDrawIdx)n */
    method AdvanceIdx(n: nat)
      requires Valid()
      modifies this`vtxCurrentIdx, this`vtxBase
      ensures Valid() && Abs() == Apply(old(Abs()), setup, Advance(n))
      ensures vtxCurrentIdx == old(vtxCurrentIdx) + n % 0x1_0000
    {
      hide Marks, Headers, Tiles;
      vtxCurrentIdx := vtxCurrentIdx + n % INDEX_RANGE;
      vtxBase := vtxBase + n;
    }

    /** PrimRect: the casts to ImDrawIdx keep 16 bits. */
    method PrimRect(corners: seq<nat>)
      requires Valid() && Legal(Abs(), WriteRect) && |corners| == 4
      modifies this`idxBuffer, this`vtxBuffer, this`vtxWrite, this`idxWrite, this`vtxCurrentIdx
      modifies this`vtxBase, this`intended
      ensures Valid() && Abs() == Apply(old(Abs()), setup, WriteRect)
      ensures idxBuffer == old(idxBuffer[..idxWrite]) + RectIndices(old(vtxCurrentIdx)) + old(idxBuffer[idxWrite + 6..])
      ensures vtxBuffer == old(vtxBuffer[..vtxWrite]) + corners + old(vtxBuffer[vtxWrite + 4..])
    {
      hide Marks, Headers, Tiles, RectIndices, RectCorners, Placed, Apply;
      RectIs(Abs(), setup);
      var idx := vtxCurrentIdx % INDEX_RANGE;
      var w, v := idxWrite, vtxWrite;
      ghost var was, vtxWas := idxBuffer, vtxBuffer;
      idxBuffer := idxBuffer[w := idx][w + 1 := (idx + 1) % INDEX_RANGE][w + 2 := (idx + 2) % INDEX_RANGE];
      idxBuffer := idxBuffer[w + 3 := idx][w + 4 := (idx + 2) % INDEX_RANGE][w + 5 := (idx + 3) % INDEX_RANGE];
      SixWrites(was, w, vtxCurrentIdx);
      vtxBuffer := vtxBuffer[v := corners[0]][v + 1 := corners[1]][v + 2 := corners[2]][v + 3 := corners[3]];
      FourWrites(vtxWas, v, corners);
      intended := Placed(intended, w, RectCorners(v));
      vtxWrite := vtxWrite + 4;
      vtxCurrentIdx := vtxCurrentIdx + 4;
      vtxBase := vtxBase + 4;
      idxWrite := idxWrite + 6;
    }
  }

  /** The fan of triangles over n points, as AddConvexPolyFilled means it: first, i - 1, i. */
  ghost predicate IsFan(intended: map<nat, int>, w: nat, first: nat, n: nat) {
    forall i :: 2 <= i < n ==> FanAt(intended, w, first, i)
  }

  ghost predicate FanAt(intended: map<nat, int>, w: nat, first: nat, i: nat)
    requires i >= 2
  {
    var j := w + (i - 2) * 3;
    && j in intended && j + 1 in intended && j + 2 in intended
    && intended[j] == first && intended[j + 1] == first + i - 1 && intended[j + 2] == first + i
  }

  lemma FanGrows(intended: map<nat, int>, w: nat, first: nat, n: nat)
    requires n >= 2 && IsFan(intended, w, first, n)
    ensures var j := w + (n - 2) * 3;
            IsFan(intended[j := first][j + 1 := first + n - 1][j + 2 := first + n], w, first, n + 1)
  {
    var j := w + (n - 2) * 3;
    var now := intended[j := first][j + 1 := first + n - 1][j + 2 := first + n];
    forall i | 2 <= i < n + 1
      ensures FanAt(now, w, first, i)
    {
      if i < n { assert FanAt(intended, w, first, i); }
    }
  }

  lemma NoFan(intended: map<nat, int>, w: nat, first: nat)
    ensures IsFan(intended, w, first, 2)
  {
  }

  /** All written indices of the list name the intended vertices. */
  ghost predicate Names(dl: DrawList)
    reads dl
  {
    Named(dl.Abs(), Headers(dl.cmdBuffer), dl.idxBuffer)
  }

  /** Writes all vertices of a reservation. */
  method WriteVertices(dl: DrawList, points: seq<nat>, ghost tidy: bool)
    requires dl.Valid() && dl.vtxWrite + |points| == |dl.vtxBuffer| && (tidy ==> Names(dl))
    modifies dl
    ensures dl.Valid() && dl.Abs() == old(dl.Abs()).(vtxWritten := |dl.vtxBuffer|) && (tidy ==> Names(dl))
    ensures dl.vtxBuffer == old(dl.vtxBuffer[..dl.vtxWrite]) + points
  {
    hide Marks, Headers, Tiles, Named;
    ghost var first := dl.vtxWrite;
    for i := 0 to |points|
      invariant dl.Valid() && dl.Abs() == old(dl.Abs()).(vtxWritten := first + i) && (tidy ==> Names(dl))
      invariant dl.vtxBuffer[..first + i] == old(dl.vtxBuffer[..first]) + points[..i]
    {
      ghost var was := dl.vtxBuffer;
      Step(dl, WriteVtx(points[i]), tidy);
      assert dl.vtxBuffer[..first + i + 1] == was[..first + i] + [points[i]];
    }
    assert dl.vtxBuffer[..first + |points|] == dl.vtxBuffer;
  }

  /** Writes the indices of a fan over the n vertices of a reservation. */
  method WriteFan(dl: DrawList, n: nat, ghost tidy: bool)
    requires dl.Valid() && n >= 2 && dl.idxWrite + (n - 2) * 3 == |dl.idxBuffer|
    requires dl.vtxBase + n == |dl.vtxBuffer| && (tidy ==> Names(dl))
    modifies dl
    ensures dl.Valid() && (tidy ==> Names(dl)) && IsFan(dl.intended, old(dl.idxWrite), dl.vtxBase, n)
    ensures dl.Abs() == old(dl.Abs()).(idxWritten := |dl.idxBuffer|, intended := dl.intended)
    ensures dl.vtxBuffer == old(dl.vtxBuffer)
  {
    hide Marks, Headers, Tiles, Named, IsFan, FanAt;
    ghost var w := dl.idxWrite;
    NoFan(dl.intended, w, dl.vtxBase);
    for i := 2 to n
      invariant dl.Valid() && (tidy ==> Names(dl)) && dl.vtxBuffer == old(dl.vtxBuffer)
      invariant dl.Abs() == old(dl.Abs()).(idxWritten := w + (i - 2) * 3, intended := dl.intended)
      invariant IsFan(dl.intended, w, dl.vtxBase, i)
    {
      FanGrows(dl.intended, w, dl.vtxBase, i);
      Step(dl, WriteIdx(0), tidy);
      Step(dl, WriteIdx(i - 1), tidy);
      Step(dl, WriteIdx(i), tidy);
    }
  }

  /** AddConvexPolyFilled without anti-aliasing: a shape whose vertices and indices are written one by one.
      It fills its reservation, and its indices name the points of the fan. */
  method AddConvexPolyFilled(dl: DrawList, points: seq<nat>)
    requires dl.Valid()
    modifies dl
    ensures dl.Valid()
    ensures |points| < 3 ==> dl.Abs() == old(dl.Abs())
    ensures |points| >= 3 ==>
              && dl.idxWrite == |dl.idxBuffer| == |old(dl.idxBuffer)| + (|points| - 2) * 3
              && dl.vtxBuffer == old(dl.vtxBuffer) + points && dl.vtxWrite == dl.vtxBase == |dl.vtxBuffer|
              && IsFan(dl.intended, |old(dl.idxBuffer)|, |old(dl.vtxBuffer)|, |points|)
    ensures old(Tidy(dl.Abs(), dl.setup, Reserve(0, |points|)) && Names(dl)) ==> Names(dl)
  {
    hide Marks, Headers, Tiles, Named, IsFan, FanAt;
    var n := |points|;
    if n < 3 { return; }
    ghost var tidy := Tidy(dl.Abs(), dl.setup, Reserve(0, n)) && Names(dl);
    ghost var was := dl.vtxBuffer;
    Step(dl, Reserve((n - 2) * 3, n), tidy);
    assert dl.vtxBuffer[..dl.vtxWrite] == was;
    WriteVertices(dl, points, tidy);
    WriteFan(dl, n, tidy);
    Step(dl, Advance(n), tidy);
  }

  lemma ReserveIs(f: Frame, s: Setup, idx: nat, vtx: nat)
    ensures var header := if NewRange(f, s, vtx) then f.header.(vtxOffset := f.vtxCount) else f.header;
            Apply(f, s, Reserve(idx, vtx)) ==
              Frame(header, f.clips, f.textures, f.marks + Repeat(Index(header), idx),
                    f.idxCount + idx, f.vtxCount + vtx, f.idxCount, f.vtxCount, idx,
                    if NewRange(f, s, vtx) then 0 else f.vtxCurrent, f.vtxCount, f.intended)
  {
  }

  lemma RectIs(f: Frame, s: Setup)
    requires Legal(f, WriteRect)
    ensures Apply(f, s, WriteRect) ==
              Frame(f.header, f.clips, f.textures, f.marks,
                    f.idxCount, f.vtxCount, f.idxWritten + 6, f.vtxWritten + 4, f.open,
                    f.vtxCurrent + 4, f.vtxBase + 4, Placed(f.intended, f.idxWritten, RectCorners(f.vtxWritten)))
  {
  }

  /** Writing six indices one after the other. */
  lemma SixWrites(was: seq<nat>, w: nat, first: nat)
    requires w + 6 <= |was|
    ensures var idx := first % INDEX_RANGE;
            var half := was[w := idx][w + 1 := (idx + 1) % INDEX_RANGE][w + 2 := (idx + 2) % INDEX_RANGE];
            half[w + 3 := idx][w + 4 := (idx + 2) % INDEX_RANGE][w + 5 := (idx + 3) % INDEX_RANGE]
            == was[..w] + RectIndices(first) + was[w + 6..]
  {
  }

  lemma FourWrites(was: seq<nat>, v: nat, corners: seq<nat>)
    requires v + 4 <= |was| && |corners| == 4
    ensures was[v := corners[0]][v + 1 := corners[1]][v + 2 := corners[2]][v + 3 := corners[3]]
            == was[..v] + corners + was[v + 4..]
  {
  }

  method Perform(dl: DrawList, op: Op)
    requires dl.Valid() && Legal(dl.Abs(), op)
    modifies dl
    ensures dl.Valid() && dl.Abs() == Apply(old(dl.Abs()), dl.setup, op)
    ensures IdxEffect(old(dl.Abs()), dl.Abs(), op, old(Headers(dl.cmdBuffer)), old(dl.idxBuffer),
                      Headers(dl.cmdBuffer), dl.idxBuffer)
    ensures op.Reserve? ==> dl.idxBuffer == old(dl.idxBuffer) + Repeat(0, op.idx)
    ensures op.WriteVtx? ==> dl.vtxBuffer == old(dl.vtxBuffer)[old(dl.vtxWrite) := op.vertex]
    ensures op.Reserve? ==> old(dl.vtxBuffer) <= dl.vtxBuffer
    ensures !op.Reserve? && !op.Unreserve? && !op.WriteVtx? && !op.WriteRect? ==> dl.vtxBuffer == old(dl.vtxBuffer)
    ensures old(dl.Sharp() && Climbs(dl.Abs(), dl.setup, op)) ==> dl.Sharp()
  {
    hide Marks, Headers, Tiles, IsClip, ClipRect, AllBusy, DrawList.Sharp;
    match op
    case PushClip(r, intersect) => dl.PushClipRect(r, intersect);
    case PopClip => dl.PopClipRect();
    case PushTexture(t) => dl.PushTextureID(t);
    case PopTexture => dl.PopTextureID();
    case AddCallback(id) => dl.AddCallback(id);
    case Reserve(idx, vtx) => dl.PrimReserve(idx, vtx, Repeat(0, idx), Repeat(0, vtx));
    case Unreserve(idx, vtx) => dl.PrimUnreserve(idx, vtx);
    case WriteIdx(k) => dl.PrimWriteIdx(k);
    case WriteVtx(vertex) => dl.PrimWriteVtx(vertex);
    case Advance(n) => dl.AdvanceIdx(n);
    case WriteRect => dl.PrimRect([0, 1, 2, 3]);
  }

  /** One call; a tidy one keeps all written indices right. */
  method Step(dl: DrawList, op: Op, ghost tidy: bool)
    requires dl.Valid() && Legal(dl.Abs(), op)
    requires tidy ==> Tidy(dl.Abs(), dl.setup, op) && Names(dl)
    modifies dl
    ensures dl.Valid() && dl.Abs() == Apply(old(dl.Abs()), dl.setup, op)
    ensures |dl.idxBuffer| == dl.Abs().idxCount && |dl.vtxBuffer| == dl.Abs().vtxCount
    ensures op.WriteVtx? ==> dl.vtxBuffer == old(dl.vtxBuffer)[old(dl.vtxWrite) := op.vertex]
    ensures op.Reserve? ==> old(dl.vtxBuffer) <= dl.vtxBuffer
    ensures !op.Reserve? && !op.Unreserve? && !op.WriteVtx? && !op.WriteRect? ==> dl.vtxBuffer == old(dl.vtxBuffer)
    ensures tidy ==> Names(dl)
    ensures old(dl.Sharp() && Climbs(dl.Abs(), dl.setup, op)) ==> dl.Sharp()
    ensures tidy && old(dl.Sharp()) ==> dl.Sharp()
  {
    hide Marks, Headers, Tiles, Named, IdxEffect, Tidy, Climbs, AllBusy, DrawList.Sharp;
    ghost var f, headers, idx := dl.Abs(), Headers(dl.cmdBuffer), dl.idxBuffer;
    Perform(dl, op);
    if tidy {
      TidyClimbs(f, dl.setup, op, headers, idx);
      NamedStep(f, dl.setup, op, headers, idx, Headers(dl.cmdBuffer), dl.idxBuffer);
    }
  }

  /** A tidy reservation begins a new range only where vertices were passed since the last one began. */
  lemma TidyClimbs(f: Frame, s: Setup, op: Op, headers: seq<Header>, idx: seq<nat>)
    requires Tidy(f, s, op) && Named(f, headers, idx)
    ensures Climbs(f, s, op)
  {
  }

  /** Any run of calls, whatever it draws: the commands, spelt out, are exactly the marks of the reference, and none
      but the last is idle.  Unless a vertex range begins where the last one did, no command could have continued the
      one before it, so that by CoalescedOnce they are the only way to coalesce what is drawn.  When every step is
      tidy, that holds too, and all written indices name their vertices. */
  method PerformAll(setup: Setup, ops: seq<Op>) returns (dl: DrawList)
    requires Ordered(setup.fullscreen) && LegalRun(Start, setup, ops)
    ensures dl.setup == setup && dl.Valid()
    ensures Marks(dl.cmdBuffer) == Run(Start, setup, ops).marks
    ensures dl.header == Run(Start, setup, ops).header == Last(dl.cmdBuffer).header
    ensures Last(dl.cmdBuffer).callback == NoHook
    ensures Tiles(dl.cmdBuffer, |dl.idxBuffer|) && AllBusy(Init(dl.cmdBuffer))
    ensures TidyRun(Start, setup, ops) || ClimbRun(Start, setup, ops) ==> Apart(dl.cmdBuffer)
    ensures TidyRun(Start, setup, ops) ==>
              NamesIntended(Headers(dl.cmdBuffer), dl.idxBuffer, Run(Start, setup, ops).intended)
  {
    hide Marks, Headers, Tiles, Named, IdxEffect, Apply, Legal, Tidy, Climbs, AllBusy, DrawList.Sharp, Apart;
    dl := new DrawList(setup);
    NamedStart();
    var i := 0;
    while i < |ops|
      invariant 0 <= i <= |ops|
      invariant fresh(dl) && dl.setup == setup && dl.Valid()
      invariant LegalRun(dl.Abs(), setup, ops[i..])
      invariant Run(dl.Abs(), setup, ops[i..]) == Run(Start, setup, ops)
      invariant TidyRun(Start, setup, ops) ==>
                  TidyRun(dl.Abs(), setup, ops[i..]) && Names(dl) && dl.Sharp()
      invariant ClimbRun(Start, setup, ops) ==> ClimbRun(dl.Abs(), setup, ops[i..]) && dl.Sharp()
    {
      assert ops[i..][0] == ops[i] && ops[i..][1..] == ops[i + 1..];
      Step(dl, ops[i], TidyRun(Start, setup, ops));
      i := i + 1;
    }
    NamedNames(dl.Abs(), Headers(dl.cmdBuffer), dl.idxBuffer);
    SharpApart(dl);
  }

  lemma SharpApart(dl: DrawList)
    ensures dl.Sharp() ==> Apart(dl.cmdBuffer)
  {
  }

  lemma NamedStart()
    ensures Named(Start, [], [])
  {
  }

  lemma NamedNames(f: Frame, headers: seq<Header>, idx: seq<nat>)
    ensures Named(f, headers, idx) ==> NamesIntended(headers, idx, f.intended)
  {
  }
}
