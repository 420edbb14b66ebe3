/** Whole runs of drawing into channels: what is merged is what was drawn into each. */
module SplitterRuns {
  import opened DrawCommands
  import opened PlainList
  import opened DrawLists
  import opened DrawStreams
  import opened Splitting

  /** What one channel draws, without commands: its marks, and the values in its index buffer. */
  datatype Part = Part(marks: seq<Mark>, idx: seq<nat>)

  /** The reference: the draw list as its callers see it, showing the current channel, and all channels. */
  datatype Parts = Parts(frame: Frame, current: nat, parts: seq<Part>)

  datatype Action = Draw(op: Op) | Switch(channel: nat)

  predicate LegalAction(p: Parts, a: Action) {
    match a
    case Draw(op) => Legal(p.frame, op)
    case Switch(channel) => channel < |p.parts|
  }

  /** The values in the index buffer after an operation.  A reservation may hold anything until it is written; here it
      holds zeros. */
  function NextIdx(f: Frame, op: Op, idx: seq<nat>): seq<nat>
    requires Legal(f, op) && f.idxCount == |idx|
  {
    match op
    case Reserve(n, _) => idx + Repeat(0, n)
    case Unreserve(n, _) => idx[..|idx| - n]
    case WriteIdx(k) => idx[f.idxWritten := (f.vtxCurrent + k) % INDEX_RANGE]
    case WriteRect => idx[..f.idxWritten] + RectIndices(f.vtxCurrent) + idx[f.idxWritten + 6..]
    case _ => idx
  }

  predicate Consistent(p: Parts) {
    && p.current < |p.parts|
    && p.frame.marks == p.parts[p.current].marks && p.frame.idxCount == |p.parts[p.current].idx|
  }

  /** Drawing changes the current channel only, and switching none: header, stacks and vertices are shared. */
  function Act(p: Parts, s: Setup, a: Action): Parts
    requires Consistent(p) && LegalAction(p, a)
  {
    match a
    case Draw(op) =>
      var g := Apply(p.frame, s, op);
      Parts(g, p.current, p.parts[p.current := Part(g.marks, NextIdx(p.frame, op, p.parts[p.current].idx))])
    case Switch(k) =>
      if k == p.current then p
      else
        var part := p.parts[k];
        Parts(p.frame.(marks := part.marks, idxCount := |part.idx|, idxWritten := |part.idx|, open := 0,
                       intended := map[]), k, p.parts)
  }

  lemma ActConsistent(p: Parts, s: Setup, a: Action)
    requires Consistent(p) && LegalAction(p, a)
    ensures Consistent(Act(p, s, a)) && |Act(p, s, a).parts| == |p.parts|
  {
  }

  predicate LegalActions(p: Parts, s: Setup, actions: seq<Action>)
    requires Consistent(p)
    decreases |actions|
  {
    actions == [] ||
    (LegalAction(p, actions[0]) &&
     (ActConsistent(p, s, actions[0]); LegalActions(Act(p, s, actions[0]), s, actions[1..])))
  }

  function ActAll(p: Parts, s: Setup, actions: seq<Action>): (r: Parts)
    requires Consistent(p) && LegalActions(p, s, actions)
    ensures Consistent(r) && |r.parts| == |p.parts|
    decreases |actions|
  {
    if actions == [] then p
    else ActConsistent(p, s, actions[0]); ActAll(Act(p, s, actions[0]), s, actions[1..])
  }

  /** What reaches the screen: the channels one after the other, each mark with the next index value. */
  function Shown(parts: seq<Part>): seq<Event> {
    if parts == [] then [] else Shown(Init(parts)) + Zip(Last(parts).marks, Last(parts).idx)
  }

  /** A channel holds what the reference says. */
  ghost predicate Holds(ch: Channel, part: Part) { Marks(ch.cmds) == part.marks && ch.idx == part.idx }

  lemma {:induction false} EventsAreShown(v: seq<Channel>, parts: seq<Part>)
    requires |v| == |parts| && forall i :: 0 <= i < |v| ==> Tiles(v[i].cmds, |v[i].idx|) && Holds(v[i], parts[i])
    ensures Events(v) == Shown(parts)
  {
    hide Zip, Marks, Tiles, Stream;
    if v != [] {
      assert forall i :: 0 <= i < |Init(v)| ==> Init(v)[i] == v[i] && Init(parts)[i] == parts[i];
      EventsAreShown(Init(v), Init(parts));
      StreamIsZip(Last(v).cmds, Last(v).idx);
    }
  }

  /** The splitter and the draw list are in the state of the reference. */
  ghost predicate Tracks(splitter: Splitter, dl: DrawList, p: Parts)
    reads splitter, dl
  {
    && splitter.Valid(dl) && p.frame == dl.Abs() && p.current == splitter.current && |p.parts| == splitter.count
    && forall i :: 0 <= i < splitter.count ==> Holds(splitter.View(dl)[i], p.parts[i])
  }

  lemma TracksConsistent(splitter: Splitter, dl: DrawList, p: Parts)
    requires Tracks(splitter, dl, p)
    ensures Consistent(p)
  {
    assert Holds(splitter.View(dl)[splitter.current], p.parts[splitter.current]);
  }

  lemma EffectIsNextIdx(f: Frame, g: Frame, op: Op, headers: seq<Header>, idx: seq<nat>, headers': seq<Header>,
                        idx': seq<nat>)
    requires Legal(f, op) && f.idxCount == |idx| && IdxEffect(f, g, op, headers, idx, headers', idx')
    requires op.Reserve? ==> idx' == idx + Repeat(0, op.idx)
    ensures idx' == NextIdx(f, op, idx)
  {
  }

  method DrawInto(splitter: Splitter, dl: DrawList, op: Op, ghost p: Parts)
    requires Tracks(splitter, dl, p) && Consistent(p) && Legal(p.frame, op)
    modifies dl
    ensures Tracks(splitter, dl, Act(p, dl.setup, Draw(op)))
  {
    hide Marks, Headers, Tiles, IdxEffect, Apply, Legal, NextIdx;
    ghost var f, headers, idx := dl.Abs(), Headers(dl.cmdBuffer), dl.idxBuffer;
    assert Holds(splitter.View(dl)[splitter.current], p.parts[splitter.current]);
    Perform(dl, op);
    EffectIsNextIdx(f, dl.Abs(), op, headers, idx, Headers(dl.cmdBuffer), dl.idxBuffer);
    forall i | 0 <= i < splitter.count && i != splitter.current
      ensures Holds(splitter.View(dl)[i], p.parts[i])
    {
      assert old(Holds(splitter.View(dl)[i], p.parts[i]));
    }
  }

  method SwitchTo(splitter: Splitter, dl: DrawList, channel: nat, ghost p: Parts)
    requires Tracks(splitter, dl, p) && Consistent(p) && channel < |p.parts|
    modifies splitter, dl
    ensures Tracks(splitter, dl, Act(p, dl.setup, Switch(channel)))
  {
    hide Marks, Headers, Tiles;
    splitter.SetCurrentChannel(dl, channel);
    forall i | 0 <= i < splitter.count
      ensures Holds(splitter.View(dl)[i], p.parts[i])
    {
      assert old(Holds(splitter.View(dl)[i], p.parts[i]));
    }
    assert Holds(splitter.View(dl)[channel], p.parts[channel]);
  }

  /** The reference right after a split. */
  ghost function Fresh(f: Frame, idx: seq<nat>, count: nat): Parts
    requires count >= 1
  {
    Parts(f, 0, seq(count, i => if i == 0 then Part(f.marks, idx) else Part([], [])))
  }

  lemma FreshTracks(splitter: Splitter, dl: DrawList)
    requires splitter.Valid(dl) && splitter.current == 0
    requires forall i :: 1 <= i < splitter.count ==> splitter.channels[i] == NoChannel
    ensures Tracks(splitter, dl, Fresh(dl.Abs(), dl.idxBuffer, splitter.count))
    ensures Consistent(Fresh(dl.Abs(), dl.idxBuffer, splitter.count))
  {
    assert Marks([]) == [];
  }

  /** Any drawing between Split and Merge, in any order of channels: afterwards the draw list shows, channel by
      channel, what was drawn into each. */
  method DrawSplit(splitter: Splitter, dl: DrawList, count: nat, actions: seq<Action>)
    requires dl.Valid() && splitter.current == 0 && splitter.count <= 1 && count > 1
    requires LegalActions(Fresh(dl.Abs(), dl.idxBuffer, count), dl.setup, actions)
    modifies splitter, dl
    ensures dl.Valid() && splitter.count == 1 && splitter.current == 0 && InRange(dl.cmdBuffer, dl.idxBuffer)
    ensures var r := ActAll(Fresh(old(dl.Abs()), old(dl.idxBuffer), count), dl.setup, actions);
            Stream(dl.cmdBuffer, dl.idxBuffer) == Shown(r.parts) && dl.header == r.frame.header
  {
    hide Marks, Headers, Tiles, Apply, Legal, Act, Stream, Shown, Events;
    ghost var p := Fresh(dl.Abs(), dl.idxBuffer, count);
    splitter.Split(dl, count);
    FreshTracks(splitter, dl);
    var i := 0;
    while i < |actions|
      invariant 0 <= i <= |actions|
      invariant Tracks(splitter, dl, p) && Consistent(p) && LegalActions(p, dl.setup, actions[i..])
      invariant ActAll(p, dl.setup, actions[i..]) ==
                ActAll(Fresh(old(dl.Abs()), old(dl.idxBuffer), count), dl.setup, actions)
    {
      assert actions[i..][0] == actions[i] && actions[i..][1..] == actions[i + 1..];
      ActConsistent(p, dl.setup, actions[i]);
      match actions[i] {
        case Draw(op) => DrawInto(splitter, dl, op, p);
        case Switch(channel) => SwitchTo(splitter, dl, channel, p);
      }
      p := Act(p, dl.setup, actions[i]);
      i := i + 1;
    }
    EventsAreShown(splitter.View(dl), p.parts);
    splitter.Merge(dl);
  }

  /** A channel changes only while it is the current one. */
  lemma {:induction false} OthersStay(p: Parts, s: Setup, actions: seq<Action>, k: nat)
    requires Consistent(p) && LegalActions(p, s, actions) && k < |p.parts| && k != p.current
    requires forall i :: 0 <= i < |actions| ==> actions[i] != Switch(k)
    ensures ActAll(p, s, actions).parts[k] == p.parts[k]
    decreases |actions|
  {
    if actions != [] {
      ActConsistent(p, s, actions[0]);
      assert forall i :: 0 <= i < |actions[1..]| ==> actions[1..][i] == actions[i + 1];
      OthersStay(Act(p, s, actions[0]), s, actions[1..], k);
    }
  }
}
