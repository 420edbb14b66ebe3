/** The reference: a draw list that keeps no commands at all, only one mark per index and callback. */
module PlainList {
  import opened DrawCommands

  const INDEX_RANGE := 0x1_0000   // ImDrawIdx has 16 bits

  /** State of a draw list as its callers see it.  `open` is what PrimUnreserve may still take back of
      the last reservation.  vtxBase is the vertex that _VtxCurrentIdx is to stand for: the first one of the
      reservation, or the one reached since.  `intended` gives for each index that was written the vertex it
      is meant to name, counted from the start of the vertex buffer. */
  datatype Frame = Frame(header: Header, clips: seq<Rect>, textures: seq<nat>, marks: seq<Mark>,
                         idxCount: nat, vtxCount: nat, idxWritten: nat, vtxWritten: nat, open: nat,
                         vtxCurrent: nat, vtxBase: nat, intended: map<nat, int>)

  datatype Setup = Setup(fullscreen: Rect, allowVtxOffset: bool)

  /** WriteIdx(k) writes the index _VtxCurrentIdx + k, WriteVtx the next vertex, and Advance moves
      _VtxCurrentIdx on, as every shape does once its vertices are there. */
  datatype Op =
    | PushClip(clip: Rect, intersect: bool)
    | PopClip
    | PushTexture(texture: nat)
    | PopTexture
    | AddCallback(id: nat)
    | Reserve(idx: nat, vtx: nat)
    | Unreserve(idx: nat, vtx: nat)
    | WriteIdx(k: int)
    | WriteVtx(vertex: nat)
    | Advance(n: nat)
    | WriteRect

  function Max(a: real, b: real): real { if a >= b then a else b }

  /** The rectangle PushClipRect installs. */
  function ClipRect(r: Rect, current: Rect, intersect: bool): (cr: Rect)
    ensures Ordered(cr)
  {
    var cr := if !intersect then r
              else Rect(if r.x < current.x then current.x else r.x, if r.y < current.y then current.y else r.y,
                        if r.z > current.z then current.z else r.z, if r.w > current.w then current.w else r.w);
    cr.(z := Max(cr.x, cr.z), w := Max(cr.y, cr.w))
  }

  /** A point lies inside a rectangle, which has its upper left edges and not its lower right ones. */
  predicate Inside(px: real, py: real, r: Rect) { r.x <= px < r.z && r.y <= py < r.w }

  /** Its points are those of the pushed rectangle, and with intersect of the current one besides; without, an ordered
      rectangle is installed as it is. */
  ghost predicate IsClip(cr: Rect, r: Rect, current: Rect, intersect: bool) {
    && (forall px, py :: Inside(px, py, cr) <==> Inside(px, py, r) && (intersect ==> Inside(px, py, current)))
    && (!intersect && Ordered(r) ==> cr == r)
    && cr.x >= r.x && cr.y >= r.y && (intersect ==> cr.x >= current.x && cr.y >= current.y)
    && (cr.x == r.x || (intersect && cr.x == current.x)) && (cr.y == r.y || (intersect && cr.y == current.y))
  }

  lemma ClipRectIsClip(r: Rect, current: Rect, intersect: bool)
    ensures IsClip(ClipRect(r, current, intersect), r, current, intersect)
  {
  }

  /** PrimReserve starts a new vertex range. */
  predicate NewRange(f: Frame, s: Setup, vtx: nat) { f.vtxCurrent + vtx >= INDEX_RANGE && s.allowVtxOffset }

  /** What the source demands of its callers: pops match pushes, no more is taken back than was reserved
      last, and no pointer writes past its buffer. */
  predicate Legal(f: Frame, op: Op) {
    match op
    case PopClip => f.clips != []
    case PopTexture => f.textures != []
    case Unreserve(idx, vtx) => idx <= f.open && idx <= f.idxCount && vtx <= f.vtxCount
    case WriteIdx(k) => f.idxWritten < f.idxCount && f.vtxCurrent + k >= 0
    case WriteVtx(_) => f.vtxWritten < f.vtxCount
    case WriteRect => f.idxWritten + 6 <= f.idxCount && f.vtxWritten + 4 <= f.vtxCount
    case _ => true
  }

  /** When indices name what they are meant to: all vertices reserved before have been passed (as the comment
      at PrimReserve asks), a reservation is small enough for 16 bits, indices are of reserved vertices, a shape
      passes just the vertices it wrote, and only vertices that were not passed are given back. */
  predicate Tidy(f: Frame, s: Setup, op: Op) {
    match op
    case Reserve(_, vtx) =>
      f.vtxBase == f.vtxCount && vtx < INDEX_RANGE && (s.allowVtxOffset || f.vtxCurrent + vtx < INDEX_RANGE)
    case Unreserve(_, vtx) => f.vtxBase + vtx <= f.vtxCount
    case WriteIdx(k) => f.vtxBase + k < f.vtxCount
    case Advance(n) => f.vtxBase + n == f.vtxWritten <= f.vtxCount
    case WriteRect => f.vtxBase == f.vtxWritten
    case _ => true
  }

  /** The vertices the indices of a rectangle are meant to name: two triangles over four corners. */
  function RectCorners(first: nat): (r: seq<nat>)
    ensures |r| == 6
  {
    [first, first + 1, first + 2, first, first + 2, first + 3]
  }

  function Apply(f: Frame, s: Setup, op: Op): Frame
    requires Legal(f, op)
  {
    match op
    case PushClip(r, intersect) =>
      var cr := ClipRect(r, f.header.clip, intersect);
      f.(clips := f.clips + [cr], header := f.header.(clip := cr), open := 0)
    case PopClip =>
      var rest := Init(f.clips);
      f.(clips := rest, header := f.header.(clip := if rest == [] then s.fullscreen else Last(rest)), open := 0)
    case PushTexture(t) =>
      f.(textures := f.textures + [t], header := f.header.(texture := t), open := 0)
    case PopTexture =>
      var rest := Init(f.textures);
      f.(textures := rest, header := f.header.(texture := if rest == [] then 0 else Last(rest)), open := 0)
    case AddCallback(id) =>
      f.(marks := f.marks + [Call(id)], open := 0)
    case Reserve(idx, vtx) =>
      var g := if NewRange(f, s, vtx) then f.(header := f.header.(vtxOffset := f.vtxCount), vtxCurrent := 0) else f;
      g.(marks := g.marks + Repeat(Index(g.header), idx), open := idx,
         idxCount := g.idxCount + idx, vtxCount := g.vtxCount + vtx,
         idxWritten := g.idxCount, vtxWritten := g.vtxCount, vtxBase := g.vtxCount)
    case Unreserve(idx, vtx) =>
      f.(marks := if idx <= |f.marks| then f.marks[..|f.marks| - idx] else [],
         idxCount := f.idxCount - idx, vtxCount := f.vtxCount - vtx, open := f.open - idx,
         intended := map j | j in f.intended && j < f.idxCount - idx :: f.intended[j])
    case WriteIdx(k) =>
      f.(idxWritten := f.idxWritten + 1, intended := f.intended[f.idxWritten := f.vtxBase + k])
    case WriteVtx(_) =>
      f.(vtxWritten := f.vtxWritten + 1)
    case Advance(n) =>
      f.(vtxCurrent := f.vtxCurrent + n % INDEX_RANGE, vtxBase := f.vtxBase + n)
    case WriteRect =>
      f.(idxWritten := f.idxWritten + 6, vtxWritten := f.vtxWritten + 4,
         vtxCurrent := f.vtxCurrent + 4, vtxBase := f.vtxBase + 4,
         intended := Placed(f.intended, f.idxWritten, RectCorners(f.vtxWritten)))
  }

  /** Six entries from position w on. */
  function Placed(m: map<nat, int>, w: nat, v: seq<nat>): map<nat, int>
    requires |v| == 6
  {
    m[w := v[0]][w + 1 := v[1]][w + 2 := v[2]][w + 3 := v[3]][w + 4 := v[4]][w + 5 := v[5]]
  }

  const Start := Frame(Header(Rect(0.0, 0.0, 0.0, 0.0), 0, 0), [], [], [], 0, 0, 0, 0, 0, 0, 0, map[])

  /** Every step of the run is allowed. */
  predicate LegalRun(f: Frame, s: Setup, ops: seq<Op>)
    decreases |ops|
  {
    ops == [] || (Legal(f, ops[0]) && LegalRun(Apply(f, s, ops[0]), s, ops[1..]))
  }

  predicate TidyRun(f: Frame, s: Setup, ops: seq<Op>)
    requires LegalRun(f, s, ops)
    decreases |ops|
  {
    ops == [] || (Tidy(f, s, ops[0]) && TidyRun(Apply(f, s, ops[0]), s, ops[1..]))
  }

  /** A new vertex range begins further on than the one before it. */
  predicate Climbs(f: Frame, s: Setup, op: Op) {
    op.Reserve? && NewRange(f, s, op.vtx) ==> f.header.vtxOffset < f.vtxCount
  }

  predicate ClimbRun(f: Frame, s: Setup, ops: seq<Op>)
    requires LegalRun(f, s, ops)
    decreases |ops|
  {
    ops == [] || (Climbs(f, s, ops[0]) && ClimbRun(Apply(f, s, ops[0]), s, ops[1..]))
  }

  function Run(f: Frame, s: Setup, ops: seq<Op>): Frame
    requires LegalRun(f, s, ops)
    decreases |ops|
  {
    if ops == [] then f else Run(Apply(f, s, ops[0]), s, ops[1..])
  }
}

/** Facts about the reference. */
module PlainFacts {
  import opened DrawCommands
  import opened PlainList

  /** The header shows the tops of both stacks. */
  ghost predicate StacksShown(f: Frame) {
    && (f.clips != [] ==> f.header.clip == Last(f.clips))
    && (f.textures != [] ==> f.header.texture == Last(f.textures))
  }

  lemma {:induction false} RunShowsStacks(f: Frame, s: Setup, ops: seq<Op>)
    requires LegalRun(f, s, ops) && StacksShown(f)
    ensures StacksShown(Run(f, s, ops))
    decreases |ops|
  {
    if ops != [] { RunShowsStacks(Apply(f, s, ops[0]), s, ops[1..]); }
  }

  /** A pop takes back the push before it. */
  lemma PopUndoesPush(f: Frame, s: Setup, r: Rect, intersect: bool, t: nat)
    requires StacksShown(f)
    ensures f.clips != [] ==> Apply(Apply(f, s, PushClip(r, intersect)), s, PopClip) == f.(open := 0)
    ensures f.textures != [] ==> Apply(Apply(f, s, PushTexture(t)), s, PopTexture) == f.(open := 0)
  {
    assert Init(f.clips + [ClipRect(r, f.header.clip, intersect)]) == f.clips;
    assert Init(f.textures + [t]) == f.textures;
  }

  /** Two triangles on a diagonal make up the rectangle: each corner is in one, the ends of the diagonal in both. */
  lemma RectTriangles(first: nat)
    ensures multiset(RectCorners(first)[..3]) == multiset{first, first + 1, first + 2}
    ensures multiset(RectCorners(first)[3..]) == multiset{first, first + 2, first + 3}
  {
    assert RectCorners(first)[..3] == [first, first + 1, first + 2];
    assert RectCorners(first)[3..] == [first, first + 2, first + 3];
  }

  /** What is drawn is never drawn otherwise later on: only indices given back disappear. */
  lemma {:induction false} MarksOnlyGrow(f: Frame, s: Setup, ops: seq<Op>)
    requires LegalRun(f, s, ops)
    requires forall i :: 0 <= i < |ops| ==> !ops[i].Unreserve?
    ensures f.marks <= Run(f, s, ops).marks
    decreases |ops|
  {
    if ops != [] {
      assert forall i :: 0 <= i < |ops[1..]| ==> ops[1..][i] == ops[i + 1];
      MarksOnlyGrow(Apply(f, s, ops[0]), s, ops[1..]);
    }
  }
}
