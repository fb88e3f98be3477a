/** Reconciling one block with its new version: where it stands in the stream, its
    attributes, its characters (src/lib/crdt/adapter.ts). */
module BlockDiff {
  import opened Types
  import opened Visible
  import opened Network
  import opened Edits
  import opened BlockSpots
  import opened Sessions
  import opened Regions
  import opened Rewriting
  import opened Tracking
  import opened Emitting
  import opened CharDiff

  // --------------------------------------------------------------- the live index

  /** blockStarts: each block's delimiter; none for an implicit first block. */
  ghost predicate StartsAre(sp: seq<Spot>, starts: seq<Option<nat>>) {
    && |starts| == (if |Starts(sp)| == 0 then 1 else |Starts(sp)|)
    && starts[0] == (if Explicit(sp) && |Starts(sp)| > 0 then Some(Starts(sp)[0]) else None)
    && (forall k :: 1 <= k < |starts| ==> starts[k] == Some(Starts(sp)[k]))
  }

  ghost predicate LiveFlags(sp: seq<Spot>, streamToLive: seq<int>) {
    |streamToLive| == |sp| && forall i :: 0 <= i < |sp| ==> (streamToLive[i] >= 0 <==> sp[i].live)
  }

  lemma StartsStep(sp: seq<Spot>, x: Spot)
    ensures Starts(sp + [x]) == (if x.live && (|Starts(sp)| == 0 || x.show.kind == Delimiter) then Starts(sp) + [|sp|]
                                 else Starts(sp))
    ensures Shown(sp + [x]) == Shown(sp) + (if x.live then [x.show] else [])
    ensures |Starts(sp)| == 0 <==> |Shown(sp)| == 0
  {
    assert (sp + [x])[..|sp|] == sp;
    StartsCut(sp);
    BlocksEmpty(Shown(sp));
  }

  /** What the next entry of the stream adds to the block starts. */
  lemma StartsAreNext(sp: seq<Spot>, starts: seq<Option<nat>>, x: Spot)
    requires StartsAre(sp, starts)
    ensures !x.live || x.show.kind == Text ==> StartsAre(sp + [x], starts)
    ensures x.live && x.show.kind == Delimiter && Shown(sp) == [] ==> StartsAre(sp + [x], starts[0 := Some(|sp|)])
    ensures x.live && x.show.kind == Delimiter && Shown(sp) != [] ==> StartsAre(sp + [x], starts + [Some(|sp|)])
  {
    hide Starts, Shown;
    StartsStep(sp, x);
  }

  lemma StartsAreNone()
    ensures StartsAre([], [None]) && Shown([]) == []
  {
  }

  /** buildLiveIndex. */
  method BuildLiveIndex(sp: seq<Spot>) returns (streamToLive: seq<int>, starts: seq<Option<nat>>)
    ensures LiveFlags(sp, streamToLive) && StartsAre(sp, starts)
  {
    hide StartsAre, Shown;
    streamToLive, starts := [], [None];
    var lives, i: nat := 0, 0;
    StartsAreNone();
    while i < |sp|
      invariant 0 <= i <= |sp| && lives == |Shown(sp[..i])| && |starts| >= 1
      invariant LiveFlags(sp[..i], streamToLive) && StartsAre(sp[..i], starts)
    {
      assert sp[..i + 1] == sp[..i] + [sp[i]];
      StartsAreNext(sp[..i], starts, sp[i]);
      StartsStep(sp[..i], sp[i]);
      if !sp[i].live {
        streamToLive := streamToLive + [-1];
      } else {
        streamToLive := streamToLive + [lives];
        lives := lives + 1;
        if sp[i].show.kind == Delimiter {
          if lives == 1 {
            starts := starts[0 := Some(i)];
          } else {
            starts := starts + [Some(i)];
          }
        }
      }
      i := i + 1;
    }
    assert sp[..i] == sp;
  }

  /** `blockStarts[k]`, with null and undefined read as the callers do. */
  function StartOr(starts: seq<Option<nat>>, k: nat, beyond: nat): nat {
    if k >= |starts| then beyond else if starts[k].None? then 0 else starts[k].value
  }

  lemma RegionFound(sp: seq<Spot>, starts: seq<Option<nat>>, k: nat)
    requires StartsAre(sp, starts)
    ensures k < |starts| || k > 0 ==> StartOr(starts, k, |sp|) == Region(sp, k)
    ensures k < |Blocks(Shown(sp))| && (k > 0 || Explicit(sp)) ==> k < |starts| && starts[k] == Some(Region(sp, k))
    ensures !Explicit(sp) ==> |starts| > 0 && starts[0] == None
  {
    hide Starts, Shown, Blocks;
    StartsCut(sp);
    BlocksEmpty(Shown(sp));
  }

  // ---------------------------------------------------------------- a block's places

  lemma LivePlacesNext(sp: seq<Spot>, i: int)
    requires 0 <= i < |sp|
    ensures LivePlaces(sp[..i + 1]) == LivePlaces(sp[..i]) + (if sp[i].live then [i] else [])
  {
    assert sp[..i + 1][..i] == sp[..i];
  }

  /** The places of the live items from `at` up to `to`, without the first `head`. */
  function PlacesOf(sp: seq<Spot>, at: nat, to: nat, head: nat): (r: seq<nat>)
    requires at <= to <= |sp|
    ensures |r| == if head <= |Shown(sp[at..to])| then |Shown(sp[at..to])| - head else 0
  {
    var places := LivePlaces(sp[at..to]);
    seq(if head <= |places| then |places| - head else 0,
        c requires 0 <= c && head + c < |places| => at + places[head + c])
  }

  /** Each of them is live, and they show the items one by one. */
  lemma PlacesShow(sp: seq<Spot>, at: nat, to: nat, head: nat, c: nat)
    requires at <= to <= |sp| && c < |PlacesOf(sp, at, to, head)|
    ensures head + c < |Shown(sp[at..to])|
    ensures var i := PlacesOf(sp, at, to, head)[c];
            at <= i < to && sp[i] == Spot(true, Shown(sp[at..to])[head + c])
  {
    hide Shown, LivePlaces;
    PlaceOfRank(sp[at..to], head + c);
  }

  /** blockLiveStreamIndices: the places of the live items from `from` up to `to`. */
  method LiveIndices(streamToLive: seq<int>, from: nat, to: nat, ghost sp: seq<Spot>, ghost at: nat, ghost head: nat)
    returns (indices: seq<nat>)
    requires LiveFlags(sp, streamToLive) && at <= from <= to <= |sp| && |LivePlaces(sp[at..to][..from - at])| == head
    ensures |indices| + head == |LivePlaces(sp[at..to])|
    ensures forall c :: 0 <= c < |indices| ==> indices[c] == at + LivePlaces(sp[at..to])[head + c]
    ensures indices == PlacesOf(sp, at, to, head)
  {
    hide LivePlaces;
    ghost var mid := sp[at..to];
    indices := [];
    var i := from;
    while i < to
      invariant from <= i <= to && |indices| + head == |LivePlaces(mid[..i - at])|
      invariant forall c :: 0 <= c < |indices| ==> indices[c] == at + LivePlaces(mid[..i - at])[head + c]
    {
      LivePlacesNext(mid, i - at);
      if streamToLive[i] >= 0 {
        indices := indices + [i];
      }
      i := i + 1;
    }
    assert mid[..i - at] == mid;
  }

  /** A region that opens with its live delimiter. */
  lemma HeadPlace(mid: seq<Spot>)
    requires |mid| > 0 && mid[0].live
    ensures |LivePlaces(mid[..1])| == 1 && |LivePlaces(mid)| > 0 && LivePlaces(mid)[0] == 0
  {
    assert mid[..1] == [mid[0]] && [mid[0]][..0] == [];
    FirstLive(mid);
  }

  lemma {:induction false} FirstLive(mid: seq<Spot>)
    requires |mid| > 0 && mid[0].live
    ensures |LivePlaces(mid)| > 0 && LivePlaces(mid)[0] == 0
  {
    if |mid| > 1 { FirstLive(mid[..|mid| - 1]); } else { assert mid[..0] == []; }
  }

  // ------------------------------------------------------------------- attributes

  /** The visible type and attributes of a block delimiter. */
  ghost predicate Opens(x: Live, block: VisibleBlock) {
    x.kind == Delimiter && Opened(x) == block.(chars := [])
  }

  lemma OpensHolds(x: Live, was: VisibleBlock, goal: VisibleBlock)
    requires Opens(x, was) && TYPE_NAME !in was.attrs && TYPE_NAME !in goal.attrs
    ensures forall name :: name in was.attrs.Keys + goal.attrs.Keys ==> Holds(x.attrs, was.attrs, name)
  {
    assert x.attrs - {TYPE_NAME} == was.attrs;
    forall name | name in was.attrs.Keys + goal.attrs.Keys ensures Holds(x.attrs, was.attrs, name) {
      assert name in x.attrs - {TYPE_NAME} <==> name in was.attrs;
    }
  }

  lemma OpensType(x: Live, was: VisibleBlock, goal: VisibleBlock)
    requires Opens(x, was) || Opens(x, was.(blockType := goal.blockType))
    ensures var y := if was.blockType != goal.blockType then x.(attrs := x.attrs[TYPE_NAME := goal.blockType]) else x;
            Opens(y, was.(blockType := goal.blockType))
  {
    assert x.attrs[TYPE_NAME := goal.blockType] - {TYPE_NAME} == x.attrs - {TYPE_NAME};
  }

  lemma OpensAttrs(x: Live, was: VisibleBlock, goal: VisibleBlock)
    requires Opens(x, was) && was.blockType == goal.blockType && TYPE_NAME !in was.attrs && TYPE_NAME !in goal.attrs
    ensures Opens(x.(attrs := Changed(x.attrs, was.attrs, goal.attrs)), goal)
  {
    var y := Changed(x.attrs, was.attrs, goal.attrs);
    assert x.attrs - {TYPE_NAME} == was.attrs;
    assert y - {TYPE_NAME} == goal.attrs;
    assert TYPE_NAME in y <==> TYPE_NAME in x.attrs;
  }

  predicate WritableHead(reg: Registry, block: VisibleBlock) {
    TYPE_NAME !in block.attrs && reg.values(Delimiter, TYPE_NAME, block.blockType)
      && AllowsAll(reg, Delimiter, block.attrs)
  }

  predicate NamedHead(reg: Registry, block: VisibleBlock) {
    TYPE_NAME !in block.attrs && NamesAll(reg, Delimiter, block.attrs)
  }

  predicate HeadChanged(was: VisibleBlock, goal: VisibleBlock) {
    was.blockType != goal.blockType || was.attrs != goal.attrs
  }

  function TypeMarks(was: VisibleBlock, goal: VisibleBlock): nat {
    if was.blockType != goal.blockType then 1 else 0
  }

  /** The type, if it changes, and the attributes that do. */
  function HeadMarks(was: VisibleBlock, goal: VisibleBlock): nat {
    TypeMarks(was, goal) + |Differing(was.attrs, goal.attrs)|
  }

  /** What a kept block takes; `bare` when it has no delimiter in the stream. */
  function BlockWork(was: VisibleBlock, goal: VisibleBlock, bare: bool): Work {
    Work(0, 0, if bare && HeadChanged(was, goal) then 1 else 0, HeadMarks(was, goal)).Plus(
      CharsWork(was.chars, goal.chars))
  }

  /** The delimiter that was at `i` is still there, and opens the new block. */
  ghost predicate HeadStands(ops: seq<Edit>, spots: seq<Spot>, i: nat, goal: VisibleBlock) {
    Moved(ops, i) < |spots| && spots[Moved(ops, i)].live && Opens(spots[Moved(ops, i)].show, goal)
  }

  /** The write that gives a delimiter its new type. */
  method PushType(ghost reg: Registry, ghost orig: seq<Spot>, ops0: seq<Edit>, was: VisibleBlock, goal: VisibleBlock,
                  position: nat, ghost spots: seq<Spot>, ghost x: Live)
      returns (ops: seq<Edit>, ghost y: Live)
    requires Consistent(reg) && WritableHead(reg, goal)
    requires Opens(x, was) || Opens(x, was.(blockType := goal.blockType))
    requires Emits(reg, orig, ops0, spots) && position < |spots| && spots[position] == Spot(true, x)
    ensures Opens(y, was.(blockType := goal.blockType)) && Emits(reg, orig, ops, spots[position := Spot(true, y)])
    ensures Adds(ops0, ops, Remarking(TypeMarks(was, goal)), position)
  {
    hide Adds, Emits, Consistent, Playable, Play, Opens, AllowsAll;
    ops, y := ops0, x;
    OpensType(x, was, goal);
    OpensKind(x, was, goal);
    if was.blockType != goal.blockType {
      var e := Mark(position, TYPE_NAME, Some(goal.blockType));
      MarkOk(reg, spots, position, x, TYPE_NAME, Some(goal.blockType));
      Emit(reg, orig, ops, spots, e);
      AddsOne(ops, e);
      ops := ops + [e];
      y := x.(attrs := x.attrs[TYPE_NAME := goal.blockType]);
    } else {
      AddsNothing(ops, position);
      assert spots[position := Spot(true, x)] == spots;
    }
  }

  /** The writes that give a delimiter its new type and attributes. */
  method PushHead(ghost reg: Registry, ghost orig: seq<Spot>, ops0: seq<Edit>, was: VisibleBlock, goal: VisibleBlock,
                  position: nat, ghost spots: seq<Spot>, ghost x: Live)
      returns (ops: seq<Edit>, ghost y: Live)
    requires Consistent(reg) && WritableHead(reg, goal) && NamedHead(reg, was)
    requires Opens(x, was) || Opens(x, was.(blockType := goal.blockType))
    requires Emits(reg, orig, ops0, spots) && position < |spots| && spots[position] == Spot(true, x)
    ensures Opens(y, goal) && Emits(reg, orig, ops, spots[position := Spot(true, y)])
    ensures Adds(ops0, ops, Remarking(HeadMarks(was, goal)), position)
  {
    hide Adds, Differing, Emits, Consistent, Opens, Changed, AllowsAll, NamesAll, Holds, HeadMarks, TypeMarks;
    ops, y := PushType(reg, orig, ops0, was, goal, position, spots, x);
    ghost var mid := was.(blockType := goal.blockType);
    OpensKind(y, mid, goal);
    OpensHolds(y, mid, goal);
    OpensAttrs(y, mid, goal);
    ghost var ops1, now := ops, spots[position := Spot(true, y)];
    ops := PushChanges(reg, orig, ops, position, was.attrs, goal.attrs, now, y);
    y := y.(attrs := Changed(y.attrs, was.attrs, goal.attrs));
    assert now[position := Spot(true, y)] == spots[position := Spot(true, y)];
    HeadAdds(ops0, ops1, ops, was, goal, position);
  }

  lemma HeadAdds(ops0: seq<Edit>, ops1: seq<Edit>, ops2: seq<Edit>, was: VisibleBlock, goal: VisibleBlock,
                 position: nat)
    requires Adds(ops0, ops1, Remarking(TypeMarks(was, goal)), position)
    requires Adds(ops1, ops2, Remarking(|Differing(was.attrs, goal.attrs)|), position)
    ensures Adds(ops0, ops2, Remarking(HeadMarks(was, goal)), position)
  {
    hide Adds, Differing, TypeMarks;
    AddsThen(ops0, ops1, ops2, Remarking(TypeMarks(was, goal)), Remarking(|Differing(was.attrs, goal.attrs)|),
             position);
  }

  lemma OpensKind(x: Live, was: VisibleBlock, goal: VisibleBlock)
    requires Opens(x, was) || Opens(x, was.(blockType := goal.blockType))
    ensures x.kind == Delimiter
  {
  }

  // ---------------------------------------------------------------------- one block

  /** An old block as the stream shows it: its names are registered. */
  predicate NamedBlock(reg: Registry, block: VisibleBlock) {
    NamedHead(reg, block) && NamedChars(reg, block.chars)
  }

  lemma WritableParts(reg: Registry, block: VisibleBlock)
    requires Writable(reg, block)
    ensures WritableHead(reg, block) && WritableChars(reg, block.chars)
  {
  }

  /** The region of a block with its delimiter rewritten. */
  lemma {:induction false} HeadRewritten(mid: seq<Spot>, x: Live, y: Live, bc: seq<VisibleChar>)
    requires |mid| > 0 && mid[0].live && Shown(mid) == [x] + FlatChars(bc)
    ensures mid[0] == Spot(true, x)
    ensures |Shown(mid)| == |Kept([y] + FlatChars(bc))|
    ensures mid[0 := Spot(true, y)] == Rewritten(mid, Kept([y] + FlatChars(bc)))
  {
    hide Shown, Rewritten, FlatChars;
    RewrittenSame(mid);
    ShownHead(mid, 0);
    assert mid[0..] == mid;
    RankNone(mid);
    RewriteAt(mid, Kept(Shown(mid)), 0, Some(y));
    assert Kept(Shown(mid))[0 := Some(y)] == Kept([y] + FlatChars(bc));
  }

  lemma RankNone(mid: seq<Spot>)
    ensures LiveRank(mid, 0) == 0
  {
    assert mid[..0] == [];
  }

  lemma OneBlockOf(y: Live, goal: VisibleBlock, lives: seq<Live>)
    requires Opens(y, goal) && lives == [y] + FlatChars(goal.chars)
    ensures OneBlock(lives, goal)
  {
    assert lives[1..] == FlatChars(goal.chars);
  }

  lemma OneBlockParts(lives: seq<Live>, block: VisibleBlock) returns (x: Live)
    requires OneBlock(lives, block)
    ensures Opens(x, block) && lives == [x] + FlatChars(block.chars)
  {
    x := lives[0];
    assert lives == [lives[0]] + lives[1..];
  }

  /** A block with its delimiter in the stream. */
  method ReconcileExplicit(ghost reg: Registry, sp: seq<Spot>, ops0: seq<Edit>, streamToLive: seq<int>,
                           was: VisibleBlock, goal: VisibleBlock, start: nat, end: nat, shift0: nat,
                           ghost done: seq<Spot>)
    returns (ops: seq<Edit>, shift: nat, ghost piece: seq<Spot>)
    requires Consistent(reg) && Writable(reg, goal) && NamedBlock(reg, was) && LiveFlags(sp, streamToLive)
    requires start < end <= |sp| && sp[start].live && OneBlock(Shown(sp[start..end]), was)
    requires Emits(reg, sp, ops0, done + sp[start..]) && |done| == start + shift0 && Follows(ops0, start, shift0)
    ensures Emits(reg, sp, ops, done + piece + sp[end..]) && |done| + |piece| == end + shift
    ensures OneBlock(Shown(piece), goal)
    ensures WorkOf(ops) == WorkOf(ops0).Plus(BlockWork(was, goal, false))
    ensures Follows(ops, end, shift) && Steady(ops0, ops, |done|)
    ensures HeadStands(ops, done + piece, start, goal) && |PlacesOf(sp, start, end, 1)| == |was.chars|
    ensures CharsStand(ops, done + piece, PlacesOf(sp, start, end, 1), was.chars, goal.chars)
  {
    hide Adds, Follows, Steady, Stands, WorkOf, CharsStand, CharsWork, HeadMarks, Moved, PlacesOf, Emits, Consistent,
         Writable, WritableHead, WritableChars, NamedHead, NamedChars, LiveFlags, OneBlock, Opens, Shown, LivePlaces,
         Rewritten, FlatChars;
    ghost var mid, tail := sp[start..end], sp[end..];
    assert sp[start..] == mid + tail;
    assert done + sp[start..] == done + mid + tail;
    ghost var x := OneBlockParts(Shown(mid), was);
    HeadRewritten(mid, x, x, was.chars);
    WritableParts(reg, goal);
    ghost var y;
    ops, y := PushHead(reg, sp, ops0, was, goal, start + shift0, done + mid + tail, x);
    HeadRewritten(mid, x, y, was.chars);
    AddsStill(ops0, ops, Remarking(HeadMarks(was, goal)), start + shift0, |done|);
    ghost var ops1 := ops;
    assert (done + mid + tail)[|done| := Spot(true, y)] == done + mid[0 := Spot(true, y)] + tail;
    HeadPlace(mid);
    assert mid[..start + 1 - start] == mid[..1];
    var indices := LiveIndices(streamToLive, start + 1, end, sp, start, 1);
    FrameIs(mid, 1, was.chars, start, indices, start + 1, x);
    ops, shift, piece := ReconcileBlockChars(reg, sp, ops, was.chars, goal.chars, indices, start + 1, shift0, done,
                                             mid, tail, start, [y]);
    OneBlockOf(y, goal, Shown(piece));
    SteadyThen(ops0, ops1, ops, |done|, |done|);
    HeadStandsBy(ops, done + piece, start, y, goal);
  }

  lemma HeadStandsBy(ops: seq<Edit>, spots: seq<Spot>, i: nat, y: Live, goal: VisibleBlock)
    requires Stands(ops, spots, i, y) && Opens(y, goal)
    ensures HeadStands(ops, spots, i, goal)
  {
  }

  lemma FrameIs(mid: seq<Spot>, head: nat, bc: seq<VisibleChar>, at: nat, indices: seq<nat>, contentStart: nat, x: Live)
    requires if head == 1 then
               Shown(mid) == [x] + FlatChars(bc) && |LivePlaces(mid)| > 0 && contentStart == at + LivePlaces(mid)[0] + 1
             else head == 0 && Shown(mid) == FlatChars(bc) && contentStart == at
    requires |indices| + head == |LivePlaces(mid)| && forall c :: 0 <= c < |indices| ==>
               indices[c] == at + LivePlaces(mid)[head + c]
    ensures Frame(mid, head, bc, at, indices, contentStart)
  {
    hide Shown, LivePlaces;
  }

  /** An implicit first block.  A delimiter is written for it only when its type or
      an attribute changes. */
  method ReconcileImplicit(ghost reg: Registry, sp: seq<Spot>, ops0: seq<Edit>, streamToLive: seq<int>,
                           was: VisibleBlock, goal: VisibleBlock, end: nat, shift0: nat, ghost done: seq<Spot>)
    returns (ops: seq<Edit>, shift: nat, ghost piece: seq<Spot>)
    requires Consistent(reg) && Writable(reg, goal) && NamedBlock(reg, was) && LiveFlags(sp, streamToLive)
    requires end <= |sp| && Shown(sp[0..end]) == FlatChars(was.chars) && was.(chars := []) == DEFAULT_BLOCK
    requires Emits(reg, sp, ops0, done + sp) && |done| == shift0 && Follows(ops0, 0, shift0)
    ensures Emits(reg, sp, ops, done + piece + sp[end..]) && |done| + |piece| == end + shift
    ensures WorkOf(ops) == WorkOf(ops0).Plus(BlockWork(was, goal, true))
    ensures Follows(ops, end, shift) && Steady(ops0, ops, |done|) && |PlacesOf(sp, 0, end, 0)| == |was.chars|
    ensures CharsStand(ops, done + piece, PlacesOf(sp, 0, end, 0), was.chars, goal.chars)
    ensures if HeadChanged(was, goal) then OneBlock(Shown(piece), goal) else Shown(piece) == FlatChars(goal.chars)
  {
    hide Adds, Follows, Steady, Stands, WorkOf, CharsStand, CharsWork, HeadMarks, Moved, PlacesOf, Emits, Consistent,
         Writable, WritableHead, WritableChars, NamedHead, NamedChars, LiveFlags, OneBlock, Opens, Shown, LivePlaces,
         Rewritten, FlatChars;
    ghost var mid, tail := sp[0..end], sp[end..];
    assert sp == mid + tail;
    WritableParts(reg, goal);
    ghost var front, y;
    ops, shift, front, y := OpenImplicit(reg, sp, ops0, was, goal, shift0, done);
    ghost var ops1, before := ops, done + front;
    assert before + sp == before + mid + tail;
    assert [] + FlatChars(was.chars) == FlatChars(was.chars);
    RewrittenSame(mid);
    NoPlaces(mid);
    assert mid[..0 - 0] == mid[..0];
    var indices := LiveIndices(streamToLive, 0, end, sp, 0, 0);
    FrameIs(mid, 0, was.chars, 0, indices, 0, y);
    ghost var rest;
    ops, shift, rest := ReconcileBlockChars(reg, sp, ops, was.chars, goal.chars, indices, 0, shift, before, mid, tail,
                                            0, []);
    piece := front + rest;
    assert before + rest == done + piece;
    SteadyThen(ops0, ops1, ops, |done|, |before|);
    assert [] + FlatChars(goal.chars) == FlatChars(goal.chars);
    ImplicitShows(front, rest, y, was, goal);
  }

  lemma ImplicitShows(front: seq<Spot>, rest: seq<Spot>, y: Live, was: VisibleBlock, goal: VisibleBlock)
    requires if HeadChanged(was, goal) then front == [Spot(true, y)] && Opens(y, goal) else front == []
    requires Shown(rest) == FlatChars(goal.chars)
    ensures if HeadChanged(was, goal) then OneBlock(Shown(front + rest), goal)
            else Shown(front + rest) == FlatChars(goal.chars)
  {
    hide OneBlock, Opens, Shown, FlatChars;
    if HeadChanged(was, goal) {
      ShownOne(y, rest);
      OneBlockOf(y, goal, Shown(front + rest));
    } else {
      assert front + rest == rest;
    }
  }

  lemma OpenAdds(ops0: seq<Edit>, ops: seq<Edit>, marks: nat, shift: nat)
    requires Adds(ops0, ops, Work(0, 0, 1, marks), shift) && Follows(ops0, 0, shift)
    ensures WorkOf(ops) == WorkOf(ops0).Plus(Work(0, 0, 1, marks))
    ensures Follows(ops, 0, shift + 1) && Steady(ops0, ops, shift)
  {
    hide Adds, Follows, Steady, WorkOf;
    AddsInside(ops0, ops, Work(0, 0, 1, marks), shift, 0, 0, 0, shift);
    AddsWork(ops0, ops, Work(0, 0, 1, marks), shift);
  }

  lemma SteadySame(ops: seq<Edit>, n: nat)
    ensures Steady(ops, ops, n) && WorkOf(ops) == WorkOf(ops).Plus(NO_WORK)
  {
    hide Moved, WorkOf;
  }

  /** A changed implicit block gets its delimiter first. */
  method OpenImplicit(ghost reg: Registry, ghost sp: seq<Spot>, ops0: seq<Edit>, was: VisibleBlock, goal: VisibleBlock,
                      shift0: nat, ghost done: seq<Spot>)
    returns (ops: seq<Edit>, shift: nat, ghost front: seq<Spot>, ghost y: Live)
    requires Consistent(reg) && WritableHead(reg, goal) && NamedHead(reg, was) && was.(chars := []) == DEFAULT_BLOCK
    requires Emits(reg, sp, ops0, done + sp) && |done| == shift0 && Follows(ops0, 0, shift0)
    ensures Emits(reg, sp, ops, done + front + sp) && |done| + |front| == shift
    ensures if HeadChanged(was, goal) then front == [Spot(true, y)] && Opens(y, goal) else front == []
    ensures WorkOf(ops) == WorkOf(ops0).Plus(Work(0, 0, if HeadChanged(was, goal) then 1 else 0, HeadMarks(was, goal)))
    ensures Follows(ops, 0, shift) && Steady(ops0, ops, |done|)
  {
    hide Adds, Follows, Steady, WorkOf, HeadMarks, Emits, Consistent, WritableHead, NamedHead, Opens;
    ops, shift, front, y := ops0, shift0, [], Live(Delimiter, 0, map[]);
    if HeadChanged(was, goal) {
      ops, y := Materialise(reg, sp, ops0, was, goal, 0 + shift0, done);
      shift := shift0 + 1;
      front := [Spot(true, y)];
      OpenAdds(ops0, ops, HeadMarks(was, goal), shift0);
    } else {
      HeadSame(was, goal);
      SteadySame(ops, |done|);
      assert done + front == done;
    }
  }

  lemma HeadSame(was: VisibleBlock, goal: VisibleBlock)
    requires !HeadChanged(was, goal)
    ensures HeadMarks(was, goal) == 0
  {
    NoneDiffer(was.attrs);
  }

  lemma NoPlaces(mid: seq<Spot>)
    ensures |LivePlaces(mid[..0])| == 0
  {
  }

  lemma ShownOne(y: Live, rest: seq<Spot>)
    ensures Shown([Spot(true, y)] + rest) == [y] + Shown(rest)
  {
    ShownConcat([Spot(true, y)], rest);
    assert [Spot(true, y)][..0] == [];
  }

  /** Write the delimiter the implicit block lacks, with its type and attributes. */
  method Materialise(ghost reg: Registry, ghost sp: seq<Spot>, ops0: seq<Edit>, was: VisibleBlock, goal: VisibleBlock,
                     anchor: nat, ghost done: seq<Spot>)
    returns (ops: seq<Edit>, ghost y: Live)
    requires Consistent(reg) && WritableHead(reg, goal) && NamedHead(reg, was) && was.(chars := []) == DEFAULT_BLOCK
    requires Emits(reg, sp, ops0, done + sp) && anchor == |done|
    ensures Opens(y, goal) && Emits(reg, sp, ops, done + [Spot(true, y)] + sp)
    ensures Adds(ops0, ops, Work(0, 0, 1, HeadMarks(was, goal)), anchor)
  {
    hide Adds, HeadMarks, Emits, Consistent, NamedHead, Playable, Play, Written;
    ghost var d := Live(Delimiter, 0, map[TYPE_NAME := goal.blockType]);
    WrittenAt(done, [], sp);
    WrittenAt(done, [d], sp);
    DelimiterPlayable(reg, done, [], sp, goal.blockType);
    var e := TypeDelimiter(anchor, goal.blockType);
    Emit(reg, sp, ops0, done + sp, e);
    assert [] + [d] == [d];
    FreshOpens(goal.blockType, was);
    ghost var spots := done + [Spot(true, d)] + sp;
    ops, y := PushHead(reg, sp, ops0 + [e], was, goal, anchor, spots, d);
    assert spots[anchor := Spot(true, y)] == done + [Spot(true, y)] + sp;
    AddsOne(ops0, e);
    AddsAnywhere(ops0 + [e], ops, Remarking(HeadMarks(was, goal)), anchor, anchor + 1);
    AddsThen(ops0, ops0 + [e], ops, Work(0, 0, 1, 0), Remarking(HeadMarks(was, goal)), anchor);
  }

  lemma FreshOpens(blockType: Bytes, was: VisibleBlock)
    requires was.(chars := []) == DEFAULT_BLOCK
    ensures Opens(Live(Delimiter, 0, map[TYPE_NAME := blockType]), was.(blockType := blockType))
  {
    assert map[TYPE_NAME := blockType] - {TYPE_NAME} == map[];
  }

  lemma WrittenAt(done: seq<Spot>, lives: seq<Live>, sp: seq<Spot>)
    requires |lives| <= 1
    ensures Written(done, lives, sp) == if |lives| == 0 then done + sp else done + [Spot(true, lives[0])] + sp
  {
    if |lives| == 0 {
      assert LiveSpots(lives) == [];
    } else {
      assert LiveSpots(lives) == [Spot(true, lives[0])];
    }
  }
}
