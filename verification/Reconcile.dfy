/** Editor reconciliation (src/lib/crdt/adapter.ts): the edits that turn the visible
    document into the editor's, and exactly when replaying them does so. */
module Reconcile {
  import opened Types
  import opened Visible
  import opened Network
  import opened Edits
  import opened BlockSpots
  import opened Sessions
  import opened Regions
  import opened Tracking
  import opened Emitting
  import opened CharDiff
  import opened BlockDiff
  import opened BlockMatch

  /** The first block has no delimiter, none is written for it, and so it runs into
      the blocks put before it, or vanishes before the ones that follow it. */
  predicate Lost(sp: seq<Spot>, before: seq<VisibleBlock>, after: seq<VisibleBlock>) {
    var at := KeptAs(before, after, 0);
    && !Explicit(sp) && at.Some? && |after| > 1
    && !HeadChanged(before[0], after[at.value]) && (at.value > 0 || |after[0].chars| == 0)
  }

  /** The old blocks are the visible content of the stream; a blank stream may be
      given as no block or as its one default block. */
  ghost predicate ContentOf(sp: seq<Spot>, before: seq<VisibleBlock>) {
    before == Blocks(Shown(sp)) || before == Document(Shown(sp))
  }

  // ------------------------------------------------------------------- bookkeeping

  /** After the edits so far the stream is `done` and then the rest from `at` on. */
  ghost predicate Progress(reg: Registry, sp: seq<Spot>, ops: seq<Edit>, done: seq<Spot>, at: nat, shift: nat) {
    at <= |sp| && Emits(reg, sp, ops, done + sp[at..]) && |done| == at + shift && Follows(ops, at, shift)
  }

  /** What is done shows the first `n` new blocks, or one block fewer for good. */
  ghost predicate Tally(done: seq<Spot>, after: seq<VisibleBlock>, n: nat, short: bool) {
    n <= |after| && if short then |Blocks(Shown(done))| + 1 == n && (|after| == 1 ==> after == [DEFAULT_BLOCK])
                    else Blocks(Shown(done)) == after[..n]
  }

  /** A block on its own is added. */
  lemma TallyBlock(done: seq<Spot>, piece: seq<Spot>, after: seq<VisibleBlock>, n: nat, short: bool)
    requires Tally(done, after, n, short) && n < |after|
    requires Headed(Shown(piece)) && Blocks(Shown(piece)) == [after[n]]
    ensures Tally(done + piece, after, n + 1, short)
  {
    hide Blocks, Shown;
    ShownConcat(done, piece);
    BlocksJoin(Shown(done), Shown(piece));
  }

  /** Nothing visible is added. */
  lemma TallyNothing(done: seq<Spot>, piece: seq<Spot>, after: seq<VisibleBlock>, n: nat, short: bool)
    requires Tally(done, after, n, short) && Shown(piece) == []
    ensures Tally(done + piece, after, n, short)
  {
    hide Blocks, Shown;
    ShownConcat(done, piece);
    assert Shown(done) + [] == Shown(done);
  }

  /** The characters of a block without delimiter are added. */
  lemma TallyText(done: seq<Spot>, piece: seq<Spot>, after: seq<VisibleBlock>, n: nat)
    requires Tally(done, after, n, false) && n < |after|
    requires Shown(piece) == FlatChars(after[n].chars) && after[n].(chars := []) == DEFAULT_BLOCK
    ensures Tally(done + piece, after, n + 1, n > 0 || |after[n].chars| == 0)
  {
    hide Blocks, Shown, FlatChars;
    ShownConcat(done, piece);
    BlocksEmpty(Shown(done));
    BlocksEmpty(Shown(done) + Shown(piece));
    if |after[n].chars| == 0 {
      NoFlat();
      assert Shown(done) + [] == Shown(done);
    } else {
      TextShows(after[n].chars);
      TextFirst(after[n].chars);
      if n == 0 {
        assert [] + Shown(piece) == Shown(piece);
        assert after[..1] == [after[0]];
      } else {
        TextSwallowed(Shown(done), Shown(piece));
      }
    }
  }

  lemma TextFirst(chars: seq<VisibleChar>)
    requires |chars| > 0
    ensures |FlatChars(chars)| > 0 && FlatChars(chars)[0].kind == Text
  {
  }

  lemma OneBlockHeaded(lives: seq<Live>, block: VisibleBlock)
    requires OneBlock(lives, block)
    ensures Headed(lives) && Blocks(lives) == [block]
  {
    OneBlockShows(lives, block);
  }

  // -------------------------------------------------------------------- kept blocks

  predicate Stays(sp: seq<Spot>, before: seq<VisibleBlock>, after: seq<VisibleBlock>, k: nat, n: nat)
    requires k < |before| && n < |after|
  {
    k == 0 && !Explicit(sp) && !HeadChanged(before[0], after[n]) && (n > 0 || |after[0].chars| == 0)
  }

  /** Old block `k` is still there as `goal`: its delimiter, if it has one, and the
      characters of the common ends, each under the identity it had. */
  ghost predicate BlockStands(sp: seq<Spot>, ops: seq<Edit>, spots: seq<Spot>, was: VisibleBlock, goal: VisibleBlock,
                              k: nat)
  {
    var head := if k > 0 || Explicit(sp) then 1 else 0;
    && Region(sp, k) <= Region(sp, k + 1) <= |sp|
    && |PlacesOf(sp, Region(sp, k), Region(sp, k + 1), head)| == |was.chars|
    && (head == 1 ==> HeadStands(ops, spots, Region(sp, k), goal))
    && CharsStand(ops, spots, PlacesOf(sp, Region(sp, k), Region(sp, k + 1), head), was.chars, goal.chars)
  }

  /** What comes later does not touch it. */
  lemma BlockStandsOn(sp: seq<Spot>, ops0: seq<Edit>, ops: seq<Edit>, spots: seq<Spot>, more: seq<Spot>,
                      was: VisibleBlock, goal: VisibleBlock, k: nat)
    requires BlockStands(sp, ops0, spots, was, goal, k) && Steady(ops0, ops, |spots|)
    ensures BlockStands(sp, ops, spots + more, was, goal, k)
  {
    hide Explicit, Region, PlacesOf, Stands, Moved, Front, Back, HeadStands;
    var head := if k > 0 || Explicit(sp) then 1 else 0;
    var places := PlacesOf(sp, Region(sp, k), Region(sp, k + 1), head);
    var bc, ac := was.chars, goal.chars;
    if head == 1 { HeadStandsOn(ops0, ops, spots, more, Region(sp, k), goal); }
    forall c | 0 <= c < Front(bc, ac) ensures Stands(ops, spots + more, places[c], CharLive(ac[c])) {
      StandsOn(ops0, ops, spots, more, places[c], CharLive(ac[c]));
    }
    forall c | |bc| - Back(bc, ac) <= c < |bc|
      ensures Stands(ops, spots + more, places[c], CharLive(ac[|ac| - |bc| + c]))
    {
      StandsOn(ops0, ops, spots, more, places[c], CharLive(ac[|ac| - |bc| + c]));
    }
  }

  lemma HeadStandsOn(ops0: seq<Edit>, ops: seq<Edit>, spots: seq<Spot>, more: seq<Spot>, i: nat, goal: VisibleBlock)
    requires HeadStands(ops0, spots, i, goal) && Steady(ops0, ops, |spots|)
    ensures HeadStands(ops, spots + more, i, goal)
  {
    hide Moved, Opens;
  }

  /** A run of kept blocks: old block k0 + i is there as new block n0 + i. */
  ghost predicate RunStands(sp: seq<Spot>, ops: seq<Edit>, spots: seq<Spot>, before: seq<VisibleBlock>,
                            after: seq<VisibleBlock>, k0: nat, n0: nat, count: nat)
    requires k0 + count <= |before| && n0 + count <= |after|
  {
    forall k :: k0 <= k < k0 + count ==> BlockStands(sp, ops, spots, before[k], after[n0 - k0 + k], k)
  }

  lemma RunStandsOn(sp: seq<Spot>, ops0: seq<Edit>, ops: seq<Edit>, spots: seq<Spot>, longer: seq<Spot>,
                    before: seq<VisibleBlock>, after: seq<VisibleBlock>, k0: nat, n0: nat, count: nat)
    requires k0 + count <= |before| && n0 + count <= |after| && spots <= longer
    requires RunStands(sp, ops0, spots, before, after, k0, n0, count) && Steady(ops0, ops, |spots|)
    ensures RunStands(sp, ops, longer, before, after, k0, n0, count)
  {
    hide BlockStands, Steady;
    assert longer == spots + longer[|spots|..];
    forall k | k0 <= k < k0 + count ensures BlockStands(sp, ops, longer, before[k], after[n0 - k0 + k], k) {
      BlockStandsOn(sp, ops0, ops, spots, longer[|spots|..], before[k], after[n0 - k0 + k], k);
    }
  }

  /** What the stream holds for old block `k`. */
  lemma BlockLives(sp: seq<Spot>, before: seq<VisibleBlock>, k: nat)
    requires ContentOf(sp, before) && k < |before|
    ensures Region(sp, k) <= Region(sp, k + 1) <= |sp|
    ensures k > 0 || Explicit(sp) ==>
              && Region(sp, k) < Region(sp, k + 1) && sp[Region(sp, k)].live
              && OneBlock(Shown(sp[Region(sp, k)..Region(sp, k + 1)]), before[k])
    ensures !(k > 0 || Explicit(sp)) ==>
              && Region(sp, 0) == 0 && Shown(sp[0..Region(sp, 1)]) == FlatChars(before[0].chars)
              && before[0].(chars := []) == DEFAULT_BLOCK
  {
    hide Blocks, Shown, OneBlock, FlatChars;
    ContentLength(sp, before);
    RegionsAscend(sp, k);
    if k > 0 || Explicit(sp) {
      RegionShows(sp, k);
    } else if |Shown(sp)| > 0 {
      FirstRegionShows(sp);
    } else {
      BlankRegion(sp);
      NoFlat();
    }
  }

  /** And where the index finds it. */
  lemma BlockThere(sp: seq<Spot>, before: seq<VisibleBlock>, starts: seq<Option<nat>>, k: nat)
    requires ContentOf(sp, before) && StartsAre(sp, starts) && k < |before|
    ensures Region(sp, k) <= Region(sp, k + 1) <= |sp| && StartOr(starts, k + 1, |sp|) == Region(sp, k + 1)
    ensures k > 0 || Explicit(sp) ==>
              && k < |starts| && starts[k] == Some(Region(sp, k)) && Region(sp, k) < Region(sp, k + 1)
              && sp[Region(sp, k)].live
              && OneBlock(Shown(sp[Region(sp, k)..Region(sp, k + 1)]), before[k])
    ensures !(k > 0 || Explicit(sp)) ==>
              && |starts| > 0 && starts[0] == None && Region(sp, 0) == 0
              && Shown(sp[0..Region(sp, 1)]) == FlatChars(before[0].chars) && before[0].(chars := []) == DEFAULT_BLOCK
  {
    hide Blocks, Shown, OneBlock, StartsAre, FlatChars, Region;
    ContentLength(sp, before);
    BlockLives(sp, before, k);
    RegionFound(sp, starts, k);
    RegionFound(sp, starts, k + 1);
  }

  lemma ContentLength(sp: seq<Spot>, before: seq<VisibleBlock>)
    requires ContentOf(sp, before)
    ensures |Shown(sp)| > 0 ==> before == Blocks(Shown(sp)) && |before| > 0
    ensures |Shown(sp)| == 0 ==> (before == [] || before == [DEFAULT_BLOCK]) && !Explicit(sp)
  {
    BlocksEmpty(Shown(sp));
  }

  lemma BlankRegion(sp: seq<Spot>)
    requires |Shown(sp)| == 0
    ensures Region(sp, 0) == 0 && Region(sp, 1) == |sp| && Shown(sp[0..Region(sp, 1)]) == []
  {
    hide Blocks, Shown;
    StartsCut(sp);
    BlocksEmpty(Shown(sp));
    assert sp[0..|sp|] == sp;
  }

  /** reconcileBlockAttrs and reconcileBlockChars for one kept block. */
  method ReconcileBlock(ghost reg: Registry, sp: seq<Spot>, ops0: seq<Edit>, streamToLive: seq<int>,
                        starts: seq<Option<nat>>, before: seq<VisibleBlock>, after: seq<VisibleBlock>, k: nat, n: nat,
                        shift0: nat, ghost done0: seq<Spot>, ghost short0: bool)
    returns (ops: seq<Edit>, shift: nat, ghost done: seq<Spot>)
    requires Consistent(reg) && LiveFlags(sp, streamToLive) && StartsAre(sp, starts) && ContentOf(sp, before)
    requires k < |before| && n < |after| && Writable(reg, after[n]) && NamedBlock(reg, before[k])
    requires Progress(reg, sp, ops0, done0, Region(sp, k), shift0) && Tally(done0, after, n, short0)
    requires k == 0 && !Explicit(sp) ==> !short0
    ensures Progress(reg, sp, ops, done, Region(sp, k + 1), shift)
    ensures Tally(done, after, n + 1, short0 || Stays(sp, before, after, k, n))
    ensures WorkOf(ops) == WorkOf(ops0).Plus(BlockWork(before[k], after[n], k == 0 && !Explicit(sp)))
    ensures done0 <= done && Steady(ops0, ops, |done0|) && BlockStands(sp, ops, done, before[k], after[n], k)
  {
    hide Follows, Steady, WorkOf, BlockWork, PlacesOf, HeadStands, CharsStand, Emits, Consistent, LiveFlags, StartsAre,
         ContentOf, Writable, NamedBlock, Blocks, Shown, OneBlock, FlatChars, Region, Explicit, Tally;
    BlockThere(sp, before, starts, k);
    ghost var piece;
    var end := StartOr(starts, k + 1, |sp|);
    if k < |starts| && starts[k].Some? {
      ops, shift, piece := ReconcileExplicit(reg, sp, ops0, streamToLive, before[k], after[n], starts[k].value, end,
                                             shift0, done0);
      OneBlockHeaded(Shown(piece), after[n]);
      TallyBlock(done0, piece, after, n, short0);
    } else {
      assert sp[0..] == sp;
      assert sp[Region(sp, 0)..] == sp[0..];
      ops, shift, piece := ReconcileImplicit(reg, sp, ops0, streamToLive, before[k], after[n], end, shift0, done0);
      if HeadChanged(before[k], after[n]) {
        OneBlockHeaded(Shown(piece), after[n]);
        TallyBlock(done0, piece, after, n, short0);
      } else {
        TallyText(done0, piece, after, n);
      }
    }
    done := done0 + piece;
  }

  predicate AllNamed(reg: Registry, blocks: seq<VisibleBlock>) {
    forall i :: 0 <= i < |blocks| ==> NamedBlock(reg, blocks[i])
  }

  lemma RunNone(sp: seq<Spot>, ops: seq<Edit>, done: seq<Spot>, before: seq<VisibleBlock>, after: seq<VisibleBlock>,
                k0: nat, n0: nat, bare: bool)
    requires k0 <= |before| && n0 <= |after|
    ensures RunStands(sp, ops, done, before, after, k0, n0, 0) && Steady(ops, ops, |done|)
    ensures WorkOf(ops) == WorkOf(ops).Plus(RunWork(before, after, k0, n0, 0, bare))
  {
    hide BlockStands, Moved, WorkOf, RunWork;
    RunWorkNext(before, after, k0, n0, 0, bare);
  }

  lemma RunNext(sp: seq<Spot>, ops0: seq<Edit>, ops: seq<Edit>, done0: seq<Spot>, done: seq<Spot>,
                before: seq<VisibleBlock>, after: seq<VisibleBlock>, k0: nat, n0: nat, i: nat, bare: bool)
    requires k0 + i < |before| && n0 + i < |after| && done0 <= done
    requires RunStands(sp, ops0, done0, before, after, k0, n0, i) && Steady(ops0, ops, |done0|)
    requires BlockStands(sp, ops, done, before[k0 + i], after[n0 + i], k0 + i)
    ensures RunStands(sp, ops, done, before, after, k0, n0, i + 1)
    ensures RunWork(before, after, k0, n0, i + 1, bare)
            == RunWork(before, after, k0, n0, i, bare).Plus(
                 BlockWork(before[k0 + i], after[n0 + i], k0 + i == 0 && bare))
  {
    hide BlockStands, BlockWork, Steady, RunWork;
    RunWorkNext(before, after, k0, n0, i + 1, bare);
    RunStandsOn(sp, ops0, ops, done0, done, before, after, k0, n0, i);
  }

  /** A run of kept blocks: old block k0 + i becomes new block n0 + i. */
  method ReconcileRun(ghost reg: Registry, sp: seq<Spot>, ops0: seq<Edit>, streamToLive: seq<int>,
                      starts: seq<Option<nat>>, before: seq<VisibleBlock>, after: seq<VisibleBlock>, k0: nat, n0: nat,
                      count: nat, shift0: nat, ghost done0: seq<Spot>, ghost short0: bool)
      returns (ops: seq<Edit>, shift: nat, ghost done: seq<Spot>)
    requires Consistent(reg) && LiveFlags(sp, streamToLive) && StartsAre(sp, starts) && ContentOf(sp, before)
    requires AllWritable(reg, after) && AllNamed(reg, before) && k0 + count <= |before| && n0 + count <= |after|
    requires Progress(reg, sp, ops0, done0, Region(sp, k0), shift0) && Tally(done0, after, n0, short0)
    requires k0 == 0 && !Explicit(sp) ==> !short0
    ensures Progress(reg, sp, ops, done, Region(sp, k0 + count), shift)
    ensures Tally(done, after, n0 + count, short0 || (count > 0 && Stays(sp, before, after, k0, n0)))
    ensures WorkOf(ops) == WorkOf(ops0).Plus(RunWork(before, after, k0, n0, count, !Explicit(sp)))
    ensures done0 <= done && Steady(ops0, ops, |done0|)
    ensures RunStands(sp, ops, done, before, after, k0, n0, count)
  {
    hide Steady, WorkOf, BlockWork, RunWork, BlockStands, RunStands, Emits, Consistent, LiveFlags, StartsAre, ContentOf,
         Writable, NamedBlock, Progress, Tally, Region, Explicit;
    ops, shift, done := ops0, shift0, done0;
    var i := 0;
    RunNone(sp, ops, done, before, after, k0, n0, !Explicit(sp));
    while i < count
      invariant 0 <= i <= count
      invariant Progress(reg, sp, ops, done, Region(sp, k0 + i), shift)
      invariant Tally(done, after, n0 + i, short0 || (i > 0 && Stays(sp, before, after, k0, n0)))
      invariant WorkOf(ops) == WorkOf(ops0).Plus(RunWork(before, after, k0, n0, i, !Explicit(sp)))
      invariant done0 <= done && Steady(ops0, ops, |done0|)
      invariant RunStands(sp, ops, done, before, after, k0, n0, i)
    {
      ghost var ops1, done1 := ops, done;
      ghost var short := short0 || (i > 0 && Stays(sp, before, after, k0, n0));
      ops, shift, done := ReconcileBlock(reg, sp, ops, streamToLive, starts, before, after, k0 + i, n0 + i, shift,
                                         done, short);
      SteadyThen(ops0, ops1, ops, |done0|, |done1|);
      RunNext(sp, ops1, ops, done1, done, before, after, k0, n0, i, !Explicit(sp));
      i := i + 1;
    }
  }

  // ------------------------------------------------------------------ removed blocks

  /** The rest of the stream from `lo` on, hidden from `j` up to `hi`. */
  function Cut(sp: seq<Spot>, lo: nat, j: nat, hi: nat): (r: seq<Spot>)
    requires lo <= j <= hi <= |sp|
    ensures |r| == |sp| - lo
  {
    Hidden(sp, j, hi)[lo..]
  }

  lemma CutNone(sp: seq<Spot>, lo: nat, hi: nat)
    requires lo <= hi <= |sp|
    ensures Cut(sp, lo, hi, hi) == sp[lo..]
  {
    assert Hidden(sp, hi, hi) == sp;
  }

  lemma CutStep(sp: seq<Spot>, lo: nat, i: nat, hi: nat)
    requires lo <= i < hi <= |sp|
    ensures Cut(sp, lo, i + 1, hi)[i - lo] == sp[i]
    ensures Cut(sp, lo, i, hi) == Cut(sp, lo, i + 1, hi)[i - lo := sp[i].(live := false)]
    ensures !sp[i].live ==> Cut(sp, lo, i, hi) == Cut(sp, lo, i + 1, hi)
  {
  }

  lemma ShownFrom(sp: seq<Spot>, i: nat, to: nat)
    requires i < to <= |sp|
    ensures |Shown(sp[i..to])| == |Shown(sp[i + 1..to])| + (if sp[i].live then 1 else 0)
  {
    assert sp[i..to] == [sp[i]] + sp[i + 1..to];
    ShownConcat([sp[i]], sp[i + 1..to]);
    assert [sp[i]][..0] == [];
  }

  /** Delete the live items of one removed block, last to first. */
  method RemoveRange(ghost reg: Registry, sp: seq<Spot>, ops0: seq<Edit>, streamToLive: seq<int>, from: nat, to: nat,
                     shift: nat, ghost done: seq<Spot>, ghost lo: nat, ghost hi: nat)
      returns (ops: seq<Edit>)
    requires LiveFlags(sp, streamToLive) && lo <= from <= to <= hi <= |sp|
    requires Emits(reg, sp, ops0, done + Cut(sp, lo, to, hi)) && |done| == lo + shift
    ensures Emits(reg, sp, ops, done + Cut(sp, lo, from, hi))
    ensures Adds(ops0, ops, Erasing(|Shown(sp[from..to])|), 0)
  {
    hide Adds, Shown, Emits, Cut, Playable, Play;
    ops := ops0;
    var i := to;
    AddsNothing(ops, 0);
    ShownNone();
    assert sp[to..to] == [];
    while i > from
      invariant from <= i <= to
      invariant Emits(reg, sp, ops, done + Cut(sp, lo, i, hi))
      invariant Adds(ops0, ops, Erasing(|Shown(sp[i..to])|), 0)
    {
      i := i - 1;
      CutStep(sp, lo, i, hi);
      ShownFrom(sp, i, to);
      if i < |streamToLive| && streamToLive[i] >= 0 {
        ghost var spots := done + Cut(sp, lo, i + 1, hi);
        EraseOk(reg, spots, i + shift);
        Emit(reg, sp, ops, spots, Erase(i + shift));
        AddsEdit(ops0, ops, Erase(i + shift), Erasing(|Shown(sp[i + 1..to])|), 0);
        ops := ops + [Erase(i + shift)];
        assert spots[|done| + (i - lo) := sp[i].(live := false)] == done + Cut(sp, lo, i, hi);
      }
    }
  }

  /** The live items of one block. */
  lemma BlockSize(sp: seq<Spot>, before: seq<VisibleBlock>, starts: seq<Option<nat>>, k: nat)
    requires ContentOf(sp, before) && StartsAre(sp, starts) && k < |before|
    ensures Region(sp, k) <= Region(sp, k + 1) <= |sp|
    ensures |Shown(sp[Region(sp, k)..Region(sp, k + 1)])|
            == (if k == 0 && !Explicit(sp) then 0 else 1) + |before[k].chars|
  {
    hide Blocks, Shown, OneBlock, StartsAre, ContentOf, Region, Explicit;
    BlockThere(sp, before, starts, k);
    if k > 0 || Explicit(sp) {
      var x := OneBlockParts(Shown(sp[Region(sp, k)..Region(sp, k + 1)]), before[k]);
    }
  }

  /** Delete the blocks from `last` down to `first`. */
  method RemoveBlocks(ghost reg: Registry, sp: seq<Spot>, ops0: seq<Edit>, streamToLive: seq<int>,
                      starts: seq<Option<nat>>, ghost before: seq<VisibleBlock>, first: nat, behind: nat, shift: nat,
                      ghost done: seq<Spot>)
      returns (ops: seq<Edit>)
    requires LiveFlags(sp, streamToLive) && StartsAre(sp, starts) && ContentOf(sp, before)
             && first <= behind <= |before|
    requires Progress(reg, sp, ops0, done, Region(sp, first), shift)
    ensures Region(sp, first) <= Region(sp, behind) <= |sp|
    ensures Emits(reg, sp, ops, done + Cut(sp, Region(sp, first), Region(sp, first), Region(sp, behind)))
    ensures Adds(ops0, ops, Erasing(ItemsIn(before, first, behind, !Explicit(sp))), 0)
  {
    hide Adds, Follows, Explicit, Emits, Cut, LiveFlags, StartsAre, ContentOf, Region, Starts, Blocks, Shown;
    ghost var lo, hi := Region(sp, first), Region(sp, behind);
    RegionsOrder(sp, first, behind);
    CutNone(sp, lo, hi);
    ops := ops0;
    var b := behind;
    AddsNothing(ops, 0);
    while b > first
      invariant first <= b <= behind && lo <= Region(sp, b) <= hi
      invariant Emits(reg, sp, ops, done + Cut(sp, lo, Region(sp, b), hi))
      invariant Adds(ops0, ops, Erasing(ItemsIn(before, b, behind, !Explicit(sp))), 0)
    {
      b := b - 1;
      BlockSize(sp, before, starts, b);
      ghost var ops1 := ops;
      BlockThere(sp, before, starts, b);
      RegionsOrder(sp, first, b);
      RegionsOrder(sp, b, behind);
      var from := if b < |starts| && starts[b].Some? then starts[b].value else 0;
      var to := StartOr(starts, b + 1, |sp|);
      ops := RemoveRange(reg, sp, ops, streamToLive, from, to, shift, done, lo, hi);
      AddsThen(ops0, ops1, ops, Erasing(ItemsIn(before, b + 1, behind, !Explicit(sp))),
               Erasing(|Shown(sp[from..to])|), 0);
    }
  }

  lemma {:induction false} RegionsOrder(sp: seq<Spot>, i: nat, j: nat)
    requires i <= j
    ensures Region(sp, i) <= Region(sp, j) <= |sp|
    decreases j - i
  {
    hide Region;
    if i < j {
      RegionsOrder(sp, i, j - 1);
      RegionsAscend(sp, j - 1);
    } else {
      RegionsAscend(sp, i);
    }
  }

  /** What has been cut shows nothing. */
  lemma CutPiece(sp: seq<Spot>, lo: nat, hi: nat)
    requires lo <= hi <= |sp|
    ensures Cut(sp, lo, lo, hi) == Hidden(sp, lo, hi)[lo..hi] + sp[hi..] && Shown(Hidden(sp, lo, hi)[lo..hi]) == []
  {
    HiddenShowsNone(Hidden(sp, lo, hi)[lo..hi]);
  }

  // -------------------------------------------------------------------- added blocks

  /** firstLiveOfBlock, for a block that is there. */
  function FirstLiveOfBlock(starts: seq<Option<nat>>, k: nat, length: nat): nat {
    StartOr(starts, k, if k > 0 then length else 0)
  }

  /** Insert new blocks one behind the other. */
  method AddBlocks(ghost reg: Registry, sp: seq<Spot>, ops0: seq<Edit>, after: seq<VisibleBlock>, n0: nat, n1: nat,
                   cursor0: nat, shift0: nat, ghost done0: seq<Spot>, ghost at: nat, ghost short: bool)
      returns (ops: seq<Edit>, shift: nat, ghost done: seq<Spot>)
    requires Consistent(reg) && AllWritable(reg, after) && n0 <= n1 <= |after|
    requires Progress(reg, sp, ops0, done0, at, shift0) && cursor0 == |done0| && Tally(done0, after, n0, short)
    ensures Progress(reg, sp, ops, done, at, shift) && Tally(done, after, n1, short)
    ensures WorkOf(ops) == WorkOf(ops0).Plus(NewWork(after, n0, n1)) && done0 <= done && Steady(ops0, ops, |done0|)
  {
    hide Adds, Follows, Steady, WorkOf, NewBlockWork, Emits, Consistent, Writable, Written, Flat, Tally;
    ops, shift, done := ops0, shift0, done0;
    var cursor, n := cursor0, n0;
    SteadySame(ops, |done|);
    while n < n1
      invariant n0 <= n <= n1 && cursor == |done|
      invariant Progress(reg, sp, ops, done, at, shift) && Tally(done, after, n, short)
      invariant WorkOf(ops) == WorkOf(ops0).Plus(NewWork(after, n0, n)) && done0 <= done
                && Steady(ops0, ops, |done0|)
    {
      ghost var ops1, done1, shift1 := ops, done, shift;
      NothingWritten(done, sp[at..]);
      ops, cursor, shift := InsertWholeBlock(reg, sp, ops, after[n], cursor, shift, done, [], sp[at..]);
      assert [] + Flat(after[n]) == Flat(after[n]);
      BlockWritten(done, after[n], sp[at..]);
      WritableTyped(reg, after[n]);
      TallyBlock(done, LiveSpots(Flat(after[n])), after, n, short);
      done := done + LiveSpots(Flat(after[n]));
      NewBlockFollows(ops1, ops, after[n], |done1|, at, shift1);
      SteadyThen(ops0, ops1, ops, |done0|, |done1|);
      n := n + 1;
    }
  }

  lemma NewBlockFollows(ops0: seq<Edit>, ops: seq<Edit>, block: VisibleBlock, done: nat, at: nat, shift: nat)
    requires Adds(ops0, ops, NewBlockWork(block), done) && done == at + shift && Follows(ops0, at, shift)
    ensures WorkOf(ops) == WorkOf(ops0).Plus(NewBlockWork(block))
    ensures Follows(ops, at, shift + 1 + |block.chars|) && Steady(ops0, ops, done)
  {
    hide Adds, Follows, Steady, WorkOf;
    AddsInside(ops0, ops, NewBlockWork(block), done, 0, 0, at, shift);
    AddsWork(ops0, ops, NewBlockWork(block), done);
  }

  lemma NothingWritten(done: seq<Spot>, behind: seq<Spot>)
    ensures Written(done, [], behind) == done + behind
  {
    assert LiveSpots([]) == [];
  }

  lemma BlockWritten(done: seq<Spot>, block: VisibleBlock, behind: seq<Spot>)
    ensures Written(done, Flat(block), behind) == done + LiveSpots(Flat(block)) + behind
    ensures TYPE_NAME !in block.attrs ==>
              Headed(Shown(LiveSpots(Flat(block)))) && Blocks(Shown(LiveSpots(Flat(block)))) == [block]
  {
    hide Blocks, Shown;
    LiveSpotsShow(Flat(block));
    if TYPE_NAME !in block.attrs { FlatOne(block); }
  }

  lemma WritableTyped(reg: Registry, block: VisibleBlock)
    requires Writable(reg, block)
    ensures TYPE_NAME !in block.attrs
  {
  }

  // ------------------------------------------------------------------ the whole diff

  lemma StartProgress(reg: Registry, sp: seq<Spot>, after: seq<VisibleBlock>)
    ensures Region(sp, 0) <= |sp| && Progress(reg, sp, [], sp[..Region(sp, 0)], Region(sp, 0), 0)
    ensures Tally(sp[..Region(sp, 0)], after, 0, false)
  {
    hide Blocks, Shown;
    NothingBefore(sp);
    EmitNone(reg, sp);
    BlocksEmpty(Shown(sp[..Region(sp, 0)]));
    assert sp[..Region(sp, 0)] + sp[Region(sp, 0)..] == sp;
  }

  /** Removal done, with everything up to the kept end counted in. */
  lemma AfterRemoval(reg: Registry, sp: seq<Spot>, before: seq<VisibleBlock>, ops: seq<Edit>, first: nat, suffix: nat,
                     shift: nat, done: seq<Spot>, after: seq<VisibleBlock>, n: nat, short: bool)
      returns (done': seq<Spot>, at: nat)
    requires ContentOf(sp, before) && first + suffix <= |before|
    requires Region(sp, first) <= Region(sp, |before| - suffix) <= |sp|
    requires Emits(reg, sp, ops, done + Cut(sp, Region(sp, first), Region(sp, first), Region(sp, |before| - suffix)))
    requires |done| == Region(sp, first) + shift && Tally(done, after, n, short)
    requires Follows(ops, Region(sp, first), shift)
    ensures done <= done' && at == (if suffix > 0 then Region(sp, |before| - suffix) else |sp|)
    ensures Progress(reg, sp, ops, done', at, shift) && Tally(done', after, n, short)
  {
    hide Follows, Emits, Cut, Blocks, Shown, Tally;
    var lo, hi := Region(sp, first), Region(sp, |before| - suffix);
    CutPiece(sp, lo, hi);
    var piece := Hidden(sp, lo, hi)[lo..hi];
    assert done + Cut(sp, lo, lo, hi) == done + piece + sp[hi..];
    TallyNothing(done, piece, after, n, short);
    FollowsOn(ops, lo, hi, shift);
    FollowsOn(ops, lo, |sp|, shift);
    if suffix > 0 {
      done', at := done + piece, hi;
    } else {
      RestBlank(sp, before);
      TallyNothing(done + piece, sp[hi..], after, n, short);
      done', at := done + piece + sp[hi..], |sp|;
      assert done' + sp[at..] == done + piece + sp[hi..];
    }
  }

  lemma FollowsOn(ops: seq<Edit>, at: nat, to: nat, shift: nat)
    requires Follows(ops, at, shift) && at <= to
    ensures Follows(ops, to, shift)
  {
    hide Moved;
  }

  /** Behind the last block nothing is visible. */
  lemma RestBlank(sp: seq<Spot>, before: seq<VisibleBlock>)
    requires ContentOf(sp, before)
    ensures Region(sp, |before|) <= |sp| && Shown(sp[Region(sp, |before|)..]) == []
  {
    hide Blocks, Shown;
    RegionsOrder(sp, |before|, |before|);
    ContentLength(sp, before);
    BlocksEmpty(Shown(sp));
    StartsCut(sp);
    ShownNone();
    if |Shown(sp)| == 0 {
      BlankRegion(sp);
      assert sp[0..] == sp && sp[|sp|..] == [];
    } else {
      assert sp[|sp|..] == [];
    }
  }

  lemma ProgressSize(reg: Registry, sp: seq<Spot>, ops: seq<Edit>, done: seq<Spot>, at: nat, shift: nat)
    requires Progress(reg, sp, ops, done, at, shift)
    ensures |done| == at + shift && at <= |sp| && Follows(ops, at, shift)
  {
    hide Emits;
  }

  /** The insertion cursor is where the kept end begins. */
  lemma CursorThere(sp: seq<Spot>, before: seq<VisibleBlock>, starts: seq<Option<nat>>, suffix: nat)
    requires ContentOf(sp, before) && StartsAre(sp, starts) && 0 < suffix <= |before|
    ensures FirstLiveOfBlock(starts, |before| - suffix, |sp|) == Region(sp, |before| - suffix)
  {
    hide Blocks, Shown, OneBlock, StartsAre, FlatChars, ContentOf, Region, Explicit;
    BlockThere(sp, before, starts, |before| - suffix);
  }

  /** Whether the first block is lost shows in the counts: at the start or at the end. */
  lemma LostIs(sp: seq<Spot>, before: seq<VisibleBlock>, after: seq<VisibleBlock>, p: nat, s: nat, paired: nat)
      returns (atStart: bool, atEnd: bool)
    requires p == StartMatch(before, after, 0) && s == EndMatch(before, after, p, 0)
    requires paired == Least(|before| - p - s, |after| - p - s) && |after| > 0 && (|before| > 0 || Shown(sp) == [])
    ensures p + s <= |before| && p + s <= |after|
    ensures atStart == (p + paired > 0 && Stays(sp, before, after, 0, 0))
    ensures atEnd == (s > 0 && Stays(sp, before, after, |before| - s, |after| - s))
    ensures Lost(sp, before, after) <==> (atStart || atEnd) && |after| > 1
  {
    hide Explicit, HeadChanged, StartMatch, EndMatch, KeptFirst, KeptLast, Shown;
    KeptAre(before, after, p, s);
    atStart := p + paired > 0 && Stays(sp, before, after, 0, 0);
    atEnd := s > 0 && Stays(sp, before, after, |before| - s, |after| - s);
    if p == 0 && s == |before| && |after| == |before| && s > 0 {
      EndMatchesFirst(before, after, s);
    }
  }

  /** The last word: all shown, or one block short. */
  lemma Finish(reg: Registry, sp: seq<Spot>, ops: seq<Edit>, done: seq<Spot>, at: nat, shift: nat,
               after: seq<VisibleBlock>, short: bool)
    requires Progress(reg, sp, ops, done, at, shift) && Shown(sp[at..]) == []
    requires Tally(done, after, |after|, short) && |after| > 0
    ensures AllPlayable(reg, sp, ops)
    ensures Document(Shown(PlayAll(sp, ops))) == after <==> !(short && |after| > 1)
    ensures done <= PlayAll(sp, ops)
  {
    hide Follows, Blocks, Shown, AllPlayable, PlayAll;
    ShownConcat(done, sp[at..]);
    assert Shown(done) + [] == Shown(done);
    assert after[..|after|] == after;
  }

  /** Every kept block stands as the new block it is kept as. */
  ghost predicate AllStand(sp: seq<Spot>, ops: seq<Edit>, before: seq<VisibleBlock>, after: seq<VisibleBlock>) {
    forall k :: 0 <= k < |before| && KeptAs(before, after, k).Some? ==>
      BlockStands(sp, ops, PlayAll(sp, ops), before[k], after[KeptAs(before, after, k).value], k)
  }

  lemma RunsStand(sp: seq<Spot>, ops: seq<Edit>, before: seq<VisibleBlock>, after: seq<VisibleBlock>, first: nat,
                  last: nat)
    requires first == KeptFirst(before, after) && last == KeptLast(before, after)
    requires RunStands(sp, ops, PlayAll(sp, ops), before, after, 0, 0, first)
    requires RunStands(sp, ops, PlayAll(sp, ops), before, after, |before| - last, |after| - last, last)
    ensures AllStand(sp, ops, before, after)
  {
    hide BlockStands, PlayAll, KeptFirst, KeptLast;
  }

  /** The blocks that match at the start and those paired behind them: the first
      `first` old blocks become the first `first` new ones. */
  method ReconcileFirst(ghost reg: Registry, sp: seq<Spot>, streamToLive: seq<int>, starts: seq<Option<nat>>,
                        before: seq<VisibleBlock>, after: seq<VisibleBlock>, prefix: nat, paired: nat)
      returns (ops: seq<Edit>, shift: nat, ghost done: seq<Spot>)
    requires Consistent(reg) && LiveFlags(sp, streamToLive) && StartsAre(sp, starts) && ContentOf(sp, before)
    requires AllWritable(reg, after) && AllNamed(reg, before)
    requires prefix + paired <= |before| && prefix + paired <= |after|
    ensures Progress(reg, sp, ops, done, Region(sp, prefix + paired), shift)
    ensures Tally(done, after, prefix + paired, prefix + paired > 0 && Stays(sp, before, after, 0, 0))
    ensures RunStands(sp, ops, done, before, after, 0, 0, prefix + paired)
    ensures WorkOf(ops) == RunWork(before, after, 0, 0, prefix + paired, !Explicit(sp))
  {
    hide *;
    StartProgress(reg, sp, after);
    ghost var done0 := sp[..Region(sp, 0)];
    ops, shift, done := ReconcileRun(reg, sp, [], streamToLive, starts, before, after, 0, 0, prefix, 0, done0, false);
    ghost var short := prefix > 0 && Stays(sp, before, after, 0, 0);
    StaysFirst(sp, before, after, prefix);
    ghost var ops1, done1 := ops, done;
    ops, shift, done := ReconcileRun(reg, sp, ops, streamToLive, starts, before, after, prefix, prefix, paired, shift,
                                     done, short);
    RunStandsOn(sp, ops1, ops, done1, done, before, after, 0, 0, prefix);
    RunsJoin(sp, ops, done, before, after, prefix, paired);
    RunWorkJoin(before, after, prefix, paired, !Explicit(sp));
    NoEdits();
  }

  lemma ErasingStill(ops0: seq<Edit>, ops: seq<Edit>, erased: nat, n: nat, at: nat, shift: nat)
    requires Adds(ops0, ops, Erasing(erased), 0) && Follows(ops0, at, shift)
    ensures WorkOf(ops) == WorkOf(ops0).Plus(Erasing(erased)) && Steady(ops0, ops, n) && Follows(ops, at, shift)
  {
    hide Adds, Follows, Steady, WorkOf;
    AddsStill(ops0, ops, Erasing(erased), 0, n);
  }

  /** The blocks that match at the end, and the last word on what is shown. */
  method ReconcileLast(ghost reg: Registry, sp: seq<Spot>, ops0: seq<Edit>, streamToLive: seq<int>,
                       starts: seq<Option<nat>>, before: seq<VisibleBlock>, after: seq<VisibleBlock>, suffix: nat,
                       shift0: nat, ghost done0: seq<Spot>, ghost at: nat, ghost short: bool)
      returns (ops: seq<Edit>, ghost done: seq<Spot>)
    requires Consistent(reg) && LiveFlags(sp, streamToLive) && StartsAre(sp, starts) && ContentOf(sp, before)
    requires AllWritable(reg, after) && AllNamed(reg, before)
    requires suffix <= |before| && suffix <= |after| && |after| > 0
    requires at == if suffix > 0 then Region(sp, |before| - suffix) else |sp|
    requires Progress(reg, sp, ops0, done0, at, shift0) && Tally(done0, after, |after| - suffix, short)
    requires short && suffix > 0 ==> suffix < |before| || Explicit(sp)
    ensures AllPlayable(reg, sp, ops) && done0 <= done <= PlayAll(sp, ops) && Steady(ops0, ops, |done0|)
    ensures var lost := short || (suffix > 0 && Stays(sp, before, after, |before| - suffix, |after| - suffix));
            Document(Shown(PlayAll(sp, ops))) == after <==> !(lost && |after| > 1)
    ensures WorkOf(ops) == WorkOf(ops0).Plus(
                             RunWork(before, after, |before| - suffix, |after| - suffix, suffix, !Explicit(sp)))
    ensures RunStands(sp, ops, done, before, after, |before| - suffix, |after| - suffix, suffix)
  {
    hide *;
    RestBlank(sp, before);
    ops, done := ops0, done0;
    if suffix > 0 {
      var shift;
      ops, shift, done := ReconcileRun(reg, sp, ops, streamToLive, starts, before, after, |before| - suffix,
                                       |after| - suffix, suffix, shift0, done, short);
      Finish(reg, sp, ops, done, Region(sp, |before|), shift, after,
             short || Stays(sp, before, after, |before| - suffix, |after| - suffix));
    } else {
      NothingLeft(sp);
      RunNone(sp, ops, done, before, after, |before|, |after|, !Explicit(sp));
      Finish(reg, sp, ops, done, |sp|, shift0, after, short);
    }
  }

  lemma RunsJoin(sp: seq<Spot>, ops: seq<Edit>, done: seq<Spot>, before: seq<VisibleBlock>, after: seq<VisibleBlock>,
                 a: nat, b: nat)
    requires a + b <= |before| && a + b <= |after|
    requires RunStands(sp, ops, done, before, after, 0, 0, a) && RunStands(sp, ops, done, before, after, a, a, b)
    ensures RunStands(sp, ops, done, before, after, 0, 0, a + b)
  {
    hide BlockStands;
  }

  /** The edits that turn the visible document into the editor's: every one can be
      played in its turn, and replaying them shows the new blocks exactly, unless
      the first block is lost.  They take no more than they must, and what is kept
      keeps its identity. */
  method ReconcileBlocks(ghost reg: Registry, before: seq<VisibleBlock>, after: seq<VisibleBlock>, sp: seq<Spot>)
      returns (ops: seq<Edit>)
    requires Consistent(reg) && ContentOf(sp, before) && |after| > 0
    requires AllWritable(reg, after) && AllNamed(reg, before)
    ensures AllPlayable(reg, sp, ops)
    ensures Document(Shown(PlayAll(sp, ops))) == after <==> !Lost(sp, before, after)
    ensures WorkOf(ops) == ReconcileWork(before, after, !Explicit(sp)) && AllStand(sp, ops, before, after)
    ensures before == after ==> ops == []
  {
    hide *;
    var streamToLive, starts := BuildLiveIndex(sp);
    var prefix, suffix := MatchEnds(before, after);
    ContentLength(sp, before);
    var paired := Least(|before| - prefix - suffix, |after| - prefix - suffix);
    KeptAre(before, after, prefix, suffix);
    ghost var atStart, atEnd := LostIs(sp, before, after, prefix, suffix, paired);
    var shift: nat;
    ghost var done;
    ops, shift, done := ReconcileFirst(reg, sp, streamToLive, starts, before, after, prefix, paired);
    var first := prefix + paired;
    ProgressSize(reg, sp, ops, done, Region(sp, first), shift);
    ghost var ops1, done1 := ops, done;
    ops := RemoveBlocks(reg, sp, ops, streamToLive, starts, before, first, |before| - suffix, shift, done);
    ErasingStill(ops1, ops, ItemsIn(before, first, |before| - suffix, !Explicit(sp)), |done|, Region(sp, first), shift);
    ghost var at;
    done, at := AfterRemoval(reg, sp, before, ops, first, suffix, shift, done, after, first, atStart);
    RunStandsOn(sp, ops1, ops, done1, done, before, after, 0, 0, first);
    ProgressSize(reg, sp, ops, done, at, shift);
    var cursor := |sp| + shift;
    if suffix > 0 {
      CursorThere(sp, before, starts, suffix);
      cursor := FirstLiveOfBlock(starts, |before| - suffix, |sp|) + shift;
    }
    ghost var ops2, done2 := ops, done;
    ops, shift, done := AddBlocks(reg, sp, ops, after, first, |after| - suffix, cursor, shift, done, at, atStart);
    RunStandsOn(sp, ops2, ops, done2, done, before, after, 0, 0, first);
    ghost var ops3, done3 := ops, done;
    ops, done := ReconcileLast(reg, sp, ops, streamToLive, starts, before, after, suffix, shift, done, at, atStart);
    AllDone(sp, ops3, ops, done3, done, before, after, first, suffix);
    WorkIs(before, after, !Explicit(sp));
    if before == after { SameContent(before, ops, !Explicit(sp)); }
  }

  /** Nothing comes behind: the runs stand in the outcome. */
  lemma AllDone(sp: seq<Spot>, ops0: seq<Edit>, ops: seq<Edit>, done0: seq<Spot>, done: seq<Spot>,
                before: seq<VisibleBlock>, after: seq<VisibleBlock>, first: nat, last: nat)
    requires first == KeptFirst(before, after) && last == KeptLast(before, after)
    requires done0 <= done <= PlayAll(sp, ops) && Steady(ops0, ops, |done0|)
    requires RunStands(sp, ops0, done0, before, after, 0, 0, first)
    requires RunStands(sp, ops, done, before, after, |before| - last, |after| - last, last)
    ensures AllStand(sp, ops, before, after)
  {
    hide *;
    RunStandsOn(sp, ops0, ops, done0, PlayAll(sp, ops), before, after, 0, 0, first);
    SteadySame(ops, |done|);
    RunStandsOn(sp, ops, ops, done, PlayAll(sp, ops), before, after, |before| - last, |after| - last, last);
    RunsStand(sp, ops, before, after, first, last);
  }

  /** Character `c` of a kept block: the place it stands at, and, when it belongs to a
      common end, the new character that stands there afterwards. */
  lemma CharacterStands(sp: seq<Spot>, ops: seq<Edit>, before: seq<VisibleBlock>, after: seq<VisibleBlock>, k: nat,
                        n: nat, c: nat)
      returns (i: nat)
    requires ContentOf(sp, before) && AllStand(sp, ops, before, after)
    requires k < |before| && KeptAs(before, after, k) == Some(n) && c < |before[k].chars|
    ensures i < |sp| && sp[i] == Spot(true, CharLive(before[k].chars[c]))
    ensures var bc, ac, spots := before[k].chars, after[n].chars, PlayAll(sp, ops);
            && (c < Front(bc, ac) ==> Moved(ops, i) < |spots| && spots[Moved(ops, i)] == Spot(true, CharLive(ac[c])))
            && (|bc| - Back(bc, ac) <= c ==> Moved(ops, i) < |spots|
                                             && spots[Moved(ops, i)] == Spot(true, CharLive(ac[|ac| - |bc| + c])))
  {
    hide ContentOf, Region, Explicit, Shown, PlayAll, KeptAs, Front, Back, FlatChars, PlacesOf, Moved, HeadStands,
         BlockStands, OneBlock;
    BlockLives(sp, before, k);
    var bc, ac, spots := before[k].chars, after[n].chars, PlayAll(sp, ops);
    assert BlockStands(sp, ops, spots, before[k], after[n], k);
    var head := BlockStandsAt(sp, ops, spots, before[k], after[n], k, c);
    var at, to := Region(sp, k), Region(sp, k + 1);
    i := PlacesOf(sp, at, to, head)[c];
    PlacesShow(sp, at, to, head, c);
    ShownChar(Shown(sp[at..to]), before[k], head, c);
  }

  /** The delimiter of a kept block, before and after. */
  lemma DelimiterStands(sp: seq<Spot>, ops: seq<Edit>, before: seq<VisibleBlock>, after: seq<VisibleBlock>, k: nat,
                        n: nat)
      returns (i: nat)
    requires ContentOf(sp, before) && AllStand(sp, ops, before, after)
    requires k < |before| && KeptAs(before, after, k) == Some(n) && (k > 0 || Explicit(sp))
    ensures i < |sp| && sp[i].live && Opens(sp[i].show, before[k])
    ensures var spots := PlayAll(sp, ops);
            Moved(ops, i) < |spots| && spots[Moved(ops, i)].live && Opens(spots[Moved(ops, i)].show, after[n])
  {
    hide ContentOf, Explicit, Shown, PlayAll, KeptAs, FlatChars, PlacesOf, Moved, CharsStand, Opens, Region, OneBlock;
    BlockLives(sp, before, k);
    assert BlockStands(sp, ops, PlayAll(sp, ops), before[k], after[n], k);
    i := Region(sp, k);
    var mid := sp[i..Region(sp, k + 1)];
    var x := OneBlockParts(Shown(mid), before[k]);
    HeadRewritten(mid, x, x, before[k].chars);
  }

  lemma BlockStandsAt(sp: seq<Spot>, ops: seq<Edit>, spots: seq<Spot>, was: VisibleBlock, goal: VisibleBlock, k: nat,
                      c: nat)
      returns (head: nat)
    requires BlockStands(sp, ops, spots, was, goal, k) && c < |was.chars|
    ensures head == (if k > 0 || Explicit(sp) then 1 else 0) && Region(sp, k) <= Region(sp, k + 1) <= |sp|
    ensures |PlacesOf(sp, Region(sp, k), Region(sp, k + 1), head)| == |was.chars|
    ensures var i, bc, ac := PlacesOf(sp, Region(sp, k), Region(sp, k + 1), head)[c], was.chars, goal.chars;
            && (c < Front(bc, ac) ==> Stands(ops, spots, i, CharLive(ac[c])))
            && (|bc| - Back(bc, ac) <= c ==> Stands(ops, spots, i, CharLive(ac[|ac| - |bc| + c])))
  {
    hide Region, Explicit, Front, Back, PlacesOf, Stands, HeadStands;
    head := if k > 0 || Explicit(sp) then 1 else 0;
  }

  lemma ShownChar(lives: seq<Live>, block: VisibleBlock, head: nat, c: nat)
    requires if head == 1 then OneBlock(lives, block) else head == 0 && lives == FlatChars(block.chars)
    requires c < |block.chars| && head + c < |lives|
    ensures lives[head + c] == CharLive(block.chars[c])
  {
    if head == 1 { assert lives[1..][c] == lives[1 + c]; }
  }

  lemma NothingLeft(sp: seq<Spot>)
    ensures Shown(sp[|sp|..]) == []
  {
    assert sp[|sp|..] == [];
  }

  lemma StaysFirst(sp: seq<Spot>, before: seq<VisibleBlock>, after: seq<VisibleBlock>, k: nat)
    ensures forall n :: k > 0 && k < |before| && 0 <= n < |after| ==> !Stays(sp, before, after, k, n)
  {
  }
}
