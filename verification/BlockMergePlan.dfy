/** The block merge on the places of the stream, and when it agrees with replacing
    all ranges of the block list at once (cpp/worker/main.cpp). */
module BlockMergePlan {
  import opened Types
  import opened Visible
  import opened Edits
  import opened Splice
  import opened BlockSpots
  import opened Sessions

  type BlockHunk = Hunk<VisibleBlock>

  // ------------------------------------------------------------------- the ranges

  /** The worker's range check: in bounds, in order, and no insertion directly behind
      a range that ends there. */
  predicate Accepted(hunks: seq<BlockHunk>, n: nat) {
    forall i :: 0 <= i < |hunks| ==>
      hunks[i].start <= hunks[i].end <= n
      && (i > 0 ==>
            !(hunks[i].start < hunks[i - 1].end
              || (hunks[i].start == hunks[i - 1].end && hunks[i].start == hunks[i].end)))
  }

  lemma {:induction false} AcceptedBetween(hunks: seq<BlockHunk>, n: nat, j: nat, k: nat, x: nat)
    requires Accepted(hunks, n) && j < k <= |hunks| && (if k < |hunks| then x == hunks[k].start else x == n)
    ensures Between([], hunks[j], hunks[j + 1..k], x)
    decreases k
  {
    if k > j + 1 {
      assert hunks[j + 1..k][..k - j - 2] == hunks[j + 1..k - 1];
      AcceptedBetween(hunks, n, j, k - 1, hunks[k - 1].start);
    }
  }

  lemma AcceptedChain(hunks: seq<BlockHunk>, n: nat, j: nat)
    requires Accepted(hunks, n) && j <= |hunks|
    ensures Chain(hunks[j..], n)
  {
    if j < |hunks| {
      AcceptedBetween(hunks, n, j, |hunks|, n);
      BetweenChains([], hunks[j], hunks[j + 1..|hunks|], n);
      assert [] + [hunks[j]] + hunks[j + 1..|hunks|] == hunks[j..];
    } else {
      assert hunks[j..] == [];
    }
  }

  lemma {:induction false} ChainAt(hunks: seq<BlockHunk>, x: nat, i: int)
    requires Chain(hunks, x) && 0 <= i < |hunks|
    ensures hunks[i].start <= hunks[i].end <= x && (i > 0 ==> hunks[i - 1].end <= hunks[i].start)
    decreases |hunks|
  {
    var n := |hunks| - 1;
    if i < n { ChainAt(hunks[..n], hunks[n].start, i); }
    if i == n && i > 0 { ChainAt(hunks[..n], hunks[n].start, n - 1); }
  }

  /** Accepted are exactly the chains in which no addition stands where the range before
      it ends: all that can be carried out together, and in one way only. */
  lemma AcceptedExactly(hunks: seq<BlockHunk>, n: nat)
    ensures Accepted(hunks, n) <==>
            && Chain(hunks, n)
            && forall i :: 0 < i < |hunks| && hunks[i].start == hunks[i].end ==> hunks[i - 1].end != hunks[i].start
  {
    if Accepted(hunks, n) {
      AcceptedChain(hunks, n, 0);
      assert hunks[0..] == hunks;
    }
    if Chain(hunks, n) {
      forall i | 0 <= i < |hunks|
        ensures hunks[i].start <= hunks[i].end <= n && (i > 0 ==> hunks[i - 1].end <= hunks[i].start)
      {
        ChainAt(hunks, n, i);
      }
    }
  }

  /** The block list with the ranges from `j` on replaced, all at once. */
  function Expected(base: seq<VisibleBlock>, hunks: seq<BlockHunk>, j: nat): seq<VisibleBlock>
    requires Accepted(hunks, |base|) && j <= |hunks|
  {
    AcceptedChain(hunks, |base|, j);
    Patch(base, hunks[j..], |base|)
  }

  lemma ExpectedEnd(base: seq<VisibleBlock>, hunks: seq<BlockHunk>)
    requires Accepted(hunks, |base|)
    ensures Expected(base, hunks, |hunks|) == base
  {
    assert hunks[|hunks|..] == [];
    assert base[..|base|] == base;
  }

  /** Taking in one more range is one splice at its own place. */
  lemma ExpectedNext(base: seq<VisibleBlock>, hunks: seq<BlockHunk>, j: nat)
    requires Accepted(hunks, |base|) && j < |hunks|
    ensures var e, h := Expected(base, hunks, j + 1), hunks[j];
            && h.start <= h.end <= |e|
            && Expected(base, hunks, j) == e[..h.start] + h.replacement + e[h.end..]
            && |Expected(base, hunks, j)| == |e| - (h.end - h.start) + |h.replacement|
  {
    hide Patch, Chain, Between;
    AcceptedBetween(hunks, |base|, j, |hunks|, |base|);
    assert hunks[j + 1..|hunks|] == hunks[j + 1..];
    AcceptedAt(hunks, |base|, j);
    SpliceFirst(base, hunks[j], hunks[j + 1..]);
    assert [hunks[j]] + hunks[j + 1..] == hunks[j..];
  }

  lemma AcceptedAt(hunks: seq<BlockHunk>, n: nat, j: nat)
    requires Accepted(hunks, n) && j < |hunks|
    ensures hunks[j].start <= hunks[j].end <= n
  {
  }

  lemma SpliceFirst(base: seq<VisibleBlock>, h: BlockHunk, post: seq<BlockHunk>)
    requires Between([], h, post, |base|) && h.start <= h.end <= |base|
    ensures Chain(post, |base|) && Chain([h] + post, |base|)
    ensures var e := Patch(base, post, |base|);
            && h.end <= |e|
            && Patch(base, [h] + post, |base|) == e[..h.start] + h.replacement + e[h.end..]
  {
    hide Patch, Chain, Between;
    SpliceHunk(base, [], h, post, |base|);
    assert [] + post == post && [] + [h] + post == [h] + post;
  }

  // --------------------------------------------------------------- on the stream

  /** The stream after the ranges from `j` on, last to first. */
  function Merged(sp: seq<Spot>, hunks: seq<BlockHunk>, j: nat): seq<Spot>
    requires j <= |hunks|
    decreases |hunks| - j
  {
    if j == |hunks| then sp
    else
      var after, h := Merged(sp, hunks, j + 1), hunks[j];
      StartsAscend(after);
      Replaced(after, Place(after, h.start), Place(after, h.end), FlatAll(h.replacement))
  }

  /** The operations the ranges from `j` on take: one for each item hidden, and
      those that write the replacements. */
  function Cost(sp: seq<Spot>, hunks: seq<BlockHunk>, j: nat): nat
    requires j <= |hunks|
    decreases |hunks| - j
  {
    if j == |hunks| then 0
    else
      var after, h := Merged(sp, hunks, j + 1), hunks[j];
      StartsAscend(after);
      Cost(sp, hunks, j + 1) + HiddenCost(after, Place(after, h.start), Place(after, h.end)) + WriteCost(h.replacement)
  }

  function HiddenCost(sp: seq<Spot>, from: nat, to: nat): nat {
    if from <= to <= |sp| then |Shown(sp[from..to])| else 0
  }

  // ------------------------------------------------------------- when it agrees

  /** The first block has no delimiter of its own. */
  predicate Implicit(lives: seq<Live>) {
    |lives| == 0 || lives[0].kind == Text
  }

  /** Some range from `j` on replaces the first block. */
  predicate ReplacesFirst(hunks: seq<BlockHunk>, j: nat) {
    exists i :: j <= i < |hunks| && hunks[i].start == 0 && hunks[i].end > 0
  }

  /** Blocks are added beside an implicit first block that stays: before it, or, in
      an empty document, behind it. */
  predicate Misplaced(lives: seq<Live>, hunks: seq<BlockHunk>, j: nat) {
    && Implicit(lives) && !ReplacesFirst(hunks, j)
    && exists i :: j <= i < |hunks| && hunks[i].start == hunks[i].end && |hunks[i].replacement| > 0
                   && (hunks[i].start == 0 || |lives| == 0)
  }

  predicate AllTyped(hunks: seq<BlockHunk>) {
    forall i :: 0 <= i < |hunks| ==> Typed(hunks[i].replacement)
  }

  /** The stream and the expected blocks agree, and the first block has a delimiter. */
  ghost predicate Explicit(lives: seq<Live>, expected: seq<VisibleBlock>) {
    Headed(lives) && expected == Blocks(lives)
  }

  /** They agree, and the first block is still the implicit one. */
  ghost predicate StillImplicit(lives: seq<Live>, expected: seq<VisibleBlock>) {
    if |lives| == 0 then expected == [DEFAULT_BLOCK] else !Headed(lives) && expected == Blocks(lives)
  }

  /** The stream shows one block less than expected, for good. */
  ghost predicate OffByOne(lives: seq<Live>, expected: seq<VisibleBlock>) {
    |lives| > 0 && Headed(lives) && |expected| == |Blocks(lives)| + 1
  }

  ghost predicate Tracks(lives0: seq<Live>, hunks: seq<BlockHunk>, j: nat, lives: seq<Live>,
                         expected: seq<VisibleBlock>) {
    if Misplaced(lives0, hunks, j) then OffByOne(lives, expected)
    else if Implicit(lives0) && !ReplacesFirst(hunks, j) then
      StillImplicit(lives, expected) && (|lives| == 0 <==> |lives0| == 0)
    else Explicit(lives, expected)
  }

  /** One range, where the first block has a delimiter or is not the insertion point. */
  lemma StepAgrees(sp: seq<Spot>, s: nat, e: nat, source: seq<VisibleBlock>)
    requires Typed(source) && s <= e <= |Blocks(Shown(sp))| && (e > 0 || Headed(Shown(sp)))
    ensures Place(sp, s) <= Place(sp, e) <= |sp|
    ensures var B, after := Blocks(Shown(sp)), Shown(Replaced(sp, Place(sp, s), Place(sp, e), FlatAll(source)));
            && Blocks(after) == B[..s] + source + B[e..]
            && (s == 0 ==> Headed(after))
            && (s > 0 ==> |after| > 0 && |Shown(sp)| > 0 && after[0] == Shown(sp)[0])
  {
    hide Blocks, Shown, FlatAll, Replaced, Place;
    BlocksReplaced(sp, s, e, source);
    if s > 0 {
      CutBlocks(sp, s);
      var at := Place(sp, s);
      ReplacedShows(sp, at, Place(sp, e), FlatAll(source));
      BlocksEmpty(Shown(sp[..at]));
      ShownConcat(sp[..at], sp[at..]);
      assert sp[..at] + sp[at..] == sp;
    }
  }

  /** A range that changes nothing. */
  lemma NothingChanges(sp: seq<Spot>, s: nat)
    ensures Place(sp, s) <= |sp| && Shown(Replaced(sp, Place(sp, s), Place(sp, s), FlatAll([]))) == Shown(sp)
  {
    hide Shown, Replaced, Place;
    PlacesAscend(sp, s, s);
    var at := Place(sp, s);
    ReplacedShows(sp, at, at, FlatAll([]));
    assert FlatAll([]) == [];
    ShownConcat(sp[..at], sp[at..]);
    assert sp[..at] + sp[at..] == sp && Shown(sp[..at]) + [] == Shown(sp[..at]);
  }

  /** A range over the empty document. */
  lemma EmptyStep(sp: seq<Spot>, s: nat, e: nat, source: seq<VisibleBlock>)
    requires Typed(source) && Shown(sp) == [] && s <= e
    ensures Place(sp, s) == Place(sp, e) == |sp|
    ensures Shown(Replaced(sp, Place(sp, s), Place(sp, e), FlatAll(source))) == FlatAll(source)
  {
    hide Shown, Replaced, FlatAll;
    StartsCut(sp);
    BlocksEmpty(Shown(sp));
    ReplacedShows(sp, |sp|, |sp|, FlatAll(source));
    assert sp[..|sp|] == sp && sp[|sp|..] == [];
    ShownNone();
    assert [] + FlatAll(source) + [] == FlatAll(source);
  }

  // ------------------------------------------------------------------ the three cases

  lemma KeepsExplicit(sp: seq<Spot>, e: seq<VisibleBlock>, h: BlockHunk)
    requires Explicit(Shown(sp), e) && Typed(h.replacement) && h.start <= h.end <= |e|
    ensures Place(sp, h.start) <= |sp|
    ensures Explicit(Shown(Replaced(sp, Place(sp, h.start), Place(sp, h.end), FlatAll(h.replacement))),
                     e[..h.start] + h.replacement + e[h.end..])
  {
    hide Blocks, Shown, FlatAll, Replaced, Place;
    StepAgrees(sp, h.start, h.end, h.replacement);
  }

  predicate AddsBeside(lives: seq<Live>, h: BlockHunk) {
    h.start == h.end && |h.replacement| > 0 && (h.start == 0 || |lives| == 0)
  }

  lemma FromImplicit(sp: seq<Spot>, e: seq<VisibleBlock>, h: BlockHunk)
    requires StillImplicit(Shown(sp), e) && Typed(h.replacement) && h.start <= h.end <= |e|
    ensures Place(sp, h.start) <= |sp|
    ensures var lives, e' := Shown(Replaced(sp, Place(sp, h.start), Place(sp, h.end), FlatAll(h.replacement))),
                             e[..h.start] + h.replacement + e[h.end..];
            if h.start == 0 && h.end > 0 then Explicit(lives, e')
            else if AddsBeside(Shown(sp), h) then OffByOne(lives, e')
            else StillImplicit(lives, e') && (|lives| == 0 <==> |Shown(sp)| == 0)
  {
    hide Blocks, Shown, FlatAll, Replaced, Place;
    if |Shown(sp)| == 0 {
      FromEmpty(sp, e, h);
    } else if h.start == 0 && h.end == 0 {
      if |h.replacement| == 0 {
        NothingChanges(sp, 0);
        assert e[..0] + h.replacement + e[0..] == e;
      } else {
        ImplicitSwallowed(sp, h.replacement);
        SwallowHeaded(sp, h.replacement);
      }
    } else {
      StepAgrees(sp, h.start, h.end, h.replacement);
    }
  }

  lemma FromEmpty(sp: seq<Spot>, e: seq<VisibleBlock>, h: BlockHunk)
    requires Shown(sp) == [] && e == [DEFAULT_BLOCK] && Typed(h.replacement) && h.start <= h.end <= 1
    ensures Place(sp, h.start) <= |sp|
    ensures var lives, e' := Shown(Replaced(sp, Place(sp, h.start), Place(sp, h.end), FlatAll(h.replacement))),
                             e[..h.start] + h.replacement + e[h.end..];
            if h.start == 0 && h.end > 0 then Explicit(lives, e')
            else if |h.replacement| > 0 then OffByOne(lives, e')
            else StillImplicit(lives, e') && lives == []
  {
    hide Shown, FlatAll, Replaced, Place, Blocks;
    EmptyStep(sp, h.start, h.end, h.replacement);
    FlatBlocks(h.replacement);
    FlatHeaded(h.replacement);
    if |h.replacement| == 0 { BlocksEmpty(FlatAll(h.replacement)); }
    if h.end > h.start { assert e[..0] + h.replacement + e[1..] == h.replacement; }
  }

  lemma {:induction false} SwallowHeaded(sp: seq<Spot>, source: seq<VisibleBlock>)
    requires Typed(source) && |source| > 0
    ensures Place(sp, 0) <= |sp| && Headed(Shown(Replaced(sp, Place(sp, 0), Place(sp, 0), FlatAll(source))))
  {
    hide Blocks, Shown, FlatAll, Replaced, Place;
    PlacesAscend(sp, 0, 0);
    CutBlocks(sp, 0);
    BlocksEmpty(Shown(sp[..Place(sp, 0)]));
    ReplacedShows(sp, Place(sp, 0), Place(sp, 0), FlatAll(source));
    FlatBlocks(source);
    assert [] + FlatAll(source) == FlatAll(source);
  }

  lemma StaysOffByOne(sp: seq<Spot>, e: seq<VisibleBlock>, h: BlockHunk)
    requires OffByOne(Shown(sp), e) && Typed(h.replacement) && h.start == h.end == 0
    ensures Place(sp, 0) <= |sp|
    ensures OffByOne(Shown(Replaced(sp, Place(sp, 0), Place(sp, 0), FlatAll(h.replacement))),
                     e[..0] + h.replacement + e[0..])
  {
    hide Blocks, Shown, FlatAll, Replaced, Place;
    StepAgrees(sp, 0, 0, h.replacement);
    BlocksEmpty(Shown(sp));
    BlocksEmpty(Shown(Replaced(sp, Place(sp, 0), Place(sp, 0), FlatAll(h.replacement))));
  }

  /** A misplaced addition leaves only an insertion at the very front to come. */
  lemma MisplacedStays(lives: seq<Live>, hunks: seq<BlockHunk>, n: nat, j: nat)
    requires Accepted(hunks, n) && j < |hunks| && Misplaced(lives, hunks, j + 1) && (|lives| == 0 ==> n == 1)
    ensures hunks[j].start == 0 && hunks[j].end == 0 && Misplaced(lives, hunks, j)
  {
    var i :| j + 1 <= i < |hunks| && hunks[i].start == hunks[i].end && |hunks[i].replacement| > 0
             && (hunks[i].start == 0 || |lives| == 0);
    EarlierEnds(hunks, n, j, i);
    StartsBefore(hunks, n, j + 1, i);
  }

  /** A range ends no later than a later one starts. */
  lemma {:induction false} EarlierEnds(hunks: seq<BlockHunk>, n: nat, j: nat, i: nat)
    requires Accepted(hunks, n) && j < i < |hunks|
    ensures hunks[j].end <= hunks[i].start
    ensures hunks[i].start == hunks[i].end && i == j + 1 ==> hunks[j].end < hunks[i].start
    decreases i
  {
    if j + 1 < i { EarlierEnds(hunks, n, j, i - 1); }
  }

  lemma StartsBefore(hunks: seq<BlockHunk>, n: nat, j: nat, i: nat)
    requires Accepted(hunks, n) && j <= i < |hunks|
    ensures hunks[j].start <= hunks[i].start
  {
    if j < i { EarlierEnds(hunks, n, j, i); }
  }

  lemma MisplacedNext(lives: seq<Live>, hunks: seq<BlockHunk>, j: nat)
    requires j < |hunks|
    ensures ReplacesFirst(hunks, j) <==> ReplacesFirst(hunks, j + 1) || (hunks[j].start == 0 && hunks[j].end > 0)
    ensures Misplaced(lives, hunks, j) <==>
              Implicit(lives) && !ReplacesFirst(hunks, j)
                && (Misplaced(lives, hunks, j + 1) || AddsBeside(lives, hunks[j]))
  {
  }

  /** One more range keeps the stream and the expected blocks in step, or in a
      mismatch that no later range repairs. */
  lemma TrackStep(sp0: seq<Spot>, base: seq<VisibleBlock>, hunks: seq<BlockHunk>, j: nat)
    requires base == Document(Shown(sp0)) && Accepted(hunks, |base|) && AllTyped(hunks) && j < |hunks|
    requires Tracks(Shown(sp0), hunks, j + 1, Shown(Merged(sp0, hunks, j + 1)), Expected(base, hunks, j + 1))
    ensures Tracks(Shown(sp0), hunks, j, Shown(Merged(sp0, hunks, j)), Expected(base, hunks, j))
  {
    var sp, e, h := Merged(sp0, hunks, j + 1), Expected(base, hunks, j + 1), hunks[j];
    ExpectedNext(base, hunks, j);
    MisplacedNext(Shown(sp0), hunks, j);
    TypedAt(hunks, j);
    EmptyDocument(Shown(sp0));
    hide Blocks, Shown, FlatAll, Replaced, Place, Expected, Explicit, StillImplicit, OffByOne, Misplaced, ReplacesFirst,
         Accepted, Document, AllTyped, Typed;
    if Misplaced(Shown(sp0), hunks, j + 1) {
      MisplacedStays(Shown(sp0), hunks, |base|, j);
      StaysOffByOne(sp, e, h);
    } else if Implicit(Shown(sp0)) && !ReplacesFirst(hunks, j + 1) {
      FromImplicit(sp, e, h);
    } else {
      KeepsExplicit(sp, e, h);
    }
  }

  lemma TypedAt(hunks: seq<BlockHunk>, j: nat)
    requires AllTyped(hunks) && j < |hunks|
    ensures Typed(hunks[j].replacement)
  {
  }

  lemma EmptyDocument(lives: seq<Live>)
    ensures |lives| == 0 ==> Document(lives) == [DEFAULT_BLOCK]
    ensures |lives| > 0 ==> Document(lives) == Blocks(lives)
  {
    BlocksEmpty(lives);
  }

  lemma {:induction false} TrackAll(sp0: seq<Spot>, base: seq<VisibleBlock>, hunks: seq<BlockHunk>, j: nat)
    requires base == Document(Shown(sp0)) && Accepted(hunks, |base|) && AllTyped(hunks) && j <= |hunks|
    ensures Tracks(Shown(sp0), hunks, j, Shown(Merged(sp0, hunks, j)), Expected(base, hunks, j))
    decreases |hunks| - j
  {
    hide Blocks, Shown, Document, Accepted, AllTyped;
    if j < |hunks| {
      hide Tracks;
      TrackAll(sp0, base, hunks, j + 1);
      TrackStep(sp0, base, hunks, j);
    } else {
      ExpectedEnd(base, hunks);
      EmptyDocument(Shown(sp0));
    }
  }

  /** The default block stands in for an empty list. */
  function OrDefault(blocks: seq<VisibleBlock>): seq<VisibleBlock> {
    if |blocks| == 0 then [DEFAULT_BLOCK] else blocks
  }

  /** Merging from last to first shows the simultaneous replacement of all ranges
      if and only if no addition is misplaced. */
  lemma MergeAgrees(sp: seq<Spot>, hunks: seq<BlockHunk>)
    requires Accepted(hunks, |Document(Shown(sp))|) && AllTyped(hunks)
    ensures Document(Shown(Merged(sp, hunks, 0))) == OrDefault(Expected(Document(Shown(sp)), hunks, 0))
            <==> !Misplaced(Shown(sp), hunks, 0)
  {
    hide Shown, Accepted, AllTyped, Misplaced, ReplacesFirst, Merged, Expected, Blocks;
    TrackAll(sp, Document(Shown(sp)), hunks, 0);
    BlocksEmpty(Shown(Merged(sp, hunks, 0)));
  }
}
