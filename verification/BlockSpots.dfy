/** Blocks and the places of the stream they stand at: what cutting out a range of
    blocks and writing others in its place does to the visible document. */
module BlockSpots {
  import opened Types
  import opened Visible
  import opened Edits

  // ---------------------------------------------------------------------- starts

  /** The places where blocks begin: live delimiters, and the first live item. */
  function Starts(sp: seq<Spot>): seq<nat> {
    if |sp| == 0 then []
    else
      var n := |sp| - 1;
      var before := Starts(sp[..n]);
      if sp[n].live && (|before| == 0 || sp[n].show.kind == Delimiter) then before + [n] else before
  }

  lemma ShownNext(sp: seq<Spot>, n: int)
    requires 0 <= n < |sp|
    ensures Shown(sp[..n + 1]) == Shown(sp[..n]) + (if sp[n].live then [sp[n].show] else [])
  {
    assert sp[..n + 1][..n] == sp[..n];
  }

  lemma ShownLast(sp: seq<Spot>, x: Spot)
    ensures Shown(sp + [x]) == if x.live then Shown(sp) + [x.show] else Shown(sp)
    ensures |sp| == 0 ==> Shown(sp) == []
  {
    assert (sp + [x])[..|sp|] == sp;
    assert Shown(sp) + [] == Shown(sp);
  }

  lemma {:induction false} ShownConcat(a: seq<Spot>, b: seq<Spot>)
    ensures Shown(a + b) == Shown(a) + Shown(b)
  {
    if |b| == 0 {
      assert a + b == a;
    } else {
      assert (a + b)[..|a + b| - 1] == a + b[..|b| - 1];
      ShownConcat(a, b[..|b| - 1]);
    }
  }

  /** Cutting at the start of block `k` separates the first `k` blocks. */
  ghost predicate CutsAt(sp: seq<Spot>, at: nat, k: nat) {
    && at < |sp| && sp[at].live && (k > 0 ==> sp[at].show.kind == Delimiter)
    && k < |Blocks(Shown(sp))| && Blocks(Shown(sp[..at])) == Blocks(Shown(sp))[..k]
    && (k == 0 ==> Shown(sp[..at]) == [])
  }

  lemma BlocksEmpty(lives: seq<Live>)
    ensures |Blocks(lives)| == 0 <==> |lives| == 0
  {
    if |lives| > 0 { AppendedGrows(Blocks(lives[..|lives| - 1]), lives[|lives| - 1]); }
  }

  lemma CutGrows(sp: seq<Spot>, x: Spot, at: nat, k: nat)
    requires CutsAt(sp, at, k)
    ensures CutsAt(sp + [x], at, k)
  {
    var more := sp + [x];
    assert more[..|sp|] == sp && more[..at] == sp[..at];
    ShownNext(more, |sp|);
    if x.live {
      BlocksNext(Shown(sp), x.show);
    } else {
      assert Shown(sp) + [] == Shown(sp);
    }
  }

  lemma BlocksNext(lives: seq<Live>, x: Live)
    ensures Blocks(lives + [x]) == Appended(Blocks(lives), x)
    ensures |Blocks(lives)| > 0 && x.kind == Delimiter ==> |Blocks(lives + [x])| == |Blocks(lives)| + 1
    ensures forall k :: 0 <= k < |Blocks(lives)| ==> Blocks(lives + [x])[..k] == Blocks(lives)[..k]
    ensures |Blocks(lives + [x])| == if |Blocks(lives)| == 0 || x.kind == Delimiter then |Blocks(lives)| + 1
                                     else |Blocks(lives)|
  {
    assert (lives + [x])[..|lives|] == lives;
  }

  lemma NewCut(sp: seq<Spot>, x: Spot)
    requires x.live && (Shown(sp) == [] || x.show.kind == Delimiter)
    ensures CutsAt(sp + [x], |sp|, |Blocks(Shown(sp))|)
  {
    hide Blocks, Shown, Opened;
    var more := sp + [x];
    assert more[..|sp|] == sp;
    ShownNext(more, |sp|);
    assert more[..|sp| + 1] == more;
    BlocksNext(Shown(sp), x.show);
    BlocksEmpty(Shown(sp));
    var all, before := Blocks(Shown(more)), Blocks(Shown(sp));
    if x.show.kind == Delimiter {
      assert all == before + [Opened(x.show)];
      assert all[..|before|] == before;
    } else {
      assert before == [] && all[..0] == [];
    }
  }

  /** There is one start for each block, and it cuts there. */
  lemma {:induction false} StartsCut(sp: seq<Spot>)
    ensures |Starts(sp)| == |Blocks(Shown(sp))|
    ensures forall k :: 0 <= k < |Starts(sp)| ==> CutsAt(sp, Starts(sp)[k], k)
  {
    hide CutsAt, Blocks, Shown;
    if |sp| > 0 {
      var n := |sp| - 1;
      var before, x := sp[..n], sp[n];
      StartsCut(before);
      assert before + [x] == sp;
      ShownLast(before, x);
      forall k | 0 <= k < |Starts(before)| ensures CutsAt(sp, Starts(before)[k], k) {
        CutGrows(before, x, Starts(before)[k], k);
      }
      BlocksEmpty(Shown(before));
      if x.live { BlocksNext(Shown(before), x.show); }
      if x.live && (|Starts(before)| == 0 || x.show.kind == Delimiter) { NewCut(before, x); }
    } else {
      ShownLast(sp, Spot(false, Live(Text, 0, map[])));
      BlocksEmpty(Shown(sp));
    }
  }

  /** Where block `k` starts; the end of the stream for what lies beyond the last. */
  function Place(sp: seq<Spot>, k: nat): (at: nat)
  {
    if k < |Starts(sp)| then Starts(sp)[k] else |sp|
  }

  // -------------------------------------------------------------------- flattening

  /** A block as items: its delimiter, then its characters. */
  function Flat(block: VisibleBlock): (r: seq<Live>)
    ensures |r| == 1 + |block.chars|
  {
    [Live(Delimiter, 0, map[TYPE_NAME := block.blockType] + block.attrs)] + FlatChars(block.chars)
  }

  function FlatChars(chars: seq<VisibleChar>): (r: seq<Live>)
    ensures |r| == |chars|
  {
    seq(|chars|, i requires 0 <= i < |chars| => Live(Text, chars[i].scalar, chars[i].marks))
  }

  function FlatAll(blocks: seq<VisibleBlock>): seq<Live> {
    if |blocks| == 0 then [] else FlatAll(blocks[..|blocks| - 1]) + Flat(blocks[|blocks| - 1])
  }

  /** The type is kept apart from a block's other attributes. */
  predicate Typed(blocks: seq<VisibleBlock>) {
    forall i :: 0 <= i < |blocks| ==> TYPE_NAME !in blocks[i].attrs
  }

  lemma {:induction false} FlatCharsBlocks(block: VisibleBlock, n: nat)
    requires TYPE_NAME !in block.attrs && n <= |block.chars|
    ensures Blocks(Flat(block)[..1 + n]) == [block.(chars := block.chars[..n])]
    decreases n
  {
    var lives := Flat(block)[..1 + n];
    if n == 0 {
      assert lives == [Flat(block)[0]];
      assert lives[..0] == [];
      assert (map[TYPE_NAME := block.blockType] + block.attrs) - {TYPE_NAME} == block.attrs;
    } else {
      FlatCharsBlocks(block, n - 1);
      assert lives[..n] == Flat(block)[..n];
      assert block.chars[..n] == block.chars[..n - 1] + [block.chars[n - 1]];
    }
  }

  lemma FlatOne(block: VisibleBlock)
    requires TYPE_NAME !in block.attrs
    ensures Blocks(Flat(block)) == [block] && Flat(block)[0].kind == Delimiter
  {
    FlatCharsBlocks(block, |block.chars|);
    assert Flat(block)[..1 + |block.chars|] == Flat(block);
    assert block.chars[..|block.chars|] == block.chars;
  }

  lemma {:induction false} FlatBlocks(blocks: seq<VisibleBlock>)
    requires Typed(blocks)
    ensures Blocks(FlatAll(blocks)) == blocks
    ensures |blocks| > 0 ==> |FlatAll(blocks)| > 0 && FlatAll(blocks)[0].kind == Delimiter
  {
    hide Blocks, Flat;
    BlocksEmpty([]);
    if |blocks| > 0 {
      var n := |blocks| - 1;
      FlatBlocks(blocks[..n]);
      FlatOne(blocks[n]);
      BlocksFrom(FlatAll(blocks[..n]), Flat(blocks[n]));
      assert blocks == blocks[..n] + [blocks[n]];
    }
  }

  function LiveSpots(lives: seq<Live>): (r: seq<Spot>)
    ensures |r| == |lives|
  {
    seq(|lives|, i requires 0 <= i < |lives| => Spot(true, lives[i]))
  }

  lemma {:induction false} LiveSpotsShow(lives: seq<Live>)
    ensures Shown(LiveSpots(lives)) == lives
  {
    if |lives| > 0 {
      LiveSpotsShow(lives[..|lives| - 1]);
      assert LiveSpots(lives)[..|lives| - 1] == LiveSpots(lives[..|lives| - 1]);
    }
  }

  // ------------------------------------------------------------------ replacement

  /** Everything from `from` to `to` hidden. */
  function Hidden(sp: seq<Spot>, from: nat, to: nat): (r: seq<Spot>)
    ensures |r| == |sp|
  {
    seq(|sp|, i requires 0 <= i < |sp| => if from <= i < to then sp[i].(live := false) else sp[i])
  }

  /** A range of places hidden and new live items written before it. */
  function Replaced(sp: seq<Spot>, from: nat, to: nat, lives: seq<Live>): seq<Spot>
    requires from <= |sp|
  {
    Hidden(sp, from, to)[..from] + LiveSpots(lives) + Hidden(sp, from, to)[from..]
  }

  lemma {:induction false} HiddenShowsNone(sp: seq<Spot>)
    requires forall i :: 0 <= i < |sp| ==> !sp[i].live
    ensures Shown(sp) == []
  {
    if |sp| > 0 { HiddenShowsNone(sp[..|sp| - 1]); }
  }

  lemma ReplacedShows(sp: seq<Spot>, from: nat, to: nat, lives: seq<Live>)
    requires from <= to <= |sp|
    ensures Shown(Replaced(sp, from, to, lives)) == Shown(sp[..from]) + lives + Shown(sp[to..])
  {
    var h := Hidden(sp, from, to);
    assert h[..from] == sp[..from] && h[from..] == h[from..to] + sp[to..];
    HiddenShowsNone(h[from..to]);
    ShownConcat(h[from..to], sp[to..]);
    ShownConcat(h[..from], LiveSpots(lives));
    ShownConcat(h[..from] + LiveSpots(lives), h[from..]);
    LiveSpotsShow(lives);
    assert [] + Shown(sp[to..]) == Shown(sp[to..]);
  }

  /** The first visible item, if any, is a delimiter. */
  predicate Headed(lives: seq<Live>) {
    |lives| > 0 ==> lives[0].kind == Delimiter
  }

  /** Behind the start of a block the remaining blocks stand on their own. */
  lemma RestStands(sp: seq<Spot>, k: nat)
    requires k <= |Blocks(Shown(sp))| && (k > 0 || Headed(Shown(sp)))
    ensures Place(sp, k) <= |sp|
    ensures Blocks(Shown(sp[..Place(sp, k)])) == Blocks(Shown(sp))[..k]
    ensures Headed(Shown(sp[Place(sp, k)..])) && Blocks(Shown(sp[Place(sp, k)..])) == Blocks(Shown(sp))[k..]
  {
    hide Blocks, Shown;
    StartsCut(sp);
    var at := Place(sp, k);
    if k < |Starts(sp)| {
      assert CutsAt(sp, at, k);
      ShownHead(sp, at);
      ShownConcat(sp[..at], sp[at..]);
      assert sp[..at] + sp[at..] == sp;
      if k == 0 { assert [] + Shown(sp[at..]) == Shown(sp[at..]); }
      BlocksFrom(Shown(sp[..at]), Shown(sp[at..]));
      PrefixRest(Blocks(Shown(sp)), Blocks(Shown(sp[..at])), Blocks(Shown(sp[at..])), k);
    } else {
      assert sp[..at] == sp && sp[at..] == [];
      ShownNone();
      BlocksEmpty(Shown(sp[at..]));
    }
  }

  lemma ShownNone()
    ensures Shown([]) == []
  {
  }

  lemma PrefixRest<T>(all: seq<T>, x: seq<T>, y: seq<T>, k: nat)
    requires all == x + y && k <= |all| && x == all[..k]
    ensures y == all[k..]
  {
  }

  lemma ShownHead(sp: seq<Spot>, at: nat)
    requires at < |sp| && sp[at].live
    ensures |Shown(sp[at..])| > 0 && Shown(sp[at..])[0] == sp[at].show
  {
    assert sp[at..] == [sp[at]] + sp[at + 1..];
    ShownConcat([sp[at]], sp[at + 1..]);
    assert [sp[at]][..0] == [];
  }

  /** Headed parts add up block by block. */
  lemma BlocksJoin(a: seq<Live>, b: seq<Live>)
    requires Headed(b)
    ensures Blocks(a + b) == Blocks(a) + Blocks(b)
  {
    hide Blocks;
    if |b| > 0 {
      BlocksFrom(a, b);
    } else {
      BlocksEmpty(b);
      assert a + b == a && Blocks(a) + [] == Blocks(a);
    }
  }

  lemma PlacesAscend(sp: seq<Spot>, s: nat, e: nat)
    requires s <= e
    ensures Place(sp, s) <= Place(sp, e) <= |sp|
  {
    hide Blocks;
    StartsAscend(sp);
  }

  lemma {:induction false} StartsAscend(sp: seq<Spot>)
    ensures forall i :: 0 <= i < |Starts(sp)| ==> Starts(sp)[i] < |sp|
    ensures forall i, j :: 0 <= i <= j < |Starts(sp)| ==> Starts(sp)[i] <= Starts(sp)[j]
  {
    if |sp| > 0 { StartsAscend(sp[..|sp| - 1]); }
  }

  /** Replacing the places of a range of blocks replaces the blocks. */
  lemma BlocksReplaced(sp: seq<Spot>, s: nat, e: nat, source: seq<VisibleBlock>)
    requires Typed(source) && s <= e <= |Blocks(Shown(sp))| && (e > 0 || Headed(Shown(sp)))
    ensures Place(sp, s) <= Place(sp, e) <= |sp|
    ensures var B := Blocks(Shown(sp));
            Blocks(Shown(Replaced(sp, Place(sp, s), Place(sp, e), FlatAll(source)))) == B[..s] + source + B[e..]
    ensures Headed(Shown(Replaced(sp, Place(sp, s), Place(sp, e), FlatAll(source)))) || s > 0
  {
    hide Blocks, Shown, FlatAll, Replaced, Place;
    PlacesAscend(sp, s, e);
    RestStands(sp, e);
    CutBlocks(sp, s);
    FlatBlocks(source);
    ReplacedShows(sp, Place(sp, s), Place(sp, e), FlatAll(source));
    var x, y, z := Shown(sp[..Place(sp, s)]), FlatAll(source), Shown(sp[Place(sp, e)..]);
    FlatHeaded(source);
    BlocksJoin(x, y);
    BlocksJoin(x + y, z);
    if s == 0 {
      BlocksEmpty(x);
      assert x + y + z == y + z;
    }
  }

  lemma FlatHeaded(source: seq<VisibleBlock>)
    requires Typed(source)
    ensures Headed(FlatAll(source))
  {
    hide Flat;
    FlatBlocks(source);
  }

  lemma CutBlocks(sp: seq<Spot>, k: nat)
    requires k <= |Blocks(Shown(sp))|
    ensures Place(sp, k) <= |sp| && Blocks(Shown(sp[..Place(sp, k)])) == Blocks(Shown(sp))[..k]
  {
    hide Blocks, Shown;
    StartsCut(sp);
    if k < |Starts(sp)| {
      assert CutsAt(sp, Place(sp, k), k);
    } else {
      assert sp[..|sp|] == sp;
    }
  }

  /** Blocks written before an implicit first block swallow it. */
  lemma ImplicitSwallowed(sp: seq<Spot>, source: seq<VisibleBlock>)
    requires Typed(source) && |source| > 0 && !Headed(Shown(sp))
    ensures Place(sp, 0) <= |sp|
    ensures var after := Shown(Replaced(sp, Place(sp, 0), Place(sp, 0), FlatAll(source)));
            |after| > 0 && |Blocks(after)| + 1 == |Blocks(Shown(sp))| + |source|
  {
    hide Blocks, Shown, FlatAll, Replaced, Place;
    BlocksEmpty(Shown(sp));
    PlacesAscend(sp, 0, 0);
    var at := Place(sp, 0);
    CutBlocks(sp, 0);
    BlocksEmpty(Shown(sp[..at]));
    ShownConcat(sp[..at], sp[at..]);
    assert sp[..at] + sp[at..] == sp;
    ReplacedShows(sp, at, at, FlatAll(source));
    FlatBlocks(source);
    var y, z := FlatAll(source), Shown(sp);
    assert [] + y + z == y + z && [] + Shown(sp[at..]) == Shown(sp[at..]);
    TextSwallowed(y, z);
  }

  /** Text added to open blocks counts one block less than text on its own. */
  lemma {:induction false} TextSwallowed(a: seq<Live>, b: seq<Live>)
    requires |a| > 0 && |b| > 0 && b[0].kind == Text
    ensures |Blocks(a + b)| + 1 == |Blocks(a)| + |Blocks(b)|
  {
    hide Blocks;
    var n := |b| - 1;
    BlocksNext(a + b[..n], b[n]);
    BlocksNext(b[..n], b[n]);
    assert (a + b[..n]) + [b[n]] == a + b && b[..n] + [b[n]] == b;
    BlocksEmpty(a);
    BlocksEmpty(a + b[..n]);
    BlocksEmpty(b[..n]);
    if n == 0 {
      assert a + b[..0] == a;
    } else {
      TextSwallowed(a, b[..n]);
    }
  }
}
