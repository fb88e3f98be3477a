/** The stretch of the stream that belongs to one block, and rewriting its live
    items in place. */
module Regions {
  import opened Types
  import opened Visible
  import opened Edits
  import opened BlockSpots

  // ------------------------------------------------------------- one block's items

  /** The first visible item is a delimiter. */
  predicate Explicit(sp: seq<Spot>) {
    |Shown(sp)| > 0 && Headed(Shown(sp))
  }

  /** Where the region of block `k` begins: at its delimiter, or, for an implicit
      first block, at the start of the stream. */
  function Region(sp: seq<Spot>, k: nat): nat {
    if k == 0 && !Explicit(sp) then 0 else Place(sp, k)
  }

  /** A block's live items: an opening delimiter and the characters. */
  ghost predicate OneBlock(lives: seq<Live>, block: VisibleBlock) {
    && |lives| > 0 && lives[0].kind == Delimiter
    && Opened(lives[0]) == block.(chars := []) && lives[1..] == FlatChars(block.chars)
  }

  /** The last of several items of one block is a character of it. */
  lemma LastCharacter(lives: seq<Live>, block: VisibleBlock) returns (b: VisibleBlock)
    requires |lives| > 1 && Blocks(lives) == [block]
    ensures Blocks(lives[..|lives| - 1]) == [b] && lives[|lives| - 1].kind == Text
    ensures var x := lives[|lives| - 1]; block == b.(chars := b.chars + [VisibleChar(x.scalar, x.attrs)])
  {
    var before, x := lives[..|lives| - 1], lives[|lives| - 1];
    assert before + [x] == lives;
    BlocksNext(before, x);
    BlocksEmpty(before);
    hide Blocks;
    assert |Blocks(before)| == 1;
    b := Blocks(before)[0];
    assert Blocks(before) == [b];
    AppendedOne(b, x, block);
  }

  lemma AppendedOne(b: VisibleBlock, x: Live, block: VisibleBlock)
    requires Appended([b], x) == [block]
    ensures x.kind == Text && block == b.(chars := b.chars + [VisibleChar(x.scalar, x.attrs)])
  {
    assert x.kind == Delimiter ==> Appended([b], x) == [b, Opened(x)];
    assert x.kind == Text ==> Appended([b], x)[0] == b.(chars := b.chars + [VisibleChar(x.scalar, x.attrs)]);
  }

  lemma FlatCharsNext(chars: seq<VisibleChar>, ch: VisibleChar)
    ensures FlatChars(chars + [ch]) == FlatChars(chars) + [Live(Text, ch.scalar, ch.marks)]
  {
  }

  lemma FirstItem(lives: seq<Live>, block: VisibleBlock)
    requires |lives| == 1 && Blocks(lives) == [block]
    ensures lives[0].kind == Delimiter ==> Opened(lives[0]) == block
    ensures lives[0].kind == Text ==> block == DEFAULT_BLOCK.(chars := [VisibleChar(lives[0].scalar, lives[0].attrs)])
  {
    var x := lives[0];
    assert lives[..0] == [];
    assert Blocks([]) == [];
    assert Blocks(lives) == Appended([], x);
    assert x.kind == Delimiter ==> Appended([], x)[0] == Opened(x);
    assert x.kind == Text ==> Appended([], x)[0] == DEFAULT_BLOCK.(chars := [] + [VisibleChar(x.scalar, x.attrs)]);
  }

  lemma {:induction false} OneBlockItems(lives: seq<Live>, block: VisibleBlock)
    requires |lives| > 0 && lives[0].kind == Delimiter && Blocks(lives) == [block]
    ensures OneBlock(lives, block)
    decreases |lives|
  {
    hide Blocks, Opened, FlatChars;
    var n := |lives| - 1;
    if n == 0 {
      FirstItem(lives, block);
      OpenedEmpty(lives[0]);
      assert FlatChars([]) == [] by { NoFlat(); }
    } else {
      var b := LastCharacter(lives, block);
      OneBlockItems(lives[..n], b);
      FlatCharsNext(b.chars, VisibleChar(lives[n].scalar, lives[n].attrs));
      assert lives[1..] == lives[..n][1..] + [lives[n]];
    }
  }

  lemma OpenedEmpty(x: Live)
    ensures Opened(x).chars == []
  {
  }

  lemma NoFlat()
    ensures FlatChars([]) == []
  {
  }

  /** An implicit block's live items: the characters alone. */
  lemma {:induction false} ImplicitItems(lives: seq<Live>, block: VisibleBlock)
    requires |lives| > 0 && lives[0].kind == Text && Blocks(lives) == [block]
    ensures lives == FlatChars(block.chars) && block.(chars := []) == DEFAULT_BLOCK
    decreases |lives|
  {
    hide Blocks, FlatChars;
    var n := |lives| - 1;
    if n == 0 {
      FirstItem(lives, block);
      NoFlat();
      FlatCharsNext([], VisibleChar(lives[0].scalar, lives[0].attrs));
      assert [] + [VisibleChar(lives[0].scalar, lives[0].attrs)] == block.chars;
    } else {
      var b := LastCharacter(lives, block);
      ImplicitItems(lives[..n], b);
      FlatCharsNext(b.chars, VisibleChar(lives[n].scalar, lives[n].attrs));
      assert lives == lives[..n] + [lives[n]];
    }
  }

  /** Items that make one block, whatever its delimiter's registers hold. */
  lemma {:induction false} OneBlockShows(lives: seq<Live>, block: VisibleBlock)
    requires OneBlock(lives, block)
    ensures Blocks(lives) == [block]
    decreases |block.chars|
  {
    var n := |block.chars|;
    assert |lives| == n + 1;
    assert lives[..n] + [lives[n]] == lives;
    if n == 0 {
      assert lives == [lives[0]] && lives[..0] == [];
      assert Blocks(lives) == [Opened(lives[0])];
    } else {
      var b := block.(chars := block.chars[..n - 1]);
      assert lives[..n][1..] == lives[1..][..n - 1];
      assert FlatChars(b.chars) == FlatChars(block.chars)[..n - 1];
      OneBlockShows(lives[..n], b);
      assert lives[n] == lives[1..][n - 1] == Live(Text, block.chars[n - 1].scalar, block.chars[n - 1].marks);
      assert block.chars == block.chars[..n - 1] + [block.chars[n - 1]];
    }
  }

  lemma {:induction false} TextShows(chars: seq<VisibleChar>)
    requires |chars| > 0
    ensures Blocks(FlatChars(chars)) == [DEFAULT_BLOCK.(chars := chars)]
  {
    var lives, n := FlatChars(chars), |chars| - 1;
    assert lives[..n] == FlatChars(chars[..n]);
    assert chars == chars[..n] + [chars[n]];
    if n == 0 {
      assert lives[..0] == [];
    } else {
      TextShows(chars[..n]);
    }
  }

  lemma RegionsAscend(sp: seq<Spot>, k: nat)
    ensures Region(sp, k) <= Region(sp, k + 1) <= |sp|
  {
    PlacesAscend(sp, k, k + 1);
  }

  lemma RegionCuts(sp: seq<Spot>, k: nat)
    requires k <= |Blocks(Shown(sp))|
    ensures Region(sp, k) <= |sp| && Blocks(Shown(sp[..Region(sp, k)])) == Blocks(Shown(sp))[..k]
  {
    hide Blocks, Shown, Place;
    CutBlocks(sp, k);
    if k == 0 {
      ShownNone();
      BlocksEmpty([]);
      assert sp[..0] == [];
    }
  }

  /** Nothing is shown before the first region. */
  lemma NothingBefore(sp: seq<Spot>)
    ensures Region(sp, 0) <= |sp| && Shown(sp[..Region(sp, 0)]) == []
  {
    hide Blocks, Shown, Place;
    PlacesAscend(sp, 0, 0);
    RegionCuts(sp, 0);
    BlocksEmpty(Shown(sp[..Region(sp, 0)]));
  }

  /** The region of an explicit block shows that block and nothing else. */
  lemma RegionShows(sp: seq<Spot>, k: nat)
    requires k < |Blocks(Shown(sp))| && (k > 0 || Explicit(sp))
    ensures Region(sp, k) < Region(sp, k + 1) <= |sp| && sp[Region(sp, k)].live
    ensures OneBlock(Shown(sp[Region(sp, k)..Region(sp, k + 1)]), Blocks(Shown(sp))[k])
  {
    hide Blocks, Shown, Place, OneBlock, Starts;
    RegionHead(sp, k);
    var from, to := Region(sp, k), Region(sp, k + 1);
    var mid := sp[from..to];
    RegionCuts(sp, k);
    RegionCuts(sp, k + 1);
    assert sp[..to] == sp[..from] + mid;
    ShownConcat(sp[..from], mid);
    BlocksJoin(Shown(sp[..from]), Shown(mid));
    PrefixRest(Blocks(Shown(sp))[..k + 1], Blocks(Shown(sp[..from])), Blocks(Shown(mid)), k);
    OneBlockItems(Shown(mid), Blocks(Shown(sp))[k]);
  }

  lemma RegionHead(sp: seq<Spot>, k: nat)
    requires k < |Blocks(Shown(sp))| && (k > 0 || Explicit(sp))
    ensures Region(sp, k) < Region(sp, k + 1) <= |sp| && sp[Region(sp, k)].live
    ensures var lives := Shown(sp[Region(sp, k)..Region(sp, k + 1)]);
            |lives| > 0 && lives[0].kind == Delimiter
  {
    hide Blocks, Shown, Starts;
    StartsCut(sp);
    var at := Place(sp, k);
    assert CutsAt(sp, at, k);
    StartsStrict(sp, k);
    PlaceStep(sp, k);
    RegionsAscend(sp, k);
    var to := Region(sp, k + 1);
    if k == 0 { HeadIs(sp, at); }
    ShownHead(sp[..to], at);
    assert sp[..to][at..] == sp[at..to];
  }

  /** The item at the first start is the first live one. */
  lemma HeadIs(sp: seq<Spot>, at: nat)
    requires CutsAt(sp, at, 0) && Headed(Shown(sp))
    ensures sp[at].show.kind == Delimiter
  {
    hide Blocks, Shown;
    ShownHead(sp, at);
    ShownConcat(sp[..at], sp[at..]);
    assert sp[..at] + sp[at..] == sp;
    assert [] + Shown(sp[at..]) == Shown(sp[at..]);
  }

  lemma {:induction false} StartsStrict(sp: seq<Spot>, k: nat)
    requires k < |Starts(sp)|
    ensures Starts(sp)[k] < |sp| && forall j :: k < j < |Starts(sp)| ==> Starts(sp)[k] < Starts(sp)[j]
  {
    StartsAscend(sp);
    if |sp| > 0 {
      var n := |sp| - 1;
      StartsAscend(sp[..n]);
      if k < |Starts(sp[..n])| { StartsStrict(sp[..n], k); }
    }
  }

  lemma PlaceStep(sp: seq<Spot>, k: nat)
    requires k < |Starts(sp)| && (forall j :: k < j < |Starts(sp)| ==> Starts(sp)[k] < Starts(sp)[j])
             && Starts(sp)[k] < |sp|
    ensures Place(sp, k) < Region(sp, k + 1)
  {
    hide Starts;
  }

  /** The region of an implicit first block shows its characters only. */
  lemma FirstRegionShows(sp: seq<Spot>)
    requires |Shown(sp)| > 0 && !Headed(Shown(sp))
    ensures Region(sp, 1) <= |sp| && |Blocks(Shown(sp))| > 0
    ensures var b := Blocks(Shown(sp))[0];
            Shown(sp[0..Region(sp, 1)]) == FlatChars(b.chars) && b.(chars := []) == DEFAULT_BLOCK
  {
    hide Blocks, Shown, Place;
    BlocksEmpty(Shown(sp));
    RegionsAscend(sp, 0);
    var to := Region(sp, 1);
    RegionCuts(sp, 1);
    assert sp[0..to] == sp[..to];
    BlocksEmpty(Shown(sp[..to]));
    ShownConcat(sp[..to], sp[to..]);
    assert sp[..to] + sp[to..] == sp;
    var b := Blocks(Shown(sp))[0];
    assert Blocks(Shown(sp))[..1] == [b];
    ImplicitItems(Shown(sp[..to]), b);
  }
}
