/** The visible document: the live items of a stream, partitioned into blocks at
    the delimiters. */
module Visible {
  import opened Types

  /** What a live item shows: its kind, scalar and currently set attributes. */
  datatype Live = Live(kind: ItemKind, scalar: nat, attrs: map<Bytes, Bytes>)

  datatype VisibleChar = VisibleChar(scalar: nat, marks: map<Bytes, Bytes>)

  datatype VisibleBlock = VisibleBlock(blockType: Bytes, attrs: map<Bytes, Bytes>, chars: seq<VisibleChar>)

  const DEFAULT_BLOCK := VisibleBlock(DEFAULT_BLOCK_TYPE, map[], [])

  /** The set registers; cleared ones do not show. */
  function SetValues(attrs: AttrMap): map<Bytes, Bytes> {
    map name | name in attrs && attrs[name].value.Some? :: attrs[name].value.value
  }

  function LiveOf(item: Item): Live {
    Live(item.kind, item.scalar, SetValues(item.attrs))
  }

  function Lives(stream: seq<Item>): seq<Live> {
    if |stream| == 0 then []
    else
      var n := |stream| - 1;
      Lives(stream[..n]) + (if stream[n].tombstoned then [] else [LiveOf(stream[n])])
  }

  /** A delimiter opens a block of its "type" attribute, carrying its other ones. */
  function Opened(live: Live): VisibleBlock {
    VisibleBlock(if TYPE_NAME in live.attrs then live.attrs[TYPE_NAME] else DEFAULT_BLOCK_TYPE,
                 live.attrs - {TYPE_NAME}, [])
  }

  /** A text item joins the last block, opening an implicit first one if needed. */
  function Appended(blocks: seq<VisibleBlock>, live: Live): seq<VisibleBlock> {
    if live.kind == Delimiter then blocks + [Opened(live)]
    else
      var bs := if |blocks| == 0 then [DEFAULT_BLOCK] else blocks;
      var n := |bs| - 1;
      bs[n := bs[n].(chars := bs[n].chars + [VisibleChar(live.scalar, live.attrs)])]
  }

  function Blocks(lives: seq<Live>): seq<VisibleBlock> {
    if |lives| == 0 then [] else Appended(Blocks(lives[..|lives| - 1]), lives[|lives| - 1])
  }

  /** An empty document shows one empty default block. */
  function Document(lives: seq<Live>): seq<VisibleBlock> {
    var blocks := Blocks(lives);
    if |blocks| == 0 then [DEFAULT_BLOCK] else blocks
  }

  function VisibleDocument(stream: seq<Item>): seq<VisibleBlock> {
    Document(Lives(stream))
  }

  datatype StreamEntry = StreamEntry(id: OpId, kind: ItemKind, scalar: nat, tombstoned: bool, attrs: map<Bytes, Bytes>)

  function EntryOf(item: Item): StreamEntry {
    StreamEntry(item.id, item.kind, item.scalar, item.tombstoned, SetValues(item.attrs))
  }

  /** An entry tells an item's identity, kind, scalar and tombstone, and of its registers
      those that hold a value. */
  predicate Tells(e: StreamEntry, x: Item) {
    && e.id == x.id && e.kind == x.kind && e.scalar == x.scalar && (e.tombstoned <==> x.tombstoned)
    && (forall name :: name in e.attrs ==> name in x.attrs && x.attrs[name].value == Some(e.attrs[name]))
    && (forall name :: name in x.attrs && x.attrs[name].value.Some? ==> name in e.attrs)
  }

  lemma EntryTells(x: Item)
    ensures Tells(EntryOf(x), x)
  {
  }

  // ------------------------------------------------------------- decomposition

  /** One more item: a tombstone shows nothing, a live item joins the blocks. */
  lemma LivesNext(stream: seq<Item>, k: int)
    requires 0 <= k < |stream|
    ensures Blocks(Lives(stream[..k + 1])) ==
            if stream[k].tombstoned then Blocks(Lives(stream[..k]))
            else Appended(Blocks(Lives(stream[..k])), LiveOf(stream[k]))
  {
    assert stream[..k + 1][..k] == stream[..k];
    var ls := Lives(stream[..k]);
    assert (ls + [LiveOf(stream[k])])[..|ls|] == ls;
    assert ls + [] == ls;
  }

  lemma AppendedRight(x: seq<VisibleBlock>, y: seq<VisibleBlock>, live: Live)
    requires |y| > 0 || live.kind == Delimiter
    ensures Appended(x + y, live) == x + Appended(y, live)
  {
  }

  /** Once a block is open, what follows does not touch the blocks before it. */
  lemma {:induction false} BlocksFrom(a: seq<Live>, b: seq<Live>)
    requires |b| > 0 && b[0].kind == Delimiter
    ensures Blocks(a + b) == Blocks(a) + Blocks(b) && |Blocks(b)| > 0
  {
    hide Appended;
    var n := |b| - 1;
    assert (a + b)[..|a + b| - 1] == a + b[..n];
    AppendedGrows(Blocks(b[..n]), b[n]);
    if n == 0 {
      AppendedRight(Blocks(a), [], b[0]);
      assert b[..0] == [] && a + b[..0] == a;
      assert Blocks([]) == [] && Blocks(a) + [] == Blocks(a);
    } else {
      BlocksFrom(a, b[..n]);
      AppendedRight(Blocks(a), Blocks(b[..n]), b[n]);
    }
  }

  lemma AppendedGrows(blocks: seq<VisibleBlock>, live: Live)
    ensures |Appended(blocks, live)| > 0
  {
  }
}
