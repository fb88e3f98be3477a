/** Inputs on which the program does not do what it is for, each with the exact
    condition under which it does. */
module Findings {
  import opened Types
  import opened Order
  import opened State
  import opened Visible
  import opened Network
  import opened Edits
  import opened Splice
  import opened BlockMergePlan
  import opened Cascade
  import opened Codec
  import Batches
  import ItemCodec
  import Snapshot
  import Replay
  import BlockMatch
  import Reconcile
  import Stability

  // ------------------------------------------------- a document with one letter

  function Paragraph(scalar: nat): VisibleBlock {
    DEFAULT_BLOCK.(chars := [VisibleChar(scalar, map[])])
  }

  /** The replica types "a" into its blank document. */
  const TYPE_A: seq<Event> := [Local(1, TypeText(0, 97))]

  lemma BlankRun(reg: Registry)
    ensures Run(reg, {1}, []).docs == map[1 := Empty(1)] && Run(reg, {1}, []).seen == map[1 := {}]
  {
  }

  lemma TypedRun(reg: Registry)
    requires Consistent(reg)
    ensures 1 in Run(reg, {1}, TYPE_A).docs
    ensures Run(reg, {1}, TYPE_A).docs[1] == Perform(reg, Empty(1), TypeText(0, 97)).0
  {
    hide Perform;
    assert Replay.Front(TYPE_A) == [] && Replay.Last(TYPE_A) == Local(1, TypeText(0, 97));
    BlankRun(reg);
  }

  lemma BlankEditable()
    ensures Editable(Empty(1)) && Spots(Empty(1).stream) == [] && !Exhausted(Empty(1))
  {
  }

  /** Its stream is one live text item, and it shows one paragraph. */
  lemma OneLetter(reg: Registry) returns (d: Doc)
    requires Consistent(reg)
    ensures 1 in Run(reg, {1}, TYPE_A).docs && d == Run(reg, {1}, TYPE_A).docs[1]
    ensures Spots(d.stream) == [Spot(true, Live(Text, 97, map[]))]
    ensures Shown(Spots(d.stream)) == [Live(Text, 97, map[])] && VisibleDocument(d.stream) == [Paragraph(97)]
  {
    hide Run, Editable, Perform;
    TypedRun(reg);
    BlankEditable();
    d := PerformPlays(reg, Empty(1), TypeText(0, 97));
    assert Play([], TypeText(0, 97)) == [Spot(true, Live(Text, 97, map[]))];
    LetterShows();
    LivesAreShown(d.stream);
  }

  lemma LetterShows()
    ensures Shown([Spot(true, Live(Text, 97, map[]))]) == [Live(Text, 97, map[])]
    ensures Blocks([Live(Text, 97, map[])]) == [Paragraph(97)]
  {
    var x := Live(Text, 97, map[]);
    assert [Spot(true, x)][..0] == [] && [x][..0] == [];
    assert Blocks([]) == [] && Blocks([x]) == Appended([], x);
    assert [] + [VisibleChar(97, map[])] == [VisibleChar(97, map[])];
    assert Appended([], x) == [DEFAULT_BLOCK.(chars := [VisibleChar(97, map[])])];
  }

  // ------------------------------------------------------------ the lost first block

  /** With "a" on the screen the editor puts a paragraph "b" before it: the first
      block is lost, so by Reconcile.ReconcileBlocks the replay does not show the
      editor's document. */
  lemma LostHappens(reg: Registry) returns (d: Doc)
    requires Consistent(reg)
    ensures 1 in Run(reg, {1}, TYPE_A).docs && d == Run(reg, {1}, TYPE_A).docs[1]
    ensures Reconcile.ContentOf(Spots(d.stream), [Paragraph(97)])
    ensures Reconcile.Lost(Spots(d.stream), [Paragraph(97)], [Paragraph(98), Paragraph(97)])
  {
    hide Run, Blocks, Shown;
    d := OneLetter(reg);
    LetterShows();
    LetterKeptBehind();
  }

  lemma LetterKeptBehind()
    ensures BlockMatch.KeptAs([Paragraph(97)], [Paragraph(98), Paragraph(97)], 0) == Some(1)
  {
    var before, after := [Paragraph(97)], [Paragraph(98), Paragraph(97)];
    assert before[0].chars[0].scalar == 97 && after[0].chars[0].scalar == 98;
    assert !BlockMatch.SameText(before[0], after[0]);
    assert BlockMatch.StartMatch(before, after, 0) == 0;
    assert BlockMatch.SameText(before[0], after[1]);
    assert BlockMatch.EndMatch(before, after, 0, 1) == 1;
    assert BlockMatch.EndMatch(before, after, 0, 0) == 1;
  }

  // --------------------------------------------------------- the misplaced addition

  /** On the same document a merge that inserts one block before the first is
      accepted as a range and misplaced, so by BlockMergePlan.MergeAgrees the final
      comparison fails. */
  lemma MisplacedHappens(reg: Registry) returns (d: Doc)
    requires Consistent(reg)
    ensures 1 in Run(reg, {1}, TYPE_A).docs && d == Run(reg, {1}, TYPE_A).docs[1]
    ensures Accepted([Hunk(0, 0, [Paragraph(98)])], |VisibleDocument(d.stream)|)
    ensures Misplaced(Shown(Spots(d.stream)), [Hunk(0, 0, [Paragraph(98)])], 0)
  {
    hide Run, Blocks, Shown;
    d := OneLetter(reg);
    assert [Hunk(0, 0, [Paragraph(98)])][0].start == 0;
  }

  // -------------------------------------------------------------- the stuck buffer

  /** A write to an item that has not arrived: buffered without a look at its name. */
  function EarlyWrite(name: Bytes): Operation {
    SetAttr(OpId(2, 2), 2, Some(OpId(2, 1)), name, None)
  }

  const LATE_ITEM: Operation := Insert(OpId(2, 1), 1, None, None, Text, 97, [])

  lemma WriteWaits(reg: Registry, name: Bytes)
    ensures ApplyRemote(reg, Empty(1), EarlyWrite(name)) == (Empty(1).(pending := [EarlyWrite(name)]), Ok(true))
  {
    assert [] + [EarlyWrite(name)] == [EarlyWrite(name)];
  }

  /** Nothing but this write is buffered, and it is not admitted for a text item. */
  lemma EarlyRefused(reg: Registry, name: Bytes, d: Doc)
    requires !reg.names(Text, name) && d == Empty(1).(pending := [EarlyWrite(name)])
    ensures Fixed(reg, d, LATE_ITEM) && RefusedWrite(reg, d, LATE_ITEM)
  {
    hide IndexOf;
    ArrivalUnlocked(d, LATE_ITEM);
    hide Unlocked, Brings;
    assert IndexOf(d, OpId(2, 1)) < 0;
    assert Refusable(reg, d, LATE_ITEM, d.pending[0]);
  }

  /** The input: a write under a name no text item has, then its item.  The second
      delivery fails, yet its item is applied; the write is gone, and by
      Stability.StuckBuffer nothing buffered later is ever looked at again. */
  lemma StuckHappens(reg: Registry, name: Bytes)
    requires !reg.names(Text, name)
    ensures var d1 := ApplyRemote(reg, Empty(1), EarlyWrite(name)).0;
            var (d2, r) := ApplyRemote(reg, d1, LATE_ITEM);
            r.Err? && LATE_ITEM.id in d2.applied && d2.retrying
  {
    WriteWaits(reg, name);
    var d1 := Empty(1).(pending := [EarlyWrite(name)]);
    EarlyRefused(reg, name, d1);
    assert EffectOf(reg, d1, LATE_ITEM).1.Integrated?;
    ArrivalFails(reg, d1, LATE_ITEM);
    Stability.RetryErrorKeepsState(reg, d1, LATE_ITEM);
  }

  // ------------------------------------------------------------------ the cascade

  const LATER_ITEM: Operation := Insert(OpId(2, 3), 3, Some(OpId(2, 1)), None, Text, 98, [])

  /** A write to the later item, buffered with it. */
  function WriteToLater(name: Bytes): Operation {
    SetAttr(OpId(2, 4), 4, Some(OpId(2, 3)), name, None)
  }

  lemma LaterRefused(reg: Registry, name: Bytes, d: Doc)
    requires !reg.names(Text, name) && d == Empty(1).(pending := [LATER_ITEM, WriteToLater(name)])
    ensures Fixed(reg, d, LATE_ITEM) && RefusedWrite(reg, d, LATE_ITEM)
  {
    hide IndexOf;
    assert forall id :: IndexOf(d, id) < 0;
    ArrivalUnlocked(d, LATE_ITEM);
    ClosureLeast(d, {LATE_ITEM.id}, {});
    assert Follows(d, Unlocked(d, LATE_ITEM), d.pending[0]);
    assert LATER_ITEM.id in Unlocked(d, LATE_ITEM);
    PendingBrings(d, LATE_ITEM, LATER_ITEM);
    hide Unlocked, Brings;
    assert Refusable(reg, d, LATE_ITEM, d.pending[1]);
  }

  /** No buffered write is to the arriving item, but to one that follows it: the
      arrival unlocks it and fails. */
  lemma CascadeHappens(reg: Registry, name: Bytes)
    requires !reg.names(Text, name)
    ensures var d1 := ApplyRemote(reg, Empty(1), LATER_ITEM).0;
            var d2 := ApplyRemote(reg, d1, WriteToLater(name)).0;
            var (d3, r) := ApplyRemote(reg, d2, LATE_ITEM);
            r.Err? && LATE_ITEM.id in d3.applied && d3.retrying
  {
    var d1, d2 := Empty(1).(pending := [LATER_ITEM]), Empty(1).(pending := [LATER_ITEM, WriteToLater(name)]);
    assert [] + [LATER_ITEM] == [LATER_ITEM] && [LATER_ITEM] + [WriteToLater(name)] == [LATER_ITEM, WriteToLater(name)];
    assert ApplyRemote(reg, Empty(1), LATER_ITEM).0 == d1;
    assert ApplyRemote(reg, d1, WriteToLater(name)).0 == d2;
    LaterRefused(reg, name, d2);
    assert EffectOf(reg, d2, LATE_ITEM).1.Integrated?;
    ArrivalFails(reg, d2, LATE_ITEM);
    Stability.RetryErrorKeepsState(reg, d2, LATE_ITEM);
  }

  // ------------------------------------------------------------ the failing export

  /** A name longer than the writer allows and not longer than the reader does. */
  function LongName(): (name: Bytes)
    ensures |name| == MAX_ATTR_NAME + 1
  {
    seq(MAX_ATTR_NAME + 1, i => 97)
  }

  /** The reader takes a write under a long name, the document buffers it, and from
      then on no snapshot of the document can be written. */
  lemma ExportHappens(reg: Registry, ids: seq<OpId>, rows: seq<OpId>)
    ensures var op := EarlyWrite(LongName());
            && Parsable(op) && ParseOp(OpBytes(op)) == Ok(op)
            && var (d, r) := ApplyRemote(reg, Empty(1), op);
            r.Ok? && ItemCodec.AllEncodable(d.stream) && Batches.AllTyped(d.pending)
            && Snapshot.Export(d, ids, rows).Err?
  {
    var op := EarlyWrite(LongName());
    WriteWaits(reg, LongName());
    var d := Empty(1).(pending := [op]);
    OpExact(OpBytes(op), op);
    hide OpBytes, ParseOp, LongName;
    assert !WritableAttr(InitialAttr(op.name, op.value));
    assert !Snapshot.Writable(d.pending[0]);
    Snapshot.ExportExact(d, ids, rows);
  }
}
