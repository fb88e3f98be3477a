/** Local edits seen in the stream: an insert lands exactly at its index, a delete
    hides one item, an attribute write always wins. */
module Edits {
  import opened Types
  import opened Order
  import opened State
  import opened Visible
  import opened Network
  import C = Counters
  import History
  import Delivery
  import Issuing

  /** One place of the stream, as far as the visible document is concerned. */
  datatype Spot = Spot(live: bool, show: Live)

  function SpotOf(item: Item): Spot {
    Spot(!item.tombstoned, LiveOf(item))
  }

  /** A place is what the stream entry of its item tells. */
  lemma EntrySpot(x: Item)
    ensures SpotOf(x) == Spot(!EntryOf(x).tombstoned, Live(EntryOf(x).kind, EntryOf(x).scalar, EntryOf(x).attrs))
  {
  }

  function Spots(stream: seq<Item>): (s: seq<Spot>)
    ensures |s| == |stream|
    ensures forall k :: 0 <= k < |s| ==> s[k] == SpotOf(stream[k])
  {
    seq(|stream|, k requires 0 <= k < |stream| => SpotOf(stream[k]))
  }

  function Shown(spots: seq<Spot>): seq<Live> {
    if |spots| == 0 then []
    else
      var n := |spots| - 1;
      Shown(spots[..n]) + (if spots[n].live then [spots[n].show] else [])
  }

  lemma {:induction false} LivesAreShown(stream: seq<Item>)
    ensures Lives(stream) == Shown(Spots(stream))
  {
    if |stream| > 0 {
      var n := |stream| - 1;
      LivesAreShown(stream[..n]);
      assert Spots(stream)[..n] == Spots(stream[..n]);
    }
  }

  /** Set or clear one attribute. */
  function Attributed(show: Live, name: Bytes, value: Option<Bytes>): Live {
    show.(attrs := if value.Some? then show.attrs[name := value.value] else show.attrs - {name})
  }

  // ---------------------------------------------------------------- one local edit

  /** The effect of a local edit on the spots. */
  function Play(spots: seq<Spot>, e: Edit): seq<Spot> {
    match e
    case TypeText(i, scalar) => if i <= |spots| then InsertAt(spots, i, Spot(true, Live(Text, scalar, map[])))
                                else spots
    case TypeDelimiter(i, blockType) =>
      if i <= |spots| then InsertAt(spots, i, Spot(true, Live(Delimiter, 0, map[TYPE_NAME := blockType]))) else spots
    case Erase(i) => if i < |spots| then spots[i := spots[i].(live := false)] else spots
    case Mark(i, name, value) =>
      if i < |spots| then spots[i := spots[i].(show := Attributed(spots[i].show, name, value))] else spots
  }

  /** The edit addresses an existing place and passes the registry. */
  predicate Playable(reg: Registry, spots: seq<Spot>, e: Edit) {
    match e
    case TypeText(i, scalar) => i <= |spots| && ValidScalar(scalar)
    case TypeDelimiter(i, blockType) => i <= |spots| && reg.values(Delimiter, TYPE_NAME, blockType)
    case Erase(i) => i < |spots|
    case Mark(i, name, value) => i < |spots| && reg.Allows(spots[i].show.kind, name, value)
  }

  /** Behind `n` new items at `cursor`, or before them. */
  function Past(j: nat, cursor: nat, n: nat): nat {
    if j < cursor then j else j + n
  }

  /** Where one edit moves the item at place `j`. */
  function MovedBy(e: Edit, j: nat): nat {
    if e.TypeText? || e.TypeDelimiter? then Past(j, e.index, 1) else j
  }

  /** Where the item that was at place `i` stands after the edits. */
  function Moved(ops: seq<Edit>, i: nat): nat {
    if |ops| == 0 then i else MovedBy(ops[|ops| - 1], Moved(ops[..|ops| - 1], i))
  }

  /** Nothing in the buffer waits for an item this replica has yet to create. */
  ghost predicate WaitsForOthers(d: Doc) {
    forall i, id :: 0 <= i < |d.pending| && Refers(d.pending[i], id) && id.replica == d.self ==>
      id.counter < d.nextCounter
  }

  ghost predicate Refers(op: Operation, id: OpId) {
    match op
    case Insert(_, _, left, right, _, _, _) => left == Some(id) || right == Some(id)
    case Delete(_, _, target) => target == Some(id)
    case SetAttr(_, _, target, _, _) => target == Some(id)
  }

  ghost predicate ClockAhead(d: Doc) {
    forall i, name :: 0 <= i < |d.stream| && name in d.stream[i].attrs ==> d.stream[i].attrs[name].lamport <= d.lamport
  }

  ghost predicate OwnIdsBehind(d: Doc) {
    forall i :: 0 <= i < |d.stream| && d.stream[i].id.replica == d.self ==> d.stream[i].id.counter < d.nextCounter
  }

  /** A document ready for local edits. */
  ghost predicate Editable(d: Doc) {
    && !d.retrying && d.self != 0 && d.nextCounter >= 1
    && Unique(Skel(d.stream)) && OwnIdsBehind(d) && ClockAhead(d)
    && History.Settled(d) && WaitsForOthers(d)
  }

  // ------------------------------------------------------------- where edits land

  /** Between two neighbours there is nothing to scan: the item lands at the index. */
  lemma InsertLands(d: Doc, op: Operation, index: nat)
    requires op.Insert? && Unique(Skel(d.stream)) && Issuing.Around(d, op, index)
    ensures Boundary(Skel(d.stream), NodeOfOp(op)) == index - 1
    ensures Present(d, op.left) && Present(d, op.right)
  {
    var s := Skel(d.stream);
    if index > 0 { FindAt(s, index - 1); }
    if index < |s| { FindAt(s, index); }
  }

  lemma FreshAbsent(d: Doc)
    requires OwnIdsBehind(d)
    ensures IndexOf(d, FreshId(d)) < 0
  {
  }

  /** The buffer does not notice a new item of this replica. */
  lemma SettledAfterInsert(d: Doc, op: Operation)
    requires op.Insert? && op.id == FreshId(d) && History.Settled(d) && WaitsForOthers(d)
    ensures History.Settled(InsertItem(d, op))
  {
    var d' := InsertItem(d, op);
    forall i | 0 <= i < |d.pending| ensures !Ready(d', d'.pending[i]) {
      var p := d.pending[i];
      assert forall id :: Refers(p, id) ==> id != op.id;
      forall id | Refers(p, id) ensures IndexOf(d', id) >= 0 <==> IndexOf(d, id) >= 0 {
        Delivery.IndexAfterInsert(d, op, id);
      }
      if Ready(d', p) {
        ReadyBack(d, d', p);
      }
    }
  }

  lemma ReadyBack(d: Doc, d': Doc, p: Operation)
    requires Ready(d', p) && forall id :: Refers(p, id) ==> (IndexOf(d', id) >= 0 <==> IndexOf(d, id) >= 0)
    ensures Ready(d, p)
  {
    match p
    case Insert(_, _, left, right, _, _, _) =>
      assert left.Some? ==> Refers(p, left.value);
      assert right.Some? ==> Refers(p, right.value);
    case Delete(_, _, target) => assert Refers(p, target.value);
    case SetAttr(_, _, target, _, _) => assert Refers(p, target.value);
  }

  function Allocated(d: Doc): Doc {
    d.(nextCounter := d.nextCounter + 1, lamport := d.lamport + 1)
  }

  /** What a generated operation leaves behind. */
  ghost predicate Performed(d: Doc, d': Doc, spots: seq<Spot>) {
    && Editable(d') && d'.self == d.self && d'.nextCounter == d.nextCounter + 1
    && Spots(d'.stream) == spots
  }

  lemma InsertEffect(reg: Registry, d: Doc, op: Operation, index: nat)
    requires Editable(d) && op.Insert? && op.id == FreshId(d) && op.lamport == d.lamport + 1
    requires Issuing.Around(d, op, index) && CheckInsert(reg, op).None?
    ensures var d1 := Allocated(d);
            EffectOf(reg, d1, op) == (Note(InsertItem(d1, op), op), Integrated)
  {
    var d1 := Allocated(d);
    FreshAbsent(d);
    InsertLands(d, op, index);
    assert forall id :: IndexOf(d1, id) == IndexOf(d, id);
  }

  lemma InsertedStream(d: Doc, op: Operation, index: nat)
    requires op.Insert? && Unique(Skel(d.stream)) && Issuing.Around(d, op, index)
    ensures InsertItem(d, op).stream == InsertAt(d.stream, index, ItemOf(op))
    ensures Spots(InsertItem(d, op).stream) == InsertAt(Spots(d.stream), index, SpotOf(ItemOf(op)))
  {
    InsertLands(d, op, index);
  }

  lemma AroundAllocated(d: Doc, op: Operation, index: nat)
    requires op.Insert? && Issuing.Around(d, op, index)
    ensures Issuing.Around(Allocated(d), op, index)
  {
  }

  lemma FreshIdBehind(d: Doc, op: Operation, index: nat)
    requires Unique(Skel(d.stream)) && OwnIdsBehind(d) && op.Insert? && op.id == FreshId(d)
             && Issuing.Around(d, op, index)
    ensures OwnIdsBehind(Note(InsertItem(Allocated(d), op), op))
    ensures Unique(Skel(Note(InsertItem(Allocated(d), op), op).stream))
  {
    hide Issuing.Around, Boundary;
    var d1 := Allocated(d);
    AroundAllocated(d, op, index);
    InsertedStream(d1, op, index);
    FreshAbsent(d);
    IntegrateUnique(Skel(d.stream), NodeOfOp(op));
  }

  lemma FreshClockAhead(d: Doc, op: Operation, index: nat)
    requires Unique(Skel(d.stream)) && ClockAhead(d) && op.Insert? && op.lamport == d.lamport + 1
             && Issuing.Around(d, op, index)
    ensures ClockAhead(Note(InsertItem(Allocated(d), op), op))
  {
    hide Issuing.Around, Boundary, Unique, ItemOf;
    AroundAllocated(d, op, index);
    InsertedStream(Allocated(d), op, index);
    forall name | name in ItemOf(op).attrs ensures ItemOf(op).attrs[name].lamport == op.lamport {
      InitialClock(op, name);
    }
  }

  lemma InitialClock(op: Operation, name: Bytes)
    requires op.Insert? && name in ItemOf(op).attrs
    ensures ItemOf(op).attrs[name].lamport == op.lamport
  {
    Delivery.InitialExact(op.attrs, op.lamport, op.id.replica, name);
  }

  lemma FreshWaits(d: Doc, op: Operation)
    requires WaitsForOthers(d) && op.Insert?
    ensures WaitsForOthers(Note(InsertItem(Allocated(d), op), op))
  {
    hide Refers, Boundary;
  }

  lemma InsertKeepsEditable(d: Doc, op: Operation, index: nat)
    requires Editable(d) && op.Insert? && op.id == FreshId(d) && op.lamport == d.lamport + 1
    requires Issuing.Around(d, op, index)
    ensures Editable(Note(InsertItem(Allocated(d), op), op))
  {
    hide Unique, OwnIdsBehind, ClockAhead, History.Settled, WaitsForOthers, Issuing.Around, Boundary, C.Note;
    var d1 := Allocated(d);
    var d' := Note(InsertItem(d1, op), op);
    FreshIdBehind(d, op, index);
    FreshClockAhead(d, op, index);
    FreshWaits(d, op);
    SettledAfterFresh(d, d1, op);
    History.SettledSame(InsertItem(d1, op), d');
  }

  lemma SettledAfterFresh(d: Doc, d1: Doc, op: Operation)
    requires d1 == Allocated(d) && op.Insert? && op.id == FreshId(d)
    requires History.Settled(d) && WaitsForOthers(d)
    ensures History.Settled(InsertItem(d1, op))
  {
    SettledAfterInsert(d, op);
    History.SettledSame(InsertItem(d, op), InsertItem(d1, op));
  }

  lemma GenerateInsert(reg: Registry, d: Doc, op: Operation, index: nat) returns (d': Doc)
    requires Editable(d) && op.Insert? && op.id == FreshId(d) && op.lamport == d.lamport + 1
    requires Issuing.Around(d, op, index) && CheckInsert(reg, op).None?
    ensures Generate(reg, d, op) == (d', Ok(op)) && d'.stream == InsertAt(d.stream, index, ItemOf(op))
    ensures Performed(d, d', InsertAt(Spots(d.stream), index, SpotOf(ItemOf(op))))
  {
    d' := Note(InsertItem(Allocated(d), op), op);
    InsertEffect(reg, d, op, index);
    InsertKeepsEditable(d, op, index);
    InsertedStream(Allocated(d), op, index);
    FinishGenerate(reg, d, op, d');
  }

  lemma FinishGenerate(reg: Registry, d: Doc, op: Operation, d': Doc)
    requires EffectOf(reg, Allocated(d), op) == (d', Integrated) && History.Settled(d') && !d'.retrying
    ensures Generate(reg, d, op) == (d', Ok(op))
  {
    hide EffectOf, Retry, History.Settled;
    History.RetrySettled(reg, d');
  }

  // ------------------------------------------------------- deletes and attributes

  /** Rewriting one item's mutable part keeps the document ready for edits. */
  lemma UpdateKeepsEditable(d: Doc, op: Operation, i: int, item: Item)
    requires Editable(d) && op.id == FreshId(d) && op.lamport == d.lamport + 1
    requires 0 <= i < |d.stream| && NodeOf(item) == NodeOf(d.stream[i])
    requires forall name :: name in item.attrs ==> item.attrs[name].lamport <= op.lamport
    ensures Editable(Note(Allocated(d).(stream := d.stream[i := item]), op))
    ensures Spots(d.stream[i := item]) == Spots(d.stream)[i := SpotOf(item)]
  {
    var d' := Note(Allocated(d).(stream := d.stream[i := item]), op);
    assert Skel(d'.stream) == Skel(d.stream);
    History.SettledSame(d, d');
  }

  ghost predicate SameIds(a: seq<Item>, b: seq<Item>) {
    |a| == |b| && forall i :: 0 <= i < |a| ==> a[i].id == b[i].id
  }

  lemma TargetFound(d: Doc, i: int)
    requires Unique(Skel(d.stream)) && 0 <= i < |d.stream|
    ensures IndexOf(d, d.stream[i].id) == i && IndexOf(Allocated(d), d.stream[i].id) == i
  {
    FindAt(Skel(d.stream), i);
  }

  lemma GenerateDelete(reg: Registry, d: Doc, op: Operation, i: int) returns (d': Doc)
    requires Editable(d) && 0 <= i < |d.stream| && op == Delete(FreshId(d), d.lamport + 1, Some(d.stream[i].id))
    ensures Generate(reg, d, op) == (d', Ok(op)) && SameIds(d.stream, d'.stream)
    ensures Performed(d, d', Spots(d.stream)[i := Spots(d.stream)[i].(live := false)])
  {
    var item := d.stream[i].(tombstoned := true);
    d' := Note(Allocated(d).(stream := d.stream[i := item]), op);
    TargetFound(d, i);
    UpdateKeepsEditable(d, op, i, item);
    FinishGenerate(reg, d, op, d');
  }

  /** A fresh write beats whatever the register holds. */
  lemma FreshWriteShows(item: Item, name: Bytes, value: Option<Bytes>, lamport: nat, writer: nat)
    requires name in item.attrs ==> item.attrs[name].lamport < lamport
    ensures var attrs := ApplyRegister(item.attrs, name, value, lamport, writer);
            && attrs == item.attrs[name := Register(value, lamport, writer)]
            && LiveOf(item.(attrs := attrs)) == Attributed(LiveOf(item), name, value)
  {
    var attrs := ApplyRegister(item.attrs, name, value, lamport, writer);
    assert SetValues(attrs) ==
      if value.Some? then SetValues(item.attrs)[name := value.value] else SetValues(item.attrs) - {name};
  }

  lemma GenerateSetAttr(reg: Registry, d: Doc, op: Operation, i: int) returns (d': Doc)
    requires Editable(d) && 0 <= i < |d.stream| && op.SetAttr? && op.id == FreshId(d) && op.lamport == d.lamport + 1
    requires op.target == Some(d.stream[i].id) && reg.Allows(d.stream[i].kind, op.name, op.value)
    ensures Generate(reg, d, op) == (d', Ok(op)) && SameIds(d.stream, d'.stream)
    ensures Performed(d, d', Spots(d.stream)[i :=
        Spots(d.stream)[i].(show := Attributed(Spots(d.stream)[i].show, op.name, op.value))])
  {
    var attrs := ApplyRegister(d.stream[i].attrs, op.name, op.value, op.lamport, op.id.replica);
    FreshWriteShows(d.stream[i], op.name, op.value, op.lamport, op.id.replica);
    var item := d.stream[i].(attrs := attrs);
    d' := Note(Allocated(d).(stream := d.stream[i := item]), op);
    TargetFound(d, i);
    UpdateKeepsEditable(d, op, i, item);
    FinishGenerate(reg, d, op, d');
  }

  // ------------------------------------------------------------- edits and scripts

  /** Every item of `a` is the item `edits` have moved it to in `b`. */
  ghost predicate ItemsMoved(a: seq<Item>, b: seq<Item>, script: seq<Edit>) {
    forall i :: 0 <= i < |a| ==> Moved(script, i) < |b| && b[Moved(script, i)].id == a[i].id
  }

  ghost predicate ItemsMovedBy(a: seq<Item>, b: seq<Item>, e: Edit) {
    forall i :: 0 <= i < |a| ==> MovedBy(e, i) < |b| && b[MovedBy(e, i)].id == a[i].id
  }

  lemma ItemsMovedThen(a: seq<Item>, b: seq<Item>, c: seq<Item>, script: seq<Edit>)
    requires |script| > 0 && ItemsMoved(a, b, script[..|script| - 1]) && ItemsMovedBy(b, c, script[|script| - 1])
    ensures ItemsMoved(a, c, script)
  {
  }

  lemma InsertMoves(a: seq<Item>, e: Edit, item: Item)
    requires (e.TypeText? || e.TypeDelimiter?) && e.index <= |a|
    ensures ItemsMovedBy(a, InsertAt(a, e.index, item), e)
  {
    var k, b := e.index, InsertAt(a, e.index, item);
    hide InsertAt;
    forall i | 0 <= i < |a| ensures MovedBy(e, i) < |b| && b[MovedBy(e, i)].id == a[i].id {
      if i < k { assert b[i] == a[i]; } else { assert b[i + 1] == a[i]; }
    }
  }

  /** Every playable local edit succeeds and does in the engine what it does to the
      spots; deleting a tombstone generates nothing. */
  lemma PerformPlays(reg: Registry, d: Doc, e: Edit) returns (d': Doc)
    requires Consistent(reg) && Editable(d) && !Exhausted(d) && Playable(reg, Spots(d.stream), e)
    ensures Perform(reg, d, e).0 == d' && Perform(reg, d, e).1.Ok?
    ensures Editable(d') && d'.self == d.self && d.nextCounter <= d'.nextCounter <= d.nextCounter + 1
    ensures Spots(d'.stream) == Play(Spots(d.stream), e) && ItemsMovedBy(d.stream, d'.stream, e)
  {
    hide Editable, Generate;
    var freshId := EditableId(d);
    match e
    case TypeText(i, scalar) =>
      var op := InsertOpAt(d, i, Text, scalar, []);
      assert Issuing.Around(d, op, i);
      EmptyInitial();
      d' := GenerateInsert(reg, d, op, i);
      InsertMoves(d.stream, e, ItemOf(op));
    case TypeDelimiter(i, blockType) =>
      var op := InsertOpAt(d, i, Delimiter, 0, [InitialAttr(TYPE_NAME, Some(blockType))]);
      assert Issuing.Around(d, op, i);
      TypeInitial(blockType, op.lamport, op.id.replica);
      d' := GenerateInsert(reg, d, op, i);
      InsertMoves(d.stream, e, ItemOf(op));
    case Erase(i) =>
      if d.stream[i].tombstoned {
        d' := d;
        assert Spots(d.stream)[i := Spots(d.stream)[i].(live := false)] == Spots(d.stream);
      } else {
        d' := GenerateDelete(reg, d, Delete(FreshId(d), d.lamport + 1, Some(d.stream[i].id)), i);
      }
    case Mark(i, name, value) =>
      d' := GenerateSetAttr(reg, d, SetAttr(FreshId(d), d.lamport + 1, Some(d.stream[i].id), name, value), i);
  }

  lemma EditableId(d: Doc) returns (id: OpId)
    requires Editable(d) && !Exhausted(d)
    ensures id == FreshId(d) && id.Valid()
  {
    id := FreshId(d);
  }

  lemma EmptyInitial()
    ensures SetValues(ApplyInitial(map[], [], 0, 0)) == map[]
  {
  }

  lemma TypeInitial(blockType: Bytes, lamport: nat, writer: nat)
    ensures SetValues(ApplyInitial(map[], [InitialAttr(TYPE_NAME, Some(blockType))], lamport, writer))
            == map[TYPE_NAME := blockType]
  {
    var initial := [InitialAttr(TYPE_NAME, Some(blockType))];
    assert initial[..0] == [];
    assert ApplyInitial(map[], initial, lamport, writer)
           == map[TYPE_NAME := Register(Some(blockType), lamport, writer)];
  }

  function PlayAll(spots: seq<Spot>, script: seq<Edit>): seq<Spot> {
    if |script| == 0 then spots else Play(PlayAll(spots, script[..|script| - 1]), script[|script| - 1])
  }

  ghost predicate AllPlayable(reg: Registry, spots: seq<Spot>, script: seq<Edit>) {
    |script| == 0 ||
    (AllPlayable(reg, spots, script[..|script| - 1]) &&
     Playable(reg, PlayAll(spots, script[..|script| - 1]), script[|script| - 1]))
  }

  function PerformAll(reg: Registry, d: Doc, script: seq<Edit>): Doc {
    if |script| == 0 then d else Perform(reg, PerformAll(reg, d, script[..|script| - 1]), script[|script| - 1]).0
  }

  /** Every edit of a script succeeds when performed in order. */
  ghost predicate AllPerformed(reg: Registry, d: Doc, script: seq<Edit>) {
    forall k :: 0 <= k < |script| ==> Perform(reg, PerformAll(reg, d, script[..k]), script[k]).1.Ok?
  }

  /** A playable script runs through the engine without a failure and leaves the
      stream the spots predict. */
  lemma {:induction false} ScriptPlays(reg: Registry, d: Doc, script: seq<Edit>)
    requires Consistent(reg) && Editable(d) && d.nextCounter + |script| <= MAX_COUNTER
    requires AllPlayable(reg, Spots(d.stream), script)
    ensures var d' := PerformAll(reg, d, script);
            && Editable(d') && d.nextCounter <= d'.nextCounter <= d.nextCounter + |script|
            && Spots(d'.stream) == PlayAll(Spots(d.stream), script)
    ensures AllPerformed(reg, d, script) && ItemsMoved(d.stream, PerformAll(reg, d, script).stream, script)
  {
    hide Editable, Perform, Play, Playable, MovedBy, ItemsMovedBy;
    if |script| > 0 {
      var n := |script| - 1;
      ScriptPlays(reg, d, script[..n]);
      var d1 := PerformAll(reg, d, script[..n]);
      var d2 := PerformPlays(reg, d1, script[n]);
      ItemsMovedThen(d.stream, d1.stream, d2.stream, script);
      forall k | 0 <= k < |script| ensures Perform(reg, PerformAll(reg, d, script[..k]), script[k]).1.Ok? {
        if k < n { assert script[..n][..k] == script[..k]; }
      }
    }
  }

  /** The visible document after a script. */
  lemma ScriptShows(reg: Registry, d: Doc, script: seq<Edit>)
    requires Consistent(reg) && Editable(d) && d.nextCounter + |script| <= MAX_COUNTER
    requires AllPlayable(reg, Spots(d.stream), script)
    ensures VisibleDocument(PerformAll(reg, d, script).stream) == Document(Shown(PlayAll(Spots(d.stream), script)))
  {
    ScriptPlays(reg, d, script);
    LivesAreShown(PerformAll(reg, d, script).stream);
  }

  // ----------------------------------------------------- documents of the network

  /** Every document of a network run is ready for local edits. */
  lemma NetworkEditable(reg: Registry, replicas: set<nat>, events: seq<Event>, a: nat)
    requires Consistent(reg) && a in Run(reg, replicas, events).docs
    ensures Editable(Run(reg, replicas, events).docs[a])
  {
    hide Editable, NodeOk, History.LogOk;
    RunOk(reg, replicas, events);
    var net := Run(reg, replicas, events);
    NodeEditable(reg, net.log, net.docs[a], net.seen[a]);
  }

  lemma NodeEditable(reg: Registry, log: seq<Operation>, d: Doc, seen: set<OpId>)
    requires History.LogOk(reg, log) && NodeOk(log, d, seen)
    ensures Editable(d)
  {
    Delivery.UniqueStream(log, d);
    NodeWaits(log, d);
    NodeClock(log, d);
    forall i | 0 <= i < |d.stream| && d.stream[i].id.replica == d.self ensures d.stream[i].id.counter < d.nextCounter {
      FindAt(Skel(d.stream), i);
      History.PresentApplied(log, d, d.stream[i].id);
    }
  }

  lemma NodeWaits(log: seq<Operation>, d: Doc)
    requires History.Causal(log) && History.PendingKnown(log, d) && Issuing.Own(log, d)
    ensures WaitsForOthers(d)
  {
    forall i, id | 0 <= i < |d.pending| && Refers(d.pending[i], id) && id.replica == d.self
      ensures id.counter < d.nextCounter
    {
      var k :| 0 <= k < |log| && log[k] == d.pending[i];
      assert History.DependsBefore(log, k);
      assert History.InsertBefore(log, k, Some(id));
    }
  }

  lemma NodeClock(log: seq<Operation>, d: Doc)
    requires History.ItemsOk(log, d) && History.ClockAbove(log, d)
    ensures ClockAhead(d)
  {
    forall i, name | 0 <= i < |d.stream| && name in d.stream[i].attrs
      ensures d.stream[i].attrs[name].lamport <= d.lamport
    {
      var item := d.stream[i];
      assert History.RegisterOk(log, d.applied, item.id, item.attrs, name);
      var k :| History.Wins(log, d.applied, k, item.id, name, item.attrs[name]);
    }
  }
}
