/** The document engine: an item store with links, an index, a pending buffer and
    counters, updated in place; each method is tied to the specification. */
module Engine {
  import opened Types
  import opened Order
  import opened Links
  import opened Visible
  import S = State
  import C = Counters

  class Replica {
    const registry: Registry
    var self: nat
    var nextCounter: nat
    var lamport: nat
    var items: seq<Cell>
    var head: int
    var tail: int
    var size: nat
    var index: map<OpId, int>
    var applied: set<OpId>
    var pending: seq<Operation>
    var retrying: bool
    var contiguous: map<nat, nat>
    var gaps: map<nat, set<nat>>

    ghost var order: seq<int>
    ghost var place: seq<int>

    ghost predicate Valid()
      reads this
    {
      && |order| == |items| && |place| == |items|
      && Arranged(|items|, order, place) && Linked(items, order) && Indexed(items, index)
      && head == LinkAt(order, 0) && tail == LinkAt(order, |order| - 1) && size == |items|
    }

    /** The abstract document. */
    ghost function View(): S.Doc
      requires Valid()
      reads this
    {
      S.Doc(self, nextCounter, lamport, StreamOf(items, order), applied, pending, retrying,
            C.Summary(contiguous, gaps))
    }

    constructor (registry: Registry, self: nat)
      ensures Valid() && View() == S.Empty(self) && this.registry == registry
    {
      this.registry := registry;
      this.self := self;
      nextCounter, lamport := 1, 0;
      items, head, tail, size, index := [], -1, -1, 0, map[];
      applied, pending, retrying := {}, [], false;
      contiguous, gaps := map[], map[];
      order, place := [], [];
    }

    lemma Lookup(id: OpId)
      requires Valid()
      ensures S.IndexOf(View(), id) == if id in index then place[index[id]] else -1
      ensures S.IndexOf(View(), id) >= 0 <==> id in index
      ensures id in index ==> 0 <= index[id] < |items| && items[index[id]].item.id == id
      ensures S.IndexOf(View(), id) == Find(S.Skel(View().stream), id)
    {
      LookupIs(items, order, place, index, S.Skel(View().stream), id);
    }

    method ResolveAnchor(anchor: Option<OpId>) returns (found: bool, out: int)
      requires Valid()
      ensures found == S.Present(View(), anchor)
      ensures found ==> out == LinkAt(order, LeftPos(S.Skel(View().stream), anchor))
    {
      hide Linked, Indexed, S.Skel, S.IndexOf, StreamOf, Find;
      if anchor.None? {
        return true, -1;
      }
      Lookup(anchor.value);
      if anchor.value !in index {
        return false, 0;
      }
      CellOf(anchor.value);
      return true, index[anchor.value];
    }

    lemma CellOf(id: OpId)
      requires Valid() && id in index
      ensures 0 <= index[id] < |items| && LinkAt(order, place[index[id]]) == index[id]
    {
      hide Linked, StreamOf;
    }

    // ------------------------------------------------------------ the conflict scan

    /** The two-set scan between the anchors finds the boundary item. */
    method ScanConflicts(op: Operation, left: int, right: int) returns (boundary: int)
      requires Valid() && op.Insert?
      requires Has(S.Skel(View().stream), op.left) && Has(S.Skel(View().stream), op.right)
      requires left == LinkAt(order, LeftPos(S.Skel(View().stream), op.left))
      requires right == LinkAt(order, RightPos(S.Skel(View().stream), op.right))
      ensures boundary == LinkAt(order, Boundary(S.Skel(View().stream), S.NodeOfOp(op)))
    {
      hide Scan, Find, Linked, Indexed, Arranged, S.Skel, S.IndexOf, StreamOf, Band, Has, LeftPos, RightPos;
      ghost var s, n := S.Skel(View().stream), S.NodeOfOp(op);
      ghost var l := LeftPos(s, op.left);
      ghost var at, b := l + 1, l;
      BandEmpty(order, l);
      if l >= 0 { LinksOf(items, order, l); }
      boundary := left;
      var o := if left == -1 then head else items[left].next;
      var conflicting: set<int> := {};
      var beforeOrigin: set<int> := {};
      while o != -1 && o != right
        invariant l <= b < at <= |order|
        invariant o == LinkAt(order, at) && boundary == LinkAt(order, b)
        invariant beforeOrigin == Band(order, l, at) && conflicting == Band(order, b, at)
        invariant Boundary(s, n) == Scan(s, n, at, b)
        decreases |order| - at
      {
        LinksOf(items, order, at);
        LinkIs(order, place, at, RightPos(s, op.right));
        BandNext(order, l, at);
        BandNext(order, b, at);
        beforeOrigin := beforeOrigin + {o};
        conflicting := conflicting + {o};
        var other := items[o].item;
        assert s[at] == S.NodeOf(other) by { StreamAt(at); }
        if other.left == op.left {
          ScanSibling(s, n, at, b);
          if other.id.replica < op.id.replica {
            boundary, b := o, at;
            conflicting := {};
          }
        } else if other.left.Some? {
          LookupNode(s, other.left.value, l, b, at);
          if other.left.value in index && index[other.left.value] in beforeOrigin {
            ScanDescendant(s, n, at, b);
            if index[other.left.value] !in conflicting {
              boundary, b := o, at;
              conflicting := {};
            }
          } else {
            ScanLeaves(s, n, at, b);
            break;
          }
        } else {
          ScanLeaves(s, n, at, b);
          break;
        }
        o := items[o].next;
        at := at + 1;
      }
      if o == -1 || o == right {
        ScanEnds(s, n, at, b, order, place);
      }
    }

    lemma StreamAt(k: int)
      requires Valid() && 0 <= k < |order|
      ensures |S.Skel(View().stream)| == |order| && 0 <= order[k] < |items|
      ensures S.Skel(View().stream)[k] == S.NodeOf(items[order[k]].item)
    {
    }

    lemma LookupNode(s: seq<Node>, id: OpId, l: int, b: int, at: int)
      requires Valid() && s == S.Skel(View().stream) && -1 <= l <= b
      ensures id !in index ==> Find(s, id) == -1
      ensures id in index ==> (index[id] in Band(order, l, at + 1) <==> l < Find(s, id) <= at)
      ensures id in index ==> (index[id] in Band(order, b, at + 1) <==> b < Find(s, id) <= at)
    {
      LookupIs(items, order, place, index, s, id);
      if id in index {
        InBand(order, place, l, at + 1, index[id]);
        InBand(order, place, b, at + 1, index[id]);
      }
    }
  
    // ------------------------------------------------------------- local generation

    /** The cell at a stream index, found by walking the links. */
    method CellAt(index: nat) returns (cursor: int)
      requires Valid() && index < size
      ensures cursor == order[index] && 0 <= cursor < |items|
    {
      hide Arranged, Indexed, Linked;
      cursor := head;
      LinksOf(items, order, 0);
      for position := 0 to index
        invariant cursor == LinkAt(order, position) && 0 <= cursor < |items|
      {
        LinksOf(items, order, position);
        LinksOf(items, order, position + 1);
        cursor := items[cursor].next;
      }
    }

    /** The ids around a stream index, found by walking the links. */
    method AnchorsAt(index: nat) returns (left: Option<OpId>, right: Option<OpId>)
      requires Valid() && index <= size
      ensures left == S.LeftAt(View(), index) && right == S.RightAt(View(), index)
    {
      hide Arranged, Indexed, Linked, StreamOf;
      left, right := None, None;
      var cursor, position := head, 0;
      CursorAt(0);
      while cursor != -1
        invariant 0 <= position <= index && cursor == LinkAt(order, position)
        invariant |View().stream| == |order| && (cursor == -1 <==> position == |order|)
        invariant left == S.LeftAt(View(), position) && right.None?
        decreases |order| - position
      {
        CursorAt(position);
        if position == index {
          right := Some(items[cursor].item.id);
          break;
        }
        left := Some(items[cursor].item.id);
        cursor := items[cursor].next;
        position := position + 1;
        CursorAt(position);
      }
    }

    lemma CursorAt(k: int)
      requires Valid() && 0 <= k <= |order|
      ensures |View().stream| == |order|
      ensures LinkAt(order, k) == -1 <==> k == |order|
      ensures k < |order| ==> 0 <= order[k] < |items| && items[order[k]].next == LinkAt(order, k + 1)
      ensures k < |order| ==> View().stream[k] == items[order[k]].item
    {
    }

    /** Take the next counter and advance the clock; an exhausted replica refuses. */
    method Allocate() returns (r: Result<OpId>)
      requires Valid()
      modifies this`nextCounter, this`lamport
      ensures Valid()
      ensures if S.Exhausted(old(View())) then r == Err(CounterOverflow) && View() == old(View())
              else r == Ok(S.FreshId(old(View()))) &&
                   View() == old(View()).(nextCounter := old(nextCounter) + 1, lamport := old(lamport) + 1)
    {
      hide Arranged, Indexed, Linked, StreamOf;
      if nextCounter >= MAX_COUNTER {
        return Err(CounterOverflow);
      }
      r := Ok(OpId(self, nextCounter));
      nextCounter := nextCounter + 1;
      lamport := lamport + 1;
    }

    method LocalInsertText(index: nat, scalar: nat) returns (r: Result<Operation>)
      requires Valid()
      modifies this
      ensures Valid() && (View(), r) == S.LocalInsertText(registry, old(View()), index, scalar)
    {
      hide S.IntegrateOp, Arranged, Indexed, Linked, StreamOf;
      SkelLength();
      if index > size {
        return Err(InvalidArgument);
      }
      if !ValidScalar(scalar) {
        return Err(InvalidUnicodeScalar);
      }
      var left, right := AnchorsAt(index);
      var id := Allocate();
      if id.Err? {
        return Err(id.code);
      }
      var op := Insert(id.value, lamport, left, right, Text, scalar, []);
      var done := IntegrateInsert(op);
      r := if done.Ok? then Ok(op) else Err(done.code);
    }

    method LocalInsertDelimiter(index: nat, blockType: Bytes) returns (r: Result<Operation>)
      requires Valid()
      modifies this
      ensures Valid() && (View(), r) == S.LocalInsertDelimiter(registry, old(View()), index, blockType)
    {
      hide S.IntegrateOp, Arranged, Indexed, Linked, StreamOf;
      SkelLength();
      if index > size {
        return Err(InvalidArgument);
      }
      if !registry.values(Delimiter, TYPE_NAME, blockType) {
        return Err(InvalidAttributeValue);
      }
      var left, right := AnchorsAt(index);
      var id := Allocate();
      if id.Err? {
        return Err(id.code);
      }
      var op := Insert(id.value, lamport, left, right, Delimiter, 0, [InitialAttr(TYPE_NAME, Some(blockType))]);
      var done := IntegrateInsert(op);
      r := if done.Ok? then Ok(op) else Err(done.code);
    }

    method LocalDelete(index: nat) returns (r: Result<Option<Operation>>)
      requires Valid()
      modifies this
      ensures Valid() && (View(), r) == S.LocalDelete(registry, old(View()), index)
    {
      hide S.IntegrateOp, Arranged, Indexed, Linked, StreamOf;
      SkelLength();
      if index >= size {
        return Err(InvalidArgument);
      }
      var cursor := CellAt(index);
      CursorAt(index);
      if items[cursor].item.tombstoned {
        return Ok(None);
      }
      var target := items[cursor].item.id;
      var id := Allocate();
      if id.Err? {
        return Err(id.code);
      }
      var op := Delete(id.value, lamport, Some(target));
      var done := IntegrateDelete(op);
      r := if done.Ok? then Ok(Some(op)) else Err(done.code);
    }

    method LocalSetAttr(index: nat, name: Bytes, value: Option<Bytes>) returns (r: Result<Operation>)
      requires Valid()
      modifies this
      ensures Valid() && (View(), r) == S.LocalSetAttr(registry, old(View()), index, name, value)
    {
      hide *;
      ViewIs();
      LocalSetAttrIs(registry, View(), index, name, value);
      CursorAt(0);
      SizeIs();
      if index >= size {
        return Err(InvalidArgument);
      }
      var cursor := CellAt(index);
      CursorAt(index);
      var target := items[cursor].item;
      if !registry.names(target.kind, name) {
        return Err(UnknownAttributeName);
      }
      if value.Some? && !registry.values(target.kind, name, value.value) {
        return Err(InvalidAttributeValue);
      }
      var id := Allocate();
      if id.Err? {
        return Err(id.code);
      }
      ViewIs();
      var op := SetAttr(id.value, lamport, Some(target.id), name, value);
      var done := IntegrateSetAttr(op);
      r := if done.Ok? then Ok(op) else Err(done.code);
    }

    // ---------------------------------------------------------------- derived views

    /** Every item in document order, tombstones included. */
    method StreamEntries() returns (entries: seq<StreamEntry>)
      requires Valid()
      ensures |entries| == |View().stream|
      ensures forall k :: 0 <= k < |entries| ==> entries[k] == EntryOf(View().stream[k])
      ensures forall k :: 0 <= k < |entries| ==> Tells(entries[k], View().stream[k])
    {
      hide Arranged, Indexed, Linked, StreamOf, SetValues, Tells;
      entries := [];
      var cursor := head;
      CursorAt(0);
      while cursor != -1
        invariant 0 <= |entries| <= |order| && |View().stream| == |order| && cursor == LinkAt(order, |entries|)
        invariant forall k :: 0 <= k < |entries| ==> entries[k] == EntryOf(View().stream[k])
        invariant cursor == -1 <==> |entries| == |order|
        decreases |order| - |entries|
      {
        CursorAt(|entries|);
        var item := items[cursor].item;
        entries := entries + [EntryOf(item)];
        cursor := items[cursor].next;
        CursorAt(|entries|);
      }
      forall k | 0 <= k < |entries| ensures Tells(entries[k], View().stream[k]) { EntryTells(View().stream[k]); }
    }

    /** The visible blocks, gathered in one walk over the links. */
    method VisibleBlocks() returns (blocks: seq<VisibleBlock>)
      requires Valid()
      ensures blocks == VisibleDocument(View().stream)
    {
      hide Arranged, Indexed, Linked, StreamOf, SetValues, Opened;
      blocks := [];
      var rootOpen := true;
      var cursor := head;
      ghost var k := 0;
      CursorAt(0);
      while cursor != -1
        invariant 0 <= k <= |order| && |View().stream| == |order| && cursor == LinkAt(order, k)
        invariant blocks == Blocks(Lives(View().stream[..k])) && (rootOpen <==> |blocks| == 0)
        invariant cursor == -1 <==> k == |order|
        decreases |order| - k
      {
        CursorAt(k);
        var item := items[cursor].item;
        LivesNext(View().stream, k);
        if !item.tombstoned {
          var live := LiveOf(item);
          if item.kind == Delimiter {
            rootOpen := false;
            blocks := blocks + [Opened(live)];
          } else {
            if rootOpen {
              blocks := blocks + [DEFAULT_BLOCK];
              rootOpen := false;
            }
            var last := |blocks| - 1;
            blocks := blocks[last := blocks[last].(chars := blocks[last].chars
                                                   + [VisibleChar(live.scalar, live.attrs)])];
          }
        }
        cursor := items[cursor].next;
        k := k + 1;
        CursorAt(k);
      }
      assert View().stream[..k] == View().stream;
      if |blocks| == 0 {
        blocks := [DEFAULT_BLOCK];
      }
    }

    // -------------------------------------------------------- structure maintenance

    /** Link the last stored cell behind `after`, which stands at position `at` - 1. */
    method SpliceAfter(after: int, newIdx: int, ghost at: int)
      requires 0 <= newIdx == |items| - 1 == |order| == |place| && 0 <= at <= |order| && size == |order|
      requires Arranged(|order|, order, place) && Linked(items, order)
      requires head == LinkAt(order, 0) && tail == LinkAt(order, |order| - 1) && after == LinkAt(order, at - 1)
      modifies this`items, this`head, this`tail, this`size, this`order, this`place
      ensures SplicedLinks(old(items), items, old(order), at)
      ensures |items| == old(|items|) == |order| == |place|
      ensures order == InsertAt(old(order), at, newIdx) && place == PlaceAfter(old(place), at)
      ensures Arranged(|items|, order, place) && Linked(items, order)
      ensures head == LinkAt(order, 0) && tail == LinkAt(order, |order| - 1) && size == |items|
    {
      hide InsertAt, Arranged, Linked, SplicedLinks;
      ghost var cells := items;
      if at > 0 { LinksOf(items, order, at - 1); }
      var before := if after == -1 then head else items[after].next;
      SpliceNeighbours(at);
      items := items[newIdx := items[newIdx].(prev := after, next := before)];
      if after == -1 {
        head := newIdx;
      } else {
        items := items[after := items[after].(next := newIdx)];
      }
      if before == -1 {
        tail := newIdx;
      } else {
        items := items[before := items[before].(prev := newIdx)];
      }
      size := size + 1;
      RelinkSplices(cells, order, at, after, before);
      assert items == Relink(cells, after, before);
      LinkedInsert(cells, items, order, place, at);
      ArrangedInsert(|order|, order, place, at);
      order, place := InsertAt(order, at, newIdx), PlaceAfter(place, at);
    }

    lemma SpliceNeighbours(at: int)
      requires Arranged(|order|, order, place) && 0 <= at <= |order|
      ensures -1 <= LinkAt(order, at - 1) < |order| && -1 <= LinkAt(order, at) < |order|
      ensures forall k :: 0 <= k < |order| ==> 0 <= order[k] < |order|
      ensures LinkAt(order, at - 1) == -1 <==> at == 0
      ensures LinkAt(order, at) == -1 <==> at == |order|
    {
    }

    /** Rewrite the content of one stored item. */
    method SetItem(i: int, item: Item)
      requires Valid() && 0 <= i < |items| && item.id == items[i].item.id
      modifies this`items
      ensures Valid() && |items| == old(|items|) && 0 <= place[i] < |order| && items[i].item == item
      ensures View() == old(View()).(stream := old(View()).stream[place[i] := item])
    {
      hide Arranged, Linked, Indexed, StreamOf;
      PlaceInRange(i);
      UpdateItem(items, order, place, index, i, item);
      items := items[i := items[i].(item := item)];
    }

    lemma PlaceInRange(i: int)
      requires Valid() && 0 <= i < |items|
      ensures 0 <= place[i] < |order| && |View().stream| == |order|
      ensures View().stream[place[i]] == items[i].item
    {
    }

    /** Last writer wins on one register of the item in cell `i`. */
    method ApplyRegister(i: int, name: Bytes, value: Option<Bytes>, lamport: nat, writer: nat)
      requires Valid() && 0 <= i < |items|
      modifies this`items
      ensures Valid() && |items| == old(|items|) && 0 <= place[i] < |order|
      ensures items[i].item == old(items[i].item).(attrs :=
          S.ApplyRegister(old(items[i].item.attrs), name, value, lamport, writer))
      ensures var was, now := old(items[i].item.attrs), items[i].item.attrs;
              && name in now && now.Keys == was.Keys + {name}
              && (forall other :: other in was && other != name ==> now[other] == was[other])
              && now[name] == if name in was && (lamport < was[name].lamport
                                                 || (lamport == was[name].lamport && writer <= was[name].writer))
                              then was[name] else Register(value, lamport, writer)
      ensures View() == old(View()).(stream := old(View()).stream[place[i] := items[i].item])
    {
      hide Arranged, Linked, Indexed;
      var item := items[i].item;
      PlaceInRange(i);
      if name in item.attrs {
        var existing := item.attrs[name];
        if existing.lamport > lamport || (existing.lamport == lamport && existing.writer >= writer) {
          assert View().stream[place[i] := item] == View().stream;
          return;
        }
      }
      SetItem(i, item.(attrs := item.attrs[name := Register(value, lamport, writer)]));
    }

    // ------------------------------------------------------------------ integration

    /** Record an integrated operation. */
    method Note(op: Operation)
      requires Valid()
      modifies this`applied, this`lamport, this`contiguous, this`gaps
      ensures Valid() && View() == S.Note(old(View()), op)
    {
      hide C.Note, Arranged, Linked, Indexed, StreamOf;
      applied := applied + {op.id};
      NoteIntegrated(op);
    }

    /** Store a new item, link it behind the boundary and index it. */
    method StoreItem(item: Item, boundary: int, ghost at: int) returns (newIdx: int)
      requires Valid() && 0 <= at <= |order| && boundary == LinkAt(order, at - 1) && item.id !in index
      modifies this`items, this`head, this`tail, this`size, this`order, this`place, this`index
      ensures Valid() && newIdx == old(|items|) && |items| == newIdx + 1
      ensures place[newIdx] == at && items[newIdx].item == item
      ensures View() == old(View()).(stream := InsertAt(old(View()).stream, at, item))
    {
      hide *;
      ViewIs();
      newIdx := |items|;
      ghost var before, listed := items, order;
      StoredLinked(items, order, Cell(item, -1, -1));
      items := items + [Cell(item, -1, -1)];
      SpliceAfter(boundary, newIdx, at);
      Stored(before, items, listed, order, place, at, index, item);
      index := index[item.id := newIdx];
      ViewMade();
    }

    lemma ViewMade()
      requires |order| == |items| && |place| == |items|
      requires Arranged(|items|, order, place) && Linked(items, order) && Indexed(items, index)
      requires head == LinkAt(order, 0) && tail == LinkAt(order, |order| - 1) && size == |items|
      ensures Valid() && forall k :: 0 <= k < |order| ==> 0 <= order[k] < |items|
      ensures View() == S.Doc(self, nextCounter, lamport, StreamOf(items, order), applied, pending, retrying,
                              C.Summary(contiguous, gaps))
    {
      hide Arranged, Indexed, StreamOf, LinkAt;
    }

    lemma ViewIs()
      requires Valid()
      ensures |order| == |items| && |place| == |items| && Arranged(|items|, order, place) && Linked(items, order)
      ensures Indexed(items, index) && head == LinkAt(order, 0) && tail == LinkAt(order, |order| - 1) && size == |items|
      ensures forall k :: 0 <= k < |order| ==> 0 <= order[k] < |items|
      ensures View() == S.Doc(self, nextCounter, lamport, StreamOf(items, order), applied, pending, retrying,
                              C.Summary(contiguous, gaps))
    {
      hide Arranged, Indexed, StreamOf, LinkAt;
    }

    /** Write an insert's initial attributes to its stored item, in order. */
    method WriteInitial(op: Operation, i: int)
      requires Valid() && op.Insert? && 0 <= i < |items| && items[i].item.attrs == map[]
      modifies this`items
      ensures Valid() && |items| == old(|items|) && 0 <= place[i] < |order|
      ensures View() == old(View()).(stream := old(View()).stream[place[i] :=
                old(items[i].item).(attrs := S.ApplyInitial(map[], op.attrs, op.lamport, op.id.replica))])
    {
      hide Arranged, Linked, Indexed, StreamOf, S.ApplyRegister;
      PlaceInRange(i);
      for k := 0 to |op.attrs|
        invariant Valid() && |items| == old(|items|) && 0 <= place[i] < |order|
        invariant items[i].item ==
                  old(items[i].item).(attrs := S.ApplyInitial(map[], op.attrs[..k], op.lamport, op.id.replica))
        invariant View() == old(View()).(stream := old(View()).stream[place[i] := items[i].item])
      {
        PlaceInRange(i);
        assert op.attrs[..k + 1][..k] == op.attrs[..k];
        ApplyRegister(i, op.attrs[k].name, op.attrs[k].value, op.lamport, op.id.replica);
      }
      assert op.attrs[..|op.attrs|] == op.attrs;
    }

    /** Integrate an insert: refuse, buffer, or place it and retry the buffer. */
    method IntegrateInsert(op: Operation) returns (r: Result<bool>)
      requires Valid() && op.Insert?
      modifies this
      ensures Valid() && (View(), r) == S.IntegrateOp(registry, old(View()), op)
      decreases if retrying then 0 else 1, 1
    {
      hide *;
      ghost var d := View();
      Lookup(op.id);
      InsertOutcome(registry, d, op);
      if op.id in index {
        Note(op);
        return Ok(true);
      }
      var bad := S.CheckInsert(registry, op);
      if bad.Some? {
        return Err(bad.value);
      }
      var foundLeft, left := ResolveAnchor(op.left);
      var foundRight, right := ResolveAnchor(op.right);
      if !foundLeft || !foundRight {
        r := Buffer(op);
        return;
      }
      RightLink(op.right, right);
      RightLink(op.left, left);
      PlaceInsert(op, left, right);
      r := RetryPending();
    }

    /** Scan, store, write the initial registers, record. */
    method PlaceInsert(op: Operation, left: int, right: int)
      requires Valid() && op.Insert? && op.id !in index
      requires Has(S.Skel(View().stream), op.left) && Has(S.Skel(View().stream), op.right)
      requires left == LinkAt(order, LeftPos(S.Skel(View().stream), op.left))
      requires right == LinkAt(order, RightPos(S.Skel(View().stream), op.right))
      modifies this`items, this`head, this`tail, this`size, this`order, this`place, this`index,
               this`applied, this`lamport, this`contiguous, this`gaps
      ensures Valid() && View() == S.Note(S.InsertItem(old(View()), op), op)
    {
      hide *;
      ghost var d, at := View(), Boundary(S.Skel(View().stream), S.NodeOfOp(op)) + 1;
      SkelLength();
      BoundaryRange(S.Skel(d.stream), S.NodeOfOp(op));
      var boundary := ScanConflicts(op, left, right);
      var blank := Item(op.id, op.left, op.right, op.kind, if op.kind == Text then op.scalar else 0, false, map[]);
      var i := StoreItem(blank, boundary, at);
      WriteInitial(op, i);
      InsertIs(d, op, at, blank);
      Note(op);
    }

    lemma SizeIs()
      requires Valid()
      ensures size == |order|
    {
    }

    lemma SkelLength()
      requires Valid()
      ensures |S.Skel(View().stream)| == |View().stream| == |order|
    {
    }

    lemma RightLink(anchor: Option<OpId>, link: int)
      requires Valid() && S.Present(View(), anchor) && link == LinkAt(order, LeftPos(S.Skel(View().stream), anchor))
      ensures link == LinkAt(order, RightPos(S.Skel(View().stream), anchor))
      ensures Has(S.Skel(View().stream), anchor)
    {
    }

    /** Retain a causally early operation. */
    method Buffer(op: Operation) returns (r: Result<bool>)
      requires Valid()
      modifies this`pending
      ensures Valid() && (View(), r) == BufferOutcome(old(View()), op)
    {
      hide Arranged, Linked, Indexed, StreamOf;
      if |pending| >= PENDING_LIMIT {
        return Err(PendingLimitExceeded);
      }
      pending := pending + [op];
      r := Ok(true);
    }

    method IntegrateDelete(op: Operation) returns (r: Result<bool>)
      requires Valid() && op.Delete?
      modifies this
      ensures Valid() && (View(), r) == S.IntegrateOp(registry, old(View()), op)
      decreases if retrying then 0 else 1, 1
    {
      hide *;
      DeleteOutcome(registry, View(), op);
      if op.target.None? {
        return Err(InvalidArgument);
      }
      Lookup(op.target.value);
      if op.target.value !in index {
        r := Buffer(op);
        return;
      }
      var i := index[op.target.value];
      PlaceInRange(i);
      SetItem(i, items[i].item.(tombstoned := true));
      Note(op);
      r := RetryPending();
    }

    method IntegrateSetAttr(op: Operation) returns (r: Result<bool>)
      requires Valid() && op.SetAttr?
      modifies this
      ensures Valid() && (View(), r) == S.IntegrateOp(registry, old(View()), op)
      decreases if retrying then 0 else 1, 1
    {
      hide *;
      SetAttrOutcome(registry, View(), op);
      if op.target.None? {
        return Err(InvalidArgument);
      }
      Lookup(op.target.value);
      if op.target.value !in index {
        r := Buffer(op);
        return;
      }
      var i := index[op.target.value];
      PlaceInRange(i);
      if !registry.names(items[i].item.kind, op.name) {
        return Err(UnknownAttributeName);
      }
      if op.value.Some? && !registry.values(items[i].item.kind, op.name, op.value.value) {
        return Err(InvalidAttributeValue);
      }
      ApplyRegister(i, op.name, op.value, op.lamport, op.id.replica);
      Note(op);
      r := RetryPending();
    }

    /** Remote delivery: a duplicate changes nothing. */
    method ApplyRemote(op: Operation) returns (r: Result<bool>)
      requires Valid()
      modifies this
      ensures Valid() && (View(), r) == S.ApplyRemote(registry, old(View()), op)
      decreases if retrying then 0 else 1, 2
    {
      hide S.IntegrateOp, Arranged, Linked, Indexed, StreamOf;
      if op.id in applied {
        return Ok(false);
      }
      match op {
        case Insert(_, _, _, _, _, _, _) => r := IntegrateInsert(op);
        case Delete(_, _, _) => r := IntegrateDelete(op);
        case SetAttr(_, _, _, _, _) => r := IntegrateSetAttr(op);
      }
    }

    method IsReady(op: Operation) returns (ready: bool)
      requires Valid()
      ensures ready == S.Ready(View(), op)
    {
      hide Arranged, Linked, Indexed, StreamOf, Find, S.IndexOf;
      match op {
        case Insert(_, _, left, right, _, _, _) =>
          var foundLeft, _ := ResolveAnchor(left);
          var foundRight, _ := ResolveAnchor(right);
          ready := foundLeft && foundRight;
        case Delete(_, _, target) =>
          if target.Some? { Lookup(target.value); }
          ready := target.Some? && target.value in index;
        case SetAttr(_, _, target, _, _) =>
          if target.Some? { Lookup(target.value); }
          ready := target.Some? && target.value in index;
      }
    }

    /** Retry the buffer until a pass makes no progress; never re-entered. */
    method RetryPending() returns (r: Result<bool>)
      requires Valid()
      modifies this
      ensures Valid() && (View(), r) == S.Retry(registry, old(View()))
      decreases if retrying then 0 else 1, 0
    {
      hide S.RetryPass, S.RetryLoop, S.ApplyRemote, S.Ready, Arranged, Linked, Indexed, StreamOf;
      if retrying || |pending| == 0 {
        return Ok(true);
      }
      retrying := true;
      ghost var start := View();
      var progress := true;
      while progress
        invariant Valid() && retrying
        invariant S.RetryLoop(registry, start) == if progress then S.RetryLoop(registry, View())
                                                  else S.Pass(View(), false, None)
        decreases |pending|, progress
      {
        ghost var d := View();
        progress := false;
        var i := 0;
        while i < |pending|
          invariant Valid() && retrying && 0 <= i <= |pending| <= |d.pending|
          invariant progress ==> |pending| < |d.pending|
          invariant S.RetryPass(registry, d, 0, false) == S.RetryPass(registry, View(), i, progress)
          decreases |pending| - i
        {
          var op := pending[i];
          ghost var before := View();
          var ready := IsReady(op);
          if ready {
            pending := S.Without(pending, i);
            ghost var taken := View();
            var applied := ApplyRemote(op);
            PassTakes(registry, before, taken, i, progress, View(), applied);
            if applied.Err? {
              LoopTurns(registry, d);
              return applied;
            }
            if applied.value {
              progress := true;
            }
          } else {
            S.PassSkips(registry, before, i, progress);
            i := i + 1;
          }
        }
        PassEnds(registry, View(), progress);
        LoopTurns(registry, d);
      }
      retrying := false;
      r := Ok(true);
    }

    /** Fold an integrated operation into the clock and the counter tracking. */
    method NoteIntegrated(op: Operation)
      modifies this`lamport, this`contiguous, this`gaps
      ensures lamport == if old(lamport) < op.lamport then op.lamport else old(lamport)
      ensures C.Summary(contiguous, gaps) == C.Note(C.Summary(old(contiguous), old(gaps)), op.id)
    {
      hide C.Absorb, C.Note;
      if lamport < op.lamport {
        lamport := op.lamport;
      }
      var r, c := op.id.replica, op.id.counter;
      ghost var s := C.Summary(contiguous, gaps);
      if r !in contiguous {
        contiguous := contiguous[r := 0];
      }
      assert contiguous == s.contiguous[r := C.At(s, r)];
      if c == contiguous[r] + 1 {
        C.NoteNext(s, op.id);
        contiguous := contiguous[r := c];
        if r in gaps {
          AbsorbGap(r);
          if gaps[r] == {} {
            gaps := gaps - {r};
          }
        }
      } else if c > contiguous[r] + 1 {
        C.NoteBeyond(s, op.id);
        gaps := gaps[r := (if r in gaps then gaps[r] else {}) + {c}];
      } else {
        C.NoteBelow(s, op.id);
      }
    }

    /** Advance over the gap entries that have become contiguous. */
    method AbsorbGap(r: nat)
      requires r in contiguous && r in gaps
      modifies this`contiguous, this`gaps
      ensures var (top, rest) := C.Absorb(old(contiguous)[r], old(gaps)[r]);
              contiguous == old(contiguous)[r := top] && gaps == old(gaps)[r := rest]
    {
      while contiguous[r] + 1 in gaps[r]
        invariant r in contiguous && r in gaps
        invariant contiguous == old(contiguous)[r := contiguous[r]] && gaps == old(gaps)[r := gaps[r]]
        invariant C.Absorb(old(contiguous)[r], old(gaps)[r]) == C.Absorb(contiguous[r], gaps[r])
        decreases |gaps[r]|
      {
        gaps := gaps[r := gaps[r] - {contiguous[r] + 1}];
        contiguous := contiguous[r := contiguous[r] + 1];
      }
    }
  }

  // ------------------------------------------------- outcomes of an integration

  /** local_set_attr, case by case. */
  lemma LocalSetAttrIs(reg: Registry, d: S.Doc, index: nat, name: Bytes, value: Option<Bytes>)
    ensures index >= |d.stream| ==> S.LocalSetAttr(reg, d, index, name, value) == (d, Err(InvalidArgument))
    ensures index < |d.stream| ==>
              var item, op := d.stream[index],
                              SetAttr(S.FreshId(d), d.lamport + 1, Some(d.stream[index].id), name, value);
              S.LocalSetAttr(reg, d, index, name, value) ==
              if !reg.names(item.kind, name) then (d, Err(UnknownAttributeName))
              else if value.Some? && !reg.values(item.kind, name, value.value) then (d, Err(InvalidAttributeValue))
              else if S.Exhausted(d) then (d, Err(CounterOverflow))
              else
                var (d2, r) := S.IntegrateOp(reg, d.(nextCounter := d.nextCounter + 1, lamport := d.lamport + 1), op);
                (d2, if r.Ok? then Ok(op) else Err(r.code))
  {
    hide S.IntegrateOp;
  }

  lemma BoundaryRange(s: seq<Node>, n: Node)
    ensures 0 <= Boundary(s, n) + 1 <= |s|
  {
  }

  /** Storing the bare item and writing its attributes is inserting it. */
  lemma InsertIs(d: S.Doc, op: Operation, at: int, blank: Item)
    requires op.Insert? && at == Boundary(S.Skel(d.stream), S.NodeOfOp(op)) + 1 && 0 <= at <= |d.stream|
    requires blank == Item(op.id, op.left, op.right, op.kind, if op.kind == Text then op.scalar else 0, false, map[])
    ensures S.InsertItem(d, op) == d.(stream := InsertAt(d.stream, at, blank)[at :=
              blank.(attrs := S.ApplyInitial(map[], op.attrs, op.lamport, op.id.replica))])
  {
    hide Boundary, S.ApplyInitial, S.Skel;
  }

  function BufferOutcome(d: S.Doc, op: Operation): (S.Doc, Result<bool>) {
    var (d1, effect) := S.Buffer(d, op);
    (d1, if effect.Refused? then Err(effect.code) else Ok(true))
  }

  lemma InsertOutcome(reg: Registry, d: S.Doc, op: Operation)
    requires op.Insert?
    ensures var outcome := S.IntegrateOp(reg, d, op); var bad := S.CheckInsert(reg, op);
            if S.IndexOf(d, op.id) >= 0 then outcome == (S.Note(d, op), Ok(true))
            else if bad.Some? then outcome == (d, Err(bad.value))
            else if !S.Present(d, op.left) || !S.Present(d, op.right) then outcome == BufferOutcome(d, op)
            else outcome == S.Retry(reg, S.Note(S.InsertItem(d, op), op))
  {
    hide S.IndexOf, S.CheckInsert, S.Present, S.Note, S.InsertItem, S.Retry;
  }

  lemma DeleteOutcome(reg: Registry, d: S.Doc, op: Operation)
    requires op.Delete?
    ensures var outcome := S.IntegrateOp(reg, d, op);
            if op.target.None? then outcome == (d, Err(InvalidArgument))
            else
              var i := S.IndexOf(d, op.target.value);
              if i < 0 then outcome == BufferOutcome(d, op)
              else outcome == S.Retry(reg, S.Note(d.(stream := d.stream[i := d.stream[i].(tombstoned := true)]), op))
  {
    hide S.Note, S.Retry;
  }

  lemma SetAttrOutcome(reg: Registry, d: S.Doc, op: Operation)
    requires op.SetAttr?
    ensures var outcome := S.IntegrateOp(reg, d, op);
            if op.target.None? then outcome == (d, Err(InvalidArgument))
            else
              var i := S.IndexOf(d, op.target.value);
              if i < 0 then outcome == BufferOutcome(d, op)
              else if !reg.names(d.stream[i].kind, op.name) then outcome == (d, Err(UnknownAttributeName))
              else if op.value.Some? && !reg.values(d.stream[i].kind, op.name, op.value.value) then
                outcome == (d, Err(InvalidAttributeValue))
              else
                var attrs := S.ApplyRegister(d.stream[i].attrs, op.name, op.value, op.lamport, op.id.replica);
                outcome == S.Retry(reg, S.Note(d.(stream := d.stream[i := d.stream[i].(attrs := attrs)]), op))
  {
    hide S.Note, S.Retry, S.ApplyRegister;
  }

  // -------------------------------------------------------- one turn of the retry

  /** While the guard is up, applying an operation does not start another retry. */
  lemma PassTakes(reg: Registry, d: S.Doc, d1: S.Doc, i: nat, progress: bool, d2: S.Doc, r: Result<bool>)
    requires i < |d.pending| && S.Ready(d, d.pending[i]) && d.retrying
    requires d1 == d.(pending := S.Without(d.pending, i)) && (d2, r) == S.ApplyRemote(reg, d1, d.pending[i])
    ensures d2.retrying && |d2.pending| == |d.pending| - 1
    ensures S.RetryPass(reg, d, i, progress) ==
              if r.Err? then S.Pass(d2, progress, Some(r.code)) else S.RetryPass(reg, d2, i, progress || r.value)
  {
    S.ReadyNotBuffered(reg, d1, d.pending[i]);
  }

  lemma PassEnds(reg: Registry, d: S.Doc, progress: bool)
    ensures S.RetryPass(reg, d, |d.pending|, progress) == S.Pass(d, progress, None)
  {
  }

  lemma LoopTurns(reg: Registry, d: S.Doc)
    ensures var p := S.RetryPass(reg, d, 0, false);
            S.RetryLoop(reg, d) == if p.error.Some? || !p.progress then p else S.RetryLoop(reg, p.doc)
  {
  }

  // ----------------------------------------------- one turn of the conflict scan

  lemma ScanSibling(s: seq<Node>, n: Node, o: int, b: int)
    requires -1 <= b < o < |s| && o != RightPos(s, n.right) && s[o].left == n.left
    ensures Scan(s, n, o, b) == Scan(s, n, o + 1, if s[o].id.replica < n.id.replica then o else b)
  {
  }

  lemma ScanDescendant(s: seq<Node>, n: Node, o: int, b: int)
    requires -1 <= b < o < |s| && o != RightPos(s, n.right) && s[o].left != n.left && s[o].left.Some?
    requires LeftPos(s, n.left) < Find(s, s[o].left.value) <= o
    ensures Scan(s, n, o, b) == Scan(s, n, o + 1, if Find(s, s[o].left.value) <= b then o else b)
  {
  }

  lemma ScanLeaves(s: seq<Node>, n: Node, o: int, b: int)
    requires -1 <= b < o < |s| && o != RightPos(s, n.right) && s[o].left != n.left
    requires s[o].left.None? || !(LeftPos(s, n.left) < Find(s, s[o].left.value) <= o)
    ensures Scan(s, n, o, b) == b
  {
  }

  lemma ScanEnds(s: seq<Node>, n: Node, o: int, b: int, order: seq<int>, place: seq<int>)
    requires Arranged(|order|, order, place) && |s| == |order| && Has(s, n.right)
    requires -1 <= b < o <= |s|
    requires LinkAt(order, o) == -1 || LinkAt(order, o) == LinkAt(order, RightPos(s, n.right))
    ensures Scan(s, n, o, b) == b
  {
  }
}
