/** The item store: cells in arrival order, doubly linked in document order. */
module Links {
  import opened Types
  import opened Order

  /** An item with its links; -1 is no neighbour. */
  datatype Cell = Cell(item: Item, prev: int, next: int)

  /** Position `k` of the document order as a link. */
  function LinkAt(order: seq<int>, k: int): int {
    if 0 <= k < |order| then order[k] else -1
  }

  /** `order` lists the cell indices in document order, `place` inverts it. */
  ghost predicate Arranged(n: int, order: seq<int>, place: seq<int>) {
    && |order| == n && |place| == n
    && (forall k :: 0 <= k < n ==> 0 <= order[k] < n && place[order[k]] == k)
    && (forall i :: 0 <= i < n ==> 0 <= place[i] < n && order[place[i]] == i)
  }

  ghost predicate Linked(cells: seq<Cell>, order: seq<int>) {
    && (forall k :: 0 <= k < |order| ==> 0 <= order[k] < |cells|)
    && (forall k :: 0 <= k < |order| ==> cells[order[k]].prev == LinkAt(order, k - 1))
    && (forall k :: 0 <= k < |order| ==> cells[order[k]].next == LinkAt(order, k + 1))
  }

  /** The index maps exactly the ids of the stored items to their cells. */
  ghost predicate Indexed(cells: seq<Cell>, index: map<OpId, int>) {
    && (forall i :: 0 <= i < |cells| ==> cells[i].item.id in index && index[cells[i].item.id] == i)
    && (forall id :: id in index ==> 0 <= index[id] < |cells| && cells[index[id]].item.id == id)
  }

  function StreamOf(cells: seq<Cell>, order: seq<int>): (s: seq<Item>)
    requires forall k :: 0 <= k < |order| ==> 0 <= order[k] < |cells|
    ensures |s| == |order|
    ensures forall k :: 0 <= k < |s| ==> s[k] == cells[order[k]].item
  {
    seq(|order|, k requires 0 <= k < |order| => cells[order[k]].item)
  }

  /** Where the new cell goes in the order, and how the places move. */
  function PlaceAfter(place: seq<int>, at: int): (p: seq<int>)
    ensures |p| == |place| + 1 && p[|place|] == at
    ensures forall i :: 0 <= i < |place| ==> p[i] == if place[i] < at then place[i] else place[i] + 1
  {
    seq(|place|, i requires 0 <= i < |place| => if place[i] < at then place[i] else place[i] + 1) + [at]
  }

  lemma ArrangedInsert(n: int, order: seq<int>, place: seq<int>, at: int)
    requires Arranged(n, order, place) && 0 <= at <= n
    ensures Arranged(n + 1, InsertAt(order, at, n), PlaceAfter(place, at))
  {
    hide InsertAt, PlaceAfter;
    var o, p := InsertAt(order, at, n), PlaceAfter(place, at);
    forall k | 0 <= k < n + 1 ensures 0 <= o[k] < n + 1 && p[o[k]] == k {
      if k > at { assert o[k] == order[k - 1]; }
    }
    forall i | 0 <= i < n + 1 ensures 0 <= p[i] < n + 1 && o[p[i]] == i {}
  }

  /** Linking the last cell of `cells` behind position `at - 1`: only its own links
      and those of its two neighbours change. */
  ghost predicate SplicedLinks(cells: seq<Cell>, after: seq<Cell>, order: seq<int>, at: int) {
    && |after| == |cells| && |order| + 1 == |cells| && 0 <= at <= |order|
    && (forall k :: 0 <= k < |order| ==> 0 <= order[k] < |order|)
    && (forall i :: 0 <= i < |cells| ==> after[i].item == cells[i].item)
    && after[|order|].prev == LinkAt(order, at - 1) && after[|order|].next == LinkAt(order, at)
    && (forall i :: 0 <= i < |order| ==> after[i].next == if i == LinkAt(order, at - 1) then |order| else cells[i].next)
    && (forall i :: 0 <= i < |order| ==> after[i].prev == if i == LinkAt(order, at) then |order| else cells[i].prev)
  }

  /** The link updates of a splice of the last cell, in the order they are made. */
  function Relink(cells: seq<Cell>, after: int, before: int): (r: seq<Cell>)
    requires |cells| > 0 && -1 <= after < |cells| - 1 && -1 <= before < |cells| - 1
    ensures |r| == |cells|
  {
    var n := |cells| - 1;
    var c1 := cells[n := cells[n].(prev := after, next := before)];
    var c2 := if after == -1 then c1 else c1[after := c1[after].(next := n)];
    if before == -1 then c2 else c2[before := c2[before].(prev := n)]
  }

  lemma RelinkSplices(cells: seq<Cell>, order: seq<int>, at: int, after: int, before: int)
    requires |order| + 1 == |cells| && 0 <= at <= |order|
    requires forall k :: 0 <= k < |order| ==> 0 <= order[k] < |order|
    requires after == LinkAt(order, at - 1) && before == LinkAt(order, at)
    ensures SplicedLinks(cells, Relink(cells, after, before), order, at)
  {
  }

  lemma LinkedInsert(cells: seq<Cell>, after: seq<Cell>, order: seq<int>, place: seq<int>, at: int)
    requires Arranged(|order|, order, place) && Linked(cells, order) && SplicedLinks(cells, after, order, at)
    ensures Linked(after, InsertAt(order, at, |order|))
  {
    hide InsertAt;
    var o := InsertAt(order, at, |order|);
    forall k | 0 <= k < |o|
      ensures 0 <= o[k] < |after|
      ensures after[o[k]].prev == LinkAt(o, k - 1)
      ensures after[o[k]].next == LinkAt(o, k + 1)
    {
      LinkedInsertAt(cells, after, order, place, at, o, k);
    }
  }

  lemma LinkedInsertAt(cells: seq<Cell>, after: seq<Cell>, order: seq<int>, place: seq<int>, at: int, o: seq<int>,
                       k: int)
    requires Arranged(|order|, order, place) && Linked(cells, order) && SplicedLinks(cells, after, order, at)
    requires |o| == |order| + 1 && o[at] == |order|
    requires forall i :: 0 <= i < at ==> o[i] == order[i]
    requires forall i :: at < i < |o| ==> o[i] == order[i - 1]
    requires 0 <= k < |o|
    ensures 0 <= o[k] < |after|
    ensures after[o[k]].prev == LinkAt(o, k - 1)
    ensures after[o[k]].next == LinkAt(o, k + 1)
  {
    hide Linked, Arranged;
    if k != at {
      var j := if k < at then k else k - 1;
      assert o[k] == order[j];
      LinkIs(order, place, j, at - 1);
      LinkIs(order, place, j, at);
      LinksOf(cells, order, j);
    }
  }

  lemma LinkIs(order: seq<int>, place: seq<int>, j: int, k: int)
    requires Arranged(|order|, order, place) && 0 <= j < |order|
    ensures order[j] == LinkAt(order, k) <==> j == k
  {
  }

  lemma LinksOf(cells: seq<Cell>, order: seq<int>, j: int)
    requires Linked(cells, order) && 0 <= j < |order|
    ensures 0 <= order[j] < |cells|
    ensures cells[order[j]].prev == LinkAt(order, j - 1) && cells[order[j]].next == LinkAt(order, j + 1)
  {
  }

  lemma StreamInsert(cells: seq<Cell>, after: seq<Cell>, order: seq<int>, at: int)
    requires SplicedLinks(cells, after, order, at)
    ensures forall k :: 0 <= k < |order| + 1 ==> 0 <= InsertAt(order, at, |order|)[k] < |after|
    ensures StreamOf(after, InsertAt(order, at, |order|)) ==
            InsertAt(StreamOf(cells, order), at, cells[|order|].item)
  {
    hide InsertAt;
  }

  /** Rewriting one item's content leaves links, index and order alone. */
  lemma UpdateItem(cells: seq<Cell>, order: seq<int>, place: seq<int>, index: map<OpId, int>, i: int, item: Item)
    requires Arranged(|cells|, order, place) && Linked(cells, order) && Indexed(cells, index)
    requires 0 <= i < |cells| && item.id == cells[i].item.id
    ensures var after := cells[i := cells[i].(item := item)];
            && Linked(after, order) && Indexed(after, index)
            && StreamOf(after, order) == StreamOf(cells, order)[place[i] := item]
  {
  }

  /** Looking an id up in the index finds its position in the stream. */
  lemma LookupIs(cells: seq<Cell>, order: seq<int>, place: seq<int>, index: map<OpId, int>, s: seq<Node>, id: OpId)
    requires Arranged(|cells|, order, place) && Indexed(cells, index)
    requires |s| == |order| && forall k :: 0 <= k < |s| ==> s[k].id == cells[order[k]].item.id
    ensures Find(s, id) == if id in index then place[index[id]] else -1
  {
    var f := Find(s, id);
    if id in index {
      assert s[place[index[id]]].id == id;
      assert cells[order[f]].item.id == id;
    }
  }

  lemma IndexedInsert(cells: seq<Cell>, after: seq<Cell>, order: seq<int>, at: int, index: map<OpId, int>,
                      before: seq<Cell>)
    requires SplicedLinks(cells, after, order, at) && |before| == |order| && Indexed(before, index)
    requires forall i :: 0 <= i < |before| ==> cells[i].item == before[i].item
    requires cells[|order|].item.id !in index
    ensures Indexed(after, index[cells[|order|].item.id := |order|])
  {
  }

  /** The cells strictly between two positions of the order. */
  ghost function Band(order: seq<int>, lo: int, hi: int): set<int> {
    set k | lo < k < hi && 0 <= k < |order| :: order[k]
  }

  lemma BandEmpty(order: seq<int>, at: int)
    ensures Band(order, at, at + 1) == {}
  {
  }

  lemma BandNext(order: seq<int>, lo: int, at: int)
    requires 0 <= at < |order| && lo < at
    ensures Band(order, lo, at) + {order[at]} == Band(order, lo, at + 1)
    ensures Band(order, at, at + 1) == {}
  {
    forall c | c in Band(order, lo, at + 1) ensures c in Band(order, lo, at) + {order[at]} {
      var k :| lo < k < at + 1 && 0 <= k < |order| && order[k] == c;
    }
    assert order[at] in Band(order, lo, at + 1);
  }

  lemma InBand(order: seq<int>, place: seq<int>, lo: int, hi: int, c: int)
    requires Arranged(|order|, order, place) && 0 <= c < |order|
    ensures c in Band(order, lo, hi) <==> lo < place[c] < hi
  {
    assert order[place[c]] == c;
  }

  /** An unlinked cell at the end of the store does not disturb the links. */
  lemma StoredLinked(cells: seq<Cell>, order: seq<int>, cell: Cell)
    requires Linked(cells, order)
    ensures Linked(cells + [cell], order)
  {
  }

  lemma StreamStored(cells: seq<Cell>, order: seq<int>, cell: Cell)
    requires forall k :: 0 <= k < |order| ==> 0 <= order[k] < |cells|
    ensures StreamOf(cells + [cell], order) == StreamOf(cells, order)
  {
  }

  /** Storing and splicing an item, seen in the stream, the places and the index. */
  lemma Stored(before: seq<Cell>, after: seq<Cell>, order: seq<int>, listed: seq<int>, place: seq<int>, at: int,
               index: map<OpId, int>, item: Item)
    requires 0 <= at <= |order| == |before| && Indexed(before, index) && item.id !in index
    requires SplicedLinks(before + [Cell(item, -1, -1)], after, order, at)
    requires listed == InsertAt(order, at, |before|) && exists p :: |p| == |before| && place == PlaceAfter(p, at)
    ensures |place| == |before| + 1 && place[|before|] == at && |listed| == |before| + 1
    ensures after[|before|].item == item && Indexed(after, index[item.id := |before|])
    ensures forall k :: 0 <= k < |order| ==> 0 <= order[k] < |before|
    ensures forall k :: 0 <= k < |listed| ==> 0 <= listed[k] < |after|
    ensures StreamOf(after, listed) == InsertAt(StreamOf(before, order), at, item)
  {
    hide InsertAt, StreamOf, PlaceAfter, Indexed;
    var stored := before + [Cell(item, -1, -1)];
    assert forall i :: 0 <= i < |before| ==> stored[i] == before[i];
    StreamInsert(stored, after, order, at);
    StreamStored(before, order, Cell(item, -1, -1));
    IndexedInsert(stored, after, order, at, index, before);
  }
}
