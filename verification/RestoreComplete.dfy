/** The restore batch brings any document that shares its history with the target
    to show exactly what the target shows. */
module RestoreComplete {
  import opened Types
  import opened Order
  import opened State
  import opened Visible
  import opened LiveList
  import opened Folding
  import opened RestorePlan

  // ------------------------------------------------------------------ kept items

  ghost predicate DistinctIds(items: seq<Item>) {
    forall i, j :: 0 <= i < j < |items| ==> items[i].id != items[j].id
  }

  /** Items that stand in both lists stand in the same order. */
  ghost predicate SameOrder(x: seq<Item>, y: seq<Item>) {
    forall i1, i2, j1, j2 ::
      (0 <= i1 < i2 < |x| && 0 <= j1 < |y| && 0 <= j2 < |y| && x[i1].id == y[j1].id && x[i2].id == y[j2].id)
      ==> j1 < j2
  }

  ghost predicate SameIds(q: seq<Item>, r: seq<Item>) {
    |q| == |r| && forall i :: 0 <= i < |q| ==> q[i].id == r[i].id
  }

  /** Every listed item with an id in `ids` is listed in the other list too. */
  ghost predicate Covered(x: seq<Item>, y: seq<Item>, ids: set<OpId>) {
    forall i :: 0 <= i < |x| && x[i].id in ids ==> exists j :: 0 <= j < |y| && y[j].id == x[i].id
  }

  lemma CoveredShort(x: seq<Item>, y: seq<Item>, ids: set<OpId>)
    requires |x| > 0 && Covered(x, y, ids)
    ensures Covered(x[..|x| - 1], y, ids)
  {
  }

  lemma CoveredWithout(x: seq<Item>, y: seq<Item>, ids: set<OpId>)
    requires |y| > 0 && Covered(x, y, ids)
    requires y[|y| - 1].id !in ids || (forall i :: 0 <= i < |x| ==> x[i].id != y[|y| - 1].id)
    ensures Covered(x, y[..|y| - 1], ids)
  {
    var y' := y[..|y| - 1];
    forall i | 0 <= i < |x| && x[i].id in ids ensures exists j :: 0 <= j < |y'| && y'[j].id == x[i].id {
      var j :| 0 <= j < |y| && y[j].id == x[i].id;
      assert y'[j].id == x[i].id;
    }
  }

  lemma CoveredAt(x: seq<Item>, y: seq<Item>, ids: set<OpId>, i: int) returns (j: int)
    requires Covered(x, y, ids) && 0 <= i < |x| && x[i].id in ids
    ensures 0 <= j < |y| && y[j].id == x[i].id
  {
    j :| 0 <= j < |y| && y[j].id == x[i].id;
  }

  lemma InOrder(x: seq<Item>, y: seq<Item>, i1: int, i2: int, j1: int, j2: int)
    requires SameOrder(x, y)
    requires 0 <= i1 < i2 < |x| && 0 <= j1 < |y| && 0 <= j2 < |y| && x[i1].id == y[j1].id && x[i2].id == y[j2].id
    ensures j1 < j2
  {
  }

  lemma LastShared(x: seq<Item>, y: seq<Item>, ids: set<OpId>)
    requires |x| > 0 && |y| > 0 && SameOrder(x, y) && Covered(x, y, ids) && Covered(y, x, ids)
    requires x[|x| - 1].id in ids && y[|y| - 1].id in ids
    ensures x[|x| - 1].id == y[|y| - 1].id
  {
    hide SameOrder, Covered;
    var i := CoveredAt(y, x, ids, |y| - 1);
    var j := CoveredAt(x, y, ids, |x| - 1);
    if i < |x| - 1 {
      InOrder(x, y, i, |x| - 1, |y| - 1, j);
    }
  }

  lemma {:induction false} SharedSame(x: seq<Item>, y: seq<Item>, ids: set<OpId>)
    requires DistinctIds(x) && DistinctIds(y) && SameOrder(x, y) && Covered(x, y, ids) && Covered(y, x, ids)
    ensures SameIds(Within(x, ids), Within(y, ids))
    decreases |x| + |y|
  {
    hide SameOrder, Covered;
    if |x| > 0 && x[|x| - 1].id !in ids {
      SharedShort(x, y, ids);
      SharedSame(x[..|x| - 1], y, ids);
    } else if |y| > 0 && y[|y| - 1].id !in ids {
      SharedShortRight(x, y, ids);
      SharedSame(x, y[..|y| - 1], ids);
    } else if |x| > 0 && |y| > 0 {
      LastShared(x, y, ids);
      SharedShortBoth(x, y, ids);
      SharedSame(x[..|x| - 1], y[..|y| - 1], ids);
    } else {
      NothingShared(x, y, ids);
    }
  }

  lemma NothingShared(x: seq<Item>, y: seq<Item>, ids: set<OpId>)
    requires Covered(x, y, ids) && Covered(y, x, ids) && (|x| == 0 || |y| == 0)
    requires |x| > 0 ==> x[|x| - 1].id in ids
    requires |y| > 0 ==> y[|y| - 1].id in ids
    ensures x == [] && y == []
  {
  }

  lemma OrderShort(x: seq<Item>, y: seq<Item>)
    requires |x| > 0 && SameOrder(x, y)
    ensures SameOrder(x[..|x| - 1], y)
  {
    var x' := x[..|x| - 1];
    forall i1, i2, j1, j2 | 0 <= i1 < i2 < |x'| && 0 <= j1 < |y| && 0 <= j2 < |y| && x'[i1].id == y[j1].id
      && x'[i2].id == y[j2].id
      ensures j1 < j2
    {
      InOrder(x, y, i1, i2, j1, j2);
    }
  }

  lemma OrderShortRight(x: seq<Item>, y: seq<Item>)
    requires |y| > 0 && SameOrder(x, y)
    ensures SameOrder(x, y[..|y| - 1])
  {
    var y' := y[..|y| - 1];
    forall i1, i2, j1, j2 | 0 <= i1 < i2 < |x| && 0 <= j1 < |y'| && 0 <= j2 < |y'| && x[i1].id == y'[j1].id
      && x[i2].id == y'[j2].id
      ensures j1 < j2
    {
      InOrder(x, y, i1, i2, j1, j2);
    }
  }

  lemma SharedShort(x: seq<Item>, y: seq<Item>, ids: set<OpId>)
    requires |x| > 0 && x[|x| - 1].id !in ids
    requires DistinctIds(x) && SameOrder(x, y) && Covered(x, y, ids) && Covered(y, x, ids)
    ensures var x' := x[..|x| - 1];
            DistinctIds(x') && SameOrder(x', y) && Covered(x', y, ids) && Covered(y, x', ids)
  {
    hide SameOrder, Covered;
    OrderShort(x, y);
    CoveredShort(x, y, ids);
    CoveredWithout(y, x, ids);
  }

  lemma SharedShortRight(x: seq<Item>, y: seq<Item>, ids: set<OpId>)
    requires |y| > 0 && y[|y| - 1].id !in ids
    requires DistinctIds(y) && SameOrder(x, y) && Covered(x, y, ids) && Covered(y, x, ids)
    ensures var y' := y[..|y| - 1];
            DistinctIds(y') && SameOrder(x, y') && Covered(x, y', ids) && Covered(y', x, ids)
  {
    hide SameOrder, Covered;
    OrderShortRight(x, y);
    CoveredShort(y, x, ids);
    CoveredWithout(x, y, ids);
  }

  lemma SharedShortBoth(x: seq<Item>, y: seq<Item>, ids: set<OpId>)
    requires |x| > 0 && |y| > 0 && x[|x| - 1].id == y[|y| - 1].id
    requires DistinctIds(x) && DistinctIds(y) && SameOrder(x, y) && Covered(x, y, ids) && Covered(y, x, ids)
    ensures var x', y' := x[..|x| - 1], y[..|y| - 1];
            && DistinctIds(x') && DistinctIds(y') && SameOrder(x', y')
            && Covered(x', y', ids) && Covered(y', x', ids)
  {
    hide SameOrder, Covered;
    OrderShort(x, y);
    OrderShortRight(x[..|x| - 1], y);
    CoveredShort(x, y, ids);
    CoveredShort(y, x, ids);
    CoveredWithout(x[..|x| - 1], y, ids);
    CoveredWithout(y[..|y| - 1], x, ids);
  }

  // ------------------------------------------------------------------- alignment

  lemma {:induction false} WithinCount(target: seq<Item>, kept: set<OpId>, j: nat)
    requires j <= |target|
    ensures |Within(target[..j], kept)| == KeptBefore(target, kept, j)
  {
    if j > 0 {
      WithinCount(target, kept, j - 1);
      assert target[..j][..j - 1] == target[..j - 1];
    }
  }

  lemma {:induction false} WithinPrefix(target: seq<Item>, kept: set<OpId>, j: nat)
    requires j <= |target|
    ensures Within(target[..j], kept) <= Within(target, kept)
    decreases |target|
  {
    if j == |target| {
      assert target[..j] == target;
    } else {
      WithinPrefix(target[..|target| - 1], kept, j);
      assert target[..|target| - 1][..j] == target[..j];
    }
  }

  lemma WithinAt(target: seq<Item>, kept: set<OpId>, i: nat)
    requires i < |target| && target[i].id in kept
    ensures KeptBefore(target, kept, i) < |Within(target, kept)|
    ensures Within(target, kept)[KeptBefore(target, kept, i)] == target[i]
  {
    WithinCount(target, kept, i);
    WithinPrefix(target, kept, i + 1);
    assert target[..i + 1][..i] == target[..i];
  }

  lemma AlignedWith(q: seq<Item>, target: seq<Item>, kept: set<OpId>)
    requires SameIds(q, Within(target, kept))
    ensures Aligned(q, target, kept)
  {
    hide Within, KeptBefore;
    WithinCount(target, kept, |target|);
    assert target[..|target|] == target;
    forall i | 0 <= i < |target| && target[i].id in kept
      ensures KeptBefore(target, kept, i) < |q| && q[KeptBefore(target, kept, i)].id == target[i].id
    {
      WithinAt(target, kept, i);
    }
  }

  lemma AlignedFromOrder(x: seq<Item>, target: seq<Item>, kept: set<OpId>)
    requires DistinctIds(x) && DistinctIds(target) && SameOrder(x, target)
    requires kept == IdsOf(x) * IdsOf(target)
    ensures Aligned(Within(x, kept), target, kept)
  {
    hide SameOrder, DistinctIds, IdsOf, Aligned, Within, Covered, SameIds;
    CoveredByKept(x, target, kept);
    CoveredByKept(target, x, kept);
    SharedSame(x, target, kept);
    AlignedWith(Within(x, kept), target, kept);
  }

  lemma CoveredByKept(x: seq<Item>, y: seq<Item>, kept: set<OpId>)
    requires kept <= IdsOf(y)
    ensures Covered(x, y, kept)
  {
  }

  lemma {:induction false} WithinSame(items: seq<Item>, s1: set<OpId>, s2: set<OpId>)
    requires forall i :: 0 <= i < |items| ==> (items[i].id in s1 <==> items[i].id in s2)
    ensures Within(items, s1) == Within(items, s2)
  {
    if |items| > 0 {
      WithinSame(items[..|items| - 1], s1, s2);
    }
  }

  lemma {:induction false} WithinFrom(items: seq<Item>, ids: set<OpId>, k: int) returns (i: int)
    requires 0 <= k < |Within(items, ids)|
    ensures 0 <= i < |items| && items[i] == Within(items, ids)[k]
    decreases |items|
  {
    var n := |items| - 1;
    if k < |Within(items[..n], ids)| {
      i := WithinFrom(items[..n], ids, k);
    } else {
      i := n;
    }
  }

  lemma {:induction false} ItemFound(items: seq<Item>, i: int)
    requires DistinctIds(items) && 0 <= i < |items|
    ensures ItemWithId(items, items[i].id) == Some(items[i])
    decreases i
  {
    if i > 0 { ItemFound(items[1..], i - 1); }
  }

  lemma LivesDistinct(s: seq<Item>)
    requires Unique(Skel(s))
    ensures DistinctIds(LiveItems(s))
  {
    hide LiveItems;
    forall i, j | 0 <= i < j < |LiveItems(s)| ensures LiveItems(s)[i].id != LiveItems(s)[j].id {
      var p := PositionOf(s, i);
      var q := PositionOf(s, j);
      assert Skel(s)[p].id != Skel(s)[q].id;
    }
  }

  // --------------------------------------------------------------- the main result

  /** Conditions under which document `a` can be restored to show what `b` shows. */
  ghost predicate Restorable(reg: Registry, a: Doc, b: Doc, t: Stamp) {
    var current, target := LiveItems(a.stream), LiveItems(b.stream);
    && Good(a, t)
    && Unique(Skel(b.stream))
    && (forall j :: 0 <= j < |target| ==> Insertable(reg, target[j]))
    && (forall i, j :: 0 <= i < |current| && 0 <= j < |target| && current[i].id == target[j].id ==>
          Agree(reg, current[i], target[j]))
    && SameOrder(current, target)
  }

  lemma KeptAsMerged(reg: Registry, current: seq<Item>, q: seq<Item>, target: seq<Item>, kept: set<OpId>, t: Stamp,
                     merged: seq<Item>, i: int)
    requires DistinctIds(current) && Aligned(q, target, kept) && q == Within(current, kept)
    requires forall i, j :: 0 <= i < |current| && 0 <= j < |target| && current[i].id == target[j].id ==>
               Agree(reg, current[i], target[j])
    requires Merged(merged, q, target, kept, t, |target|) && |merged| == |target| && 0 <= i < |target|
    ensures KeptAs(reg, current, merged, target, kept, i)
  {
    hide Within, Agree, LiveOf, Aligned, KeptBefore, NewId, ItemWithId;
    assert Placed(merged[i], q, target, kept, t, i);
    if target[i].id in kept {
      assert NewId(target, kept, t, i) == target[i].id by { NewIdKept(target, kept, t, i); }
      var p := WithinFrom(current, kept, KeptBefore(target, kept, i));
      ItemFound(current, p);
      assert current[p].id == target[i].id;
    }
  }

  lemma NewIdKept(target: seq<Item>, kept: set<OpId>, t: Stamp, i: nat)
    requires i < |target| && target[i].id in kept
    ensures NewId(target, kept, t, i) == target[i].id
  {
  }

  lemma ShownAlike(s1: seq<Item>, s2: seq<Item>)
    requires |LiveItems(s1)| == |LiveItems(s2)|
    requires forall i :: 0 <= i < |LiveItems(s1)| ==> LiveOf(LiveItems(s1)[i]) == LiveOf(LiveItems(s2)[i])
    ensures VisibleDocument(s1) == VisibleDocument(s2)
  {
    hide LiveItems, Lives, LiveOf;
    LivesAreLiveItems(s1);
    LivesAreLiveItems(s2);
    assert ShowAll(LiveItems(s1)) == ShowAll(LiveItems(s2));
  }

  lemma MergedTotal(live: seq<Item>, q: seq<Item>, target: seq<Item>, kept: set<OpId>, t: Stamp)
    requires Aligned(q, target, kept) && Merged(live, q, target, kept, t, |target|)
    ensures |live| == |target|
  {
  }

  /** After the deletes the live items are the kept ones. */
  lemma KeptRemain(reg: Registry, a: Doc, t: Stamp, target: seq<Item>, kept: set<OpId>) returns (d: Doc)
    requires Good(a, t) && kept == IdsOf(LiveItems(a.stream)) * IdsOf(target)
    ensures var ops := Deletes(a.stream, IdsOf(target), t);
            Fold(reg, a, ops).1.Ok? && Fold(reg, a, ops).0 == d && Good(d, After(t, |ops|))
    ensures LiveItems(d.stream) == Within(LiveItems(a.stream), kept) && d.pending == a.pending
  {
    hide Good, Fold, LiveItems, Deletes;
    d := DeletesFold(reg, a, IdsOf(target), t, |a.stream|);
    assert a.stream[..|a.stream|] == a.stream;
    BuriedLives(a.stream, IdsOf(target));
    WithinSame(LiveItems(a.stream), IdsOf(target), kept);
  }

  /** After the inserts every target item is there, shown or to be synchronised. */
  lemma AllStand(reg: Registry, a: Doc, b: Doc, t: Stamp, d: Doc, t1: Stamp) returns (e: Doc)
    requires Restorable(reg, a, b, t) && Good(d, t1)
    requires var current, target := LiveItems(a.stream), LiveItems(b.stream);
             var kept := IdsOf(current) * IdsOf(target);
             && LiveItems(d.stream) == Within(current, kept)
             && t1.counter + Missing(target, kept, |target|) <= MAX_COUNTER
    ensures var current, target := LiveItems(a.stream), LiveItems(b.stream);
            var kept := IdsOf(current) * IdsOf(target);
            var ops := Inserts(target, kept, t1, |target|);
            && Fold(reg, d, ops).1.Ok? && Fold(reg, d, ops).0 == e && Good(e, After(t1, |ops|))
            && |LiveItems(e.stream)| == |target| && e.pending == d.pending
            && forall i :: 0 <= i < |target| ==> KeptAs(reg, current, LiveItems(e.stream), target, kept, i)
  {
    hide LiveItems, Within, Agree, Aligned, Insertable, Fold, Inserts, Merged, SameOrder, KeptAs, Missing;
    var current, target := LiveItems(a.stream), LiveItems(b.stream);
    var kept := IdsOf(current) * IdsOf(target);
    var q := Within(current, kept);
    LivesDistinct(a.stream);
    LivesDistinct(b.stream);
    AlignedFromOrder(current, target, kept);
    hide Good, IdsOf, DistinctIds;
    e := InsertsFold(reg, d, q, target, kept, t1, |target|);
    MergedTotal(LiveItems(e.stream), q, target, kept, t1);
    forall i | 0 <= i < |target| ensures KeptAs(reg, current, LiveItems(e.stream), target, kept, i) {
      KeptAsMerged(reg, current, q, target, kept, t1, LiveItems(e.stream), i);
    }
  }

  /** Completeness: every operation of the batch is accepted, the buffer is as it
      was, and the result shows exactly what the target shows. */
  lemma RestoreCompletes(reg: Registry, a: Doc, b: Doc, t: Stamp)
    requires Restorable(reg, a, b, t)
    requires t.counter + |Batch(a.stream, b.stream, t)| <= MAX_COUNTER
    ensures var (d, r) := Fold(reg, a, Batch(a.stream, b.stream, t));
            r.Ok? && d.pending == a.pending && VisibleDocument(d.stream) == VisibleDocument(b.stream)
  {
    hide LiveItems, Good, Fold, Deletes, Inserts, Syncs, Missing, IdsOf, Within, VisibleDocument, LiveOf, KeptAs;
    var current, target := LiveItems(a.stream), LiveItems(b.stream);
    var kept := IdsOf(current) * IdsOf(target);
    var deletes := Deletes(a.stream, IdsOf(target), t);
    var t1 := After(t, |deletes|);
    var inserts := Inserts(target, kept, t1, |target|);
    var syncs := Syncs(current, target, kept, After(t1, |inserts|), |target|);
    var d1 := KeptRemain(reg, a, t, target, kept);
    var d2 := AllStand(reg, a, b, t, d1, t1);
    var d3 := SyncsFold(reg, d2, After(t1, |inserts|), current, target, kept, |target|);
    FoldMore(reg, a, deletes, inserts);
    FoldMore(reg, a, deletes + inserts, syncs);
    ShownAlike(d3.stream, b.stream);
  }
}
