/** Where the inserts of a restore batch leave the ground the convergence results
    stand on, and exactly when they separate replicas. */
module RestoreLimits {
  import opened Types
  import opened Order
  import opened State
  import opened LiveList
  import opened Folding
  import opened RestorePlan
  import opened RestoreComplete
  import opened Separation

  /** The right anchor's own left origin stands between the two anchors. */
  ghost predicate HangsBetween(s: seq<Node>, n: Node) {
    var r := RightPos(s, n.right);
    0 <= r < |s| && s[r].left.Some? && LeftPos(s, n.left) < Find(s, s[r].left.value) < r
  }

  /** An insert between two neighbouring live items, as every insert of a restore
      batch is (RestorePlan.MergedAnchors), is well formed if and only if the right
      neighbour does not hang from an item between the two. */
  lemma NeighbourWellFormed(d: Doc, t: int, op: Operation)
    requires Tree(Skel(d.stream)) && op.Insert? && IndexOf(d, op.id) < 0 && 0 <= t <= |LiveItems(d.stream)|
    requires op.left == LeftId(LiveItems(d.stream), t) && op.right == RightId(LiveItems(d.stream), t)
    ensures WellFormed(Skel(d.stream), NodeOfOp(op)) <==> !HangsBetween(Skel(d.stream), NodeOfOp(op))
    ensures forall p :: LeftPos(Skel(d.stream), op.left) < p < RightPos(Skel(d.stream), op.right) ==>
              0 <= p < |d.stream| && d.stream[p].tombstoned
  {
    hide LiveItems, LeftId, RightId, Unique, Rank;
    var s, n := Skel(d.stream), NodeOfOp(op);
    var l, r := AnchorPositions(d, t, op);
    PresentHas(d, op.left);
    PresentHas(d, op.right);
    AbsentFind(d, op.id);
    if r < |s| { LeftOrigin(s, r); }
    RankWhole(d.stream);
    forall p | l < p < r ensures 0 <= p < |d.stream| && d.stream[p].tombstoned {
      BetweenNeighbours(d.stream, l, r, p);
    }
  }

  /** The operations of a restore batch before its j-th target item is created. */
  function BatchBefore(a: Doc, b: Doc, t: Stamp, j: nat): seq<Operation>
    requires j <= |LiveItems(b.stream)|
  {
    var current, target := LiveItems(a.stream), LiveItems(b.stream);
    var deletes := Deletes(a.stream, IdsOf(target), t);
    deletes + Inserts(target, IdsOf(current) * IdsOf(target), After(t, |deletes|), j)
  }

  /** The insert of a restore batch for the j-th target item. */
  function RestoreInsert(a: Doc, b: Doc, t: Stamp, j: nat): (op: Operation)
    requires j < |LiveItems(b.stream)|
    ensures op.Insert?
  {
    var current, target := LiveItems(a.stream), LiveItems(b.stream);
    InsertOf(target, IdsOf(current) * IdsOf(target), After(t, |Deletes(a.stream, IdsOf(target), t)|), j)
  }

  /** What is known of the document an insert of a restore batch meets. */
  lemma RestoreMeets(reg: Registry, a: Doc, b: Doc, t: Stamp, j: nat) returns (e: Doc)
    requires Restorable(reg, a, b, t) && t.counter + |BatchBefore(a, b, t, |LiveItems(b.stream)|)| <= MAX_COUNTER
    requires j < |LiveItems(b.stream)| && LiveItems(b.stream)[j].id !in IdsOf(LiveItems(a.stream))
    ensures var f := Fold(reg, a, BatchBefore(a, b, t, j)); f.0 == e && f.1.Ok?
    ensures var op := RestoreInsert(a, b, t, j);
            && IndexOf(e, op.id) < 0 && j <= |LiveItems(e.stream)|
            && op.left == LeftId(LiveItems(e.stream), j) && op.right == RightId(LiveItems(e.stream), j)
  {
    hide LiveItems, Within, Agree, Aligned, Insertable, Fold, Merged, SameOrder, Deletes, LeftId, RightId;
    var current, target := LiveItems(a.stream), LiveItems(b.stream);
    var kept := IdsOf(current) * IdsOf(target);
    var deletes := Deletes(a.stream, IdsOf(target), t);
    var t1 := After(t, |deletes|);
    MissingMore(target, kept, j, |target|);
    LivesDistinct(a.stream);
    LivesDistinct(b.stream);
    AlignedFromOrder(current, target, kept);
    hide IdsOf, DistinctIds, Missing, Inserts, Good;
    var d := KeptRemain(reg, a, t, target, kept);
    e := InsertsFold(reg, d, Within(current, kept), target, kept, t1, j);
    FoldMore(reg, a, deletes, Inserts(target, kept, t1, j));
    MergedAnchors(LiveItems(e.stream), Within(current, kept), target, kept, t1, j);
    GoodFresh(e, After(t1, Missing(target, kept, j)), After(t1, Missing(target, kept, j) + 1));
  }

  /** Every insert of a restore batch is accepted, and it is well formed where it
      arrives if and only if its right anchor does not hang between its anchors. */
  lemma RestoreInsertWellFormed(reg: Registry, a: Doc, b: Doc, t: Stamp, j: nat)
    requires Restorable(reg, a, b, t) && t.counter + |BatchBefore(a, b, t, |LiveItems(b.stream)|)| <= MAX_COUNTER
    requires j < |LiveItems(b.stream)| && LiveItems(b.stream)[j].id !in IdsOf(LiveItems(a.stream))
    requires Tree(Skel(Fold(reg, a, BatchBefore(a, b, t, j)).0.stream))
    ensures Fold(reg, a, BatchBefore(a, b, t, j)).1.Ok?
    ensures var s := Skel(Fold(reg, a, BatchBefore(a, b, t, j)).0.stream);
            var n := NodeOfOp(RestoreInsert(a, b, t, j));
            WellFormed(s, n) <==> !HangsBetween(s, n)
  {
    hide *;
    var e := RestoreMeets(reg, a, b, t, j);
    NeighbourWellFormed(e, j, RestoreInsert(a, b, t, j));
  }

  lemma NeighbourAnchored(d: Doc, t: int, op: Operation)
    requires Tree(Skel(d.stream)) && op.Insert? && IndexOf(d, op.id) < 0 && 0 <= t <= |LiveItems(d.stream)|
    requires op.left == LeftId(LiveItems(d.stream), t) && op.right == RightId(LiveItems(d.stream), t)
    ensures Anchored(Skel(d.stream), NodeOfOp(op))
  {
    hide LiveItems, LeftId, RightId, Unique, Rank;
    var l, r := AnchorPositions(d, t, op);
    PresentHas(d, op.left);
    PresentHas(d, op.right);
    AbsentFind(d, op.id);
  }

  /** Every insert of a restore batch commutes, where it arrives, with every well-formed
      insert of the other replicas if and only if it does not pass the item over its
      right anchor; where no item is of a replica below the restore band it never does. */
  lemma RestoreInsertSeparates(reg: Registry, a: Doc, b: Doc, t: Stamp, j: nat)
    requires Restorable(reg, a, b, t) && t.counter + |BatchBefore(a, b, t, |LiveItems(b.stream)|)| <= MAX_COUNTER
    requires j < |LiveItems(b.stream)| && LiveItems(b.stream)[j].id !in IdsOf(LiveItems(a.stream))
    requires var s := Skel(Fold(reg, a, BatchBefore(a, b, t, j)).0.stream); Tree(s) && Sorted(s)
    ensures Fold(reg, a, BatchBefore(a, b, t, j)).1.Ok?
    ensures var s := Skel(Fold(reg, a, BatchBefore(a, b, t, j)).0.stream);
            var n := NodeOfOp(RestoreInsert(a, b, t, j));
            && ((forall y :: WellFormed(s, y) && y.id.replica != n.id.replica ==> Commute(s, n, y)) <==> !Passes(s, n))
            && (Passes(s, n) ==> HangsBetween(s, n))
            && (Passes(s, n) ==> exists i :: 0 <= i < |s| && s[i].id.replica < RESTORE_REPLICA)
  {
    hide *;
    var e := RestoreMeets(reg, a, b, t, j);
    var s, n := Skel(e.stream), NodeOfOp(RestoreInsert(a, b, t, j));
    NeighbourAnchored(e, j, RestoreInsert(a, b, t, j));
    SeparatesExactly(s, n);
    RaisedSame(s, n);
    NeighbourWellFormed(e, j, RestoreInsert(a, b, t, j));
    PassesSmaller(s, n);
    RestoreBand(a, b, t, j);
  }

  lemma PassesSmaller(s: seq<Node>, n: Node)
    ensures Passes(s, n) ==> exists i :: 0 <= i < |s| && s[i].id.replica < n.id.replica
  {
    hide OverRight;
  }

  lemma RestoreBand(a: Doc, b: Doc, t: Stamp, j: nat)
    requires j < |LiveItems(b.stream)|
    ensures NodeOfOp(RestoreInsert(a, b, t, j)).id.replica == RESTORE_REPLICA
  {
  }

  lemma {:induction false} MissingMore(target: seq<Item>, kept: set<OpId>, i: nat, j: nat)
    requires i <= j <= |target|
    ensures Missing(target, kept, i) <= Missing(target, kept, j)
    decreases j
  {
    if i < j { MissingMore(target, kept, i, j - 1); }
  }

  lemma GoodFresh(d: Doc, t: Stamp, t': Stamp)
    requires Good(d, t) && t'.counter > t.counter
    ensures IndexOf(d, IdOf(t')) < 0
  {
  }

  lemma RankWhole(s: seq<Item>)
    ensures Rank(s, |s|) == |LiveItems(s)| && Rank(s, 0) == 0
  {
    assert s[..|s|] == s;
  }

  lemma PresentHas(d: Doc, a: Option<OpId>)
    requires Present(d, a)
    ensures Has(Skel(d.stream), a)
  {
  }

  lemma AbsentFind(d: Doc, id: OpId)
    requires IndexOf(d, id) < 0
    ensures Find(Skel(d.stream), id) < 0
  {
  }

  lemma LeftOrigin(s: seq<Node>, r: int)
    requires Tree(s) && 0 <= r < |s|
    ensures -1 <= LeftPos(s, s[r].left) < r && Has(s, s[r].left)
  {
    assert ShapeOf(s).lp[r] < r;
  }

  /** The items between two neighbouring live ones are tombstones. */
  lemma BetweenNeighbours(s: seq<Item>, l: int, r: int, p: int)
    requires -1 <= l < p < r <= |s|
    requires (if l >= 0 then Rank(s, l) + 1 else 0) == Rank(s, r) && (l >= 0 ==> !s[l].tombstoned)
    ensures s[p].tombstoned
  {
    hide LiveItems, Rank;
    if l >= 0 {
      RankNext(s, l);
      RankMonotone(s, l + 1, p);
    }
    RankNext(s, p);
    RankMonotone(s, p + 1, r);
  }
}
