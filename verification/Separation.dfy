/** When the order of two arrivals decides the stream.  An insert whose right anchor
    hangs between its anchors is still placed like a well-formed one, unless it
    passes the sibling over its right anchor; then some later edit tells the two
    orders apart.  Two inserts of one replica tell them apart when they tie. */
module Separation {
  import opened Types
  import opened Order
  import opened Replay
  import P = Positions

  // -------------------------------------------------------------- on positions

  /** The item over `r`, or `r` itself, that does not hang from behind `l`. */
  function Over(lp: seq<int>, l: int, r: int): (e: int)
    ensures e <= r && (-1 <= l < r ==> 0 <= e)
    decreases r
  {
    if 0 <= r < |lp| && l < lp[r] < r then Over(lp, l, lp[r]) else r
  }

  /** All from there up to `r` hangs from it. */
  lemma {:induction false} OverSubtree(lp: seq<int>, l: int, r: int)
    requires P.LeftBefore(lp) && P.NoCrossing(lp) && -1 <= l < r < |lp|
    ensures l < Over(lp, l, r) <= r && lp[Over(lp, l, r)] <= l
    ensures forall j :: Over(lp, l, r) < j <= r ==> Over(lp, l, r) <= lp[j]
    decreases r
  {
    if l < lp[r] {
      OverSubtree(lp, l, lp[r]);
      forall j | Over(lp, l, r) < j <= r ensures Over(lp, l, r) <= lp[j] {
        if lp[r] < j < r { assert lp[r] <= lp[j]; }
      }
    }
  }

  /** Up to an item between the anchors the right anchor plays no part. */
  lemma {:induction false} ScanUpTo(lp: seq<int>, rep: seq<nat>, n: P.Point, e: int, o: int, b: int)
    requires |rep| == |lp| && -1 <= n.l <= b < o <= e <= n.r <= |lp| && e < |lp|
    requires forall j :: n.l < j < e ==> n.l <= lp[j] < j
    ensures P.Scan(lp, rep, n.(r := e), o, b) < e
    ensures P.Scan(lp, rep, n, o, b) == P.Scan(lp, rep, n, e, P.Scan(lp, rep, n.(r := e), o, b))
    decreases e - o
  {
    if o < e {
      var b' := if lp[o] == n.l then (if rep[o] < n.rep then o else b) else if lp[o] <= b then o else b;
      ScanUpTo(lp, rep, n, e, o + 1, b');
    }
  }

  /** Behind a sibling that was not passed nothing below it is. */
  lemma {:induction false} ScanHeld(lp: seq<int>, rep: seq<nat>, n: P.Point, e: int, o: int, b: int)
    requires |rep| == |lp| && -1 <= n.l <= b < e < o <= n.r <= |lp|
    requires forall j :: e < j < n.r ==> e <= lp[j] < j
    ensures P.Scan(lp, rep, n, o, b) == b
    decreases n.r - o
  {
    if o < n.r { ScanHeld(lp, rep, n, e, o + 1, b); }
  }

  /** Behind a sibling that was passed all below it is. */
  lemma {:induction false} ScanTaken(lp: seq<int>, rep: seq<nat>, n: P.Point, e: int, o: int)
    requires |rep| == |lp| && -1 <= n.l < e < o <= n.r <= |lp|
    requires forall j :: e < j < n.r ==> e <= lp[j] < j
    ensures P.Scan(lp, rep, n, o, o - 1) == n.r - 1
    decreases n.r - o
  {
    if o < n.r { ScanTaken(lp, rep, n, e, o + 1); }
  }

  /** The scan leaves the left anchor's subtree before `e` where the shorter one does. */
  lemma {:induction false} ScanLeaves(lp: seq<int>, rep: seq<nat>, n: P.Point, e: int, o: int, b: int)
    requires |rep| == |lp| && -1 <= n.l <= b < o <= e <= n.r <= |lp| && e < |lp| && lp[e] < n.l
    ensures P.Scan(lp, rep, n, o, b) == P.Scan(lp, rep, n.(r := e), o, b)
    decreases e - o
  {
    if o < e && n.l <= lp[o] <= o {
      var b' := if lp[o] == n.l then (if rep[o] < n.rep then o else b) else if lp[o] <= b then o else b;
      ScanLeaves(lp, rep, n, e, o + 1, b');
    }
  }

  /** What stands over the right anchor ends the scan, unless it is a smaller sibling ... */
  lemma ScanStopsOver(lp: seq<int>, rep: seq<nat>, n: P.Point, e: int)
    requires P.LeftBefore(lp) && P.NoCrossing(lp) && |rep| == |lp| && -1 <= n.l < n.r <= |lp|
    requires e == Over(lp, n.l, n.r) < n.r && !(lp[e] == n.l && rep[e] < n.rep)
    ensures n.l < e < n.r && P.Scan(lp, rep, n, n.l + 1, n.l) == P.Scan(lp, rep, n.(r := e), n.l + 1, n.l)
  {
    OverSubtree(lp, n.l, n.r);
    if lp[e] < n.l {
      ScanLeaves(lp, rep, n, e, n.l + 1, n.l);
    } else {
      BelowSibling(lp, n.l, e);
      ScanUpTo(lp, rep, n, e, n.l + 1, n.l);
      ScanHeld(lp, rep, n, e, e + 1, P.Scan(lp, rep, n.(r := e), n.l + 1, n.l));
    }
  }

  /** ... and then the insert goes right before its right anchor. */
  lemma ScanPassesOver(lp: seq<int>, rep: seq<nat>, n: P.Point, e: int)
    requires P.LeftBefore(lp) && P.NoCrossing(lp) && |rep| == |lp| && -1 <= n.l < n.r <= |lp|
    requires e == Over(lp, n.l, n.r) < n.r && lp[e] == n.l && rep[e] < n.rep
    ensures P.Scan(lp, rep, n, n.l + 1, n.l) == n.r - 1
  {
    OverSubtree(lp, n.l, n.r);
    BelowSibling(lp, n.l, e);
    ScanUpTo(lp, rep, n, e, n.l + 1, n.l);
    ScanTaken(lp, rep, n, e, e + 1);
  }

  lemma BelowSibling(lp: seq<int>, l: int, e: int)
    requires P.LeftBefore(lp) && P.NoCrossing(lp) && 0 <= e < |lp| && lp[e] == l
    ensures forall j :: l < j < e ==> l <= lp[j] < j
  {
  }

  /** Other arrivals do not change what stands over the right anchor. */
  lemma {:induction false} OverEmbeds(t: P.Shape, g: P.Shape, m: seq<int>, l: int, r: int)
    requires P.Embeds(t, g, m) && -1 <= l < r <= |t.lp|
    ensures -1 <= Over(t.lp, l, r) <= r
    ensures Over(g.lp, P.Up(m, |g.lp|, l), P.Up(m, |g.lp|, r)) == P.Up(m, |g.lp|, Over(t.lp, l, r))
    decreases r
  {
    if r < |t.lp| {
      P.UpMonotone(m, |g.lp|, l, t.lp[r]);
      P.UpMonotone(m, |g.lp|, t.lp[r], r);
      if l < t.lp[r] < r { OverEmbeds(t, g, m, l, t.lp[r]); }
    }
  }

  // ------------------------------------------------------------------ on items

  /** The anchors are there, in the right order; the right one may hang deep. */
  ghost predicate Anchored(s: seq<Node>, n: Node) {
    && Find(s, n.id) < 0 && Has(s, n.left) && Has(s, n.right)
    && LeftPos(s, n.left) < RightPos(s, n.right)
  }

  ghost function OverRight(s: seq<Node>, n: Node): int {
    Over(ShapeOf(s).lp, LeftPos(s, n.left), RightPos(s, n.right))
  }

  /** The right anchor hangs between the anchors, and the left anchor's child over it
      is smaller than the insert. */
  ghost predicate Passes(s: seq<Node>, n: Node) {
    var e := OverRight(s, n);
    0 <= e < RightPos(s, n.right) && e < |s| && s[e].left == n.left && s[e].id.replica < n.id.replica
  }

  /** The insert with the item over its right anchor for a right anchor. */
  ghost function Raised(s: seq<Node>, n: Node): Node {
    var e := OverRight(s, n);
    if 0 <= e < RightPos(s, n.right) && e < |s| then n.(right := Some(s[e].id)) else n
  }

  lemma RaisedWellFormed(s: seq<Node>, n: Node)
    requires Tree(s) && Anchored(s, n)
    ensures WellFormed(s, Raised(s, n))
    ensures LeftPos(s, n.left) < OverRight(s, n) == RightPos(s, Raised(s, n).right) <= RightPos(s, n.right)
  {
    var l, r, e := LeftPos(s, n.left), RightPos(s, n.right), OverRight(s, n);
    if r < |s| {
      OverSubtree(ShapeOf(s).lp, l, r);
      FindAt(s, e);
      assert ShapeOf(s).lp[e] == LeftPos(s, s[e].left);
    }
  }

  /** An insert is well formed exactly when nothing stands over its right anchor. */
  lemma RaisedSame(s: seq<Node>, n: Node)
    requires Tree(s) && Anchored(s, n)
    ensures WellFormed(s, n) <==> OverRight(s, n) == RightPos(s, n.right)
    ensures WellFormed(s, n) ==> Raised(s, n) == n && !Passes(s, n)
  {
    var l, r := LeftPos(s, n.left), RightPos(s, n.right);
    if r < |s| {
      OverSubtree(ShapeOf(s).lp, l, r);
      assert ShapeOf(s).lp[r] == LeftPos(s, s[r].left) < r;
    }
  }

  lemma SiblingAt(s: seq<Node>, n: Node, e: int)
    requires Closed(s) && Has(s, n.left) && 0 <= e < |s|
    ensures s[e].left == n.left <==> ShapeOf(s).lp[e] == LeftPos(s, n.left)
  {
    AnchorsAt(s, n, e);
  }

  /** An insert that does not pass goes where the raised one goes ... */
  lemma RaisedBoundary(s: seq<Node>, n: Node)
    requires Tree(s) && Anchored(s, n) && !Passes(s, n)
    ensures Boundary(s, n) == Boundary(s, Raised(s, n))
  {
    RaisedWellFormed(s, n);
    var l, e, sh, pt := LeftPos(s, n.left), OverRight(s, n), ShapeOf(s), PointOf(s, n);
    hide Find, Unique, P.ShallowRight, P.RightAfter;
    ScanOnPositions(s, n, l + 1, l);
    ScanOnPositions(s, Raised(s, n), l + 1, l);
    if e < RightPos(s, n.right) {
      SiblingAt(s, n, e);
      assert sh.rep[e] == s[e].id.replica;
      assert PointOf(s, Raised(s, n)) == pt.(r := e);
      ScanStopsOver(sh.lp, sh.rep, pt, e);
    }
  }

  /** ... and one that passes goes right before its right anchor. */
  lemma PassesBoundary(s: seq<Node>, n: Node)
    requires Tree(s) && Anchored(s, n) && Passes(s, n)
    ensures Boundary(s, n) == RightPos(s, n.right) - 1
  {
    var l, e, sh, pt := LeftPos(s, n.left), OverRight(s, n), ShapeOf(s), PointOf(s, n);
    SiblingAt(s, n, e);
    assert sh.rep[e] == s[e].id.replica;
    ScanOnPositions(s, n, l + 1, l);
    ScanPassesOver(sh.lp, sh.rep, pt, e);
  }

  lemma OverMoves(s: seq<Node>, x: Node, n: Node)
    requires Tree(s) && WellFormed(s, x) && Anchored(s, n) && x.id != n.id
    ensures var g, m := Integrate(s, x), Skip(|s|, Boundary(s, x) + 1);
            && Anchored(g, n) && -1 <= OverRight(s, n) <= RightPos(s, n.right) <= |s|
            && RightPos(g, n.right) == P.Up(m, |g|, RightPos(s, n.right))
            && OverRight(g, n) == P.Up(m, |g|, OverRight(s, n)) && P.Increasing(m, |g|)
  {
    WellFormedPoint(s, x);
    TreeUnique(s);
    var g, m := Integrate(s, x), Skip(|s|, Boundary(s, x) + 1);
    var l, r := LeftPos(s, n.left), RightPos(s, n.right);
    hide Tree, Unique, Boundary, Skip, Integrate, Find, Has, LeftPos, RightPos, ShapeOf, P.Up, P.Embeds, P.Increasing,
         Part;
    IntegrateKeeps(s, x);
    IntegrateUnique(s, x);
    PartEmbeds(s, g, m);
    AnchorMoves(s, x, n.left);
    AnchorMoves(s, x, n.right);
    StaysAbsent(s, x, n.id);
    NothingMoves(s, x);
    OverEmbeds(ShapeOf(s), ShapeOf(g), m, l, r);
    P.UpMonotone(m, |g|, l, r);
  }

  /** None of this changes when another item arrives. */
  lemma AnchoredStays(s: seq<Node>, x: Node, n: Node)
    requires Tree(s) && WellFormed(s, x) && Anchored(s, n) && x.id != n.id
    ensures var g := Integrate(s, x);
            Anchored(g, n) && Raised(g, n) == Raised(s, n) && (Passes(g, n) <==> Passes(s, n))
  {
    var g, m := Integrate(s, x), Skip(|s|, Boundary(s, x) + 1);
    var r, e := RightPos(s, n.right), OverRight(s, n);
    OverMoves(s, x, n);
    hide Tree, Boundary, Skip, Integrate, Find, Anchored, WellFormed, OverRight, RightPos, P.Increasing;
    P.UpMonotone(m, |g|, e, r);
    if 0 <= e < |s| { ItemMoves(s, x, e); }
    P.UpMonotone(m, |g|, -1, e);
  }

  // ------------------------------------------------------------------- the tie

  /** Position `v` once something stands at `x`. */
  function Shifted(v: int, x: int): int {
    if v < x then v else v + 1
  }

  /** What the larger stream has where, the new item being at `x`. */
  lemma Placed(t: P.Shape, g: P.Shape, m: seq<int>, x: int, p: P.Point, i: int)
    requires P.Extends(t, g, m, x, p) && 0 <= i < |g.lp|
    ensures |g.rep| == |g.lp| == |t.lp| + 1 && |t.rep| == |t.lp| && -1 <= p.l < x
    ensures i < x ==> g.lp[i] == t.lp[i] && g.rep[i] == t.rep[i]
    ensures i == x ==> g.lp[i] == p.l && g.rep[i] == p.rep
    ensures i > x ==> g.lp[i] == Shifted(t.lp[i - 1], x) && g.rep[i] == t.rep[i - 1]
  {
    hide P.NoCrossing, P.ShallowRight, P.RightAfter;
    if i != x {
      var k := if i < x then i else i - 1;
      assert m[k] == i && -1 <= t.lp[k] < k;
      assert g.lp[m[k]] == P.Up(m, |g.lp|, t.lp[k]) && g.rep[m[k]] == t.rep[k];
    }
  }

  ghost predicate AllPlaced(t: P.Shape, g: P.Shape, x: int, p: P.Point) {
    && |g.rep| == |g.lp| == |t.lp| + 1 && |t.rep| == |t.lp| && -1 <= p.l < x < |g.lp|
    && g.lp[x] == p.l && g.rep[x] == p.rep
    && (forall i :: 0 <= i < x ==> g.lp[i] == t.lp[i] && g.rep[i] == t.rep[i])
    && (forall i :: x < i < |g.lp| ==> g.lp[i] == Shifted(t.lp[i - 1], x) && g.rep[i] == t.rep[i - 1])
  }

  /** A new sibling that is not smaller does not move another's slot ahead of it ... */
  lemma SlotBefore(t: P.Shape, g: P.Shape, x: int, p: P.Point, q: P.Point, b: int)
    requires AllPlaced(t, g, x, p) && q.l == p.l && q.rep <= p.rep && P.Slot(t.lp, t.rep, q, b) && b < x
    ensures P.Slot(g.lp, g.rep, q.(r := Shifted(q.r, x)), b)
  {
    if q.l < b {
      var c :| P.LastChild(t.lp, q.l, c, b) && t.rep[c] < q.rep;
      assert P.LastChild(g.lp, q.l, c, b);
    }
  }

  /** ... and only shifts one behind it. */
  lemma SlotBehind(t: P.Shape, g: P.Shape, x: int, p: P.Point, q: P.Point, b: int)
    requires AllPlaced(t, g, x, p) && q.l == p.l && P.Slot(t.lp, t.rep, q, b) && x <= b
    requires t.lp[x] <= p.l
    ensures P.Slot(g.lp, g.rep, q.(r := Shifted(q.r, x)), b + 1)
  {
    var c :| P.LastChild(t.lp, q.l, c, b) && t.rep[c] < q.rep;
    assert t.lp[x] == q.l && x <= c;
    assert g.lp[c + 1] == q.l;
    forall j | c + 1 < j <= b + 1 ensures g.lp[j] != q.l { assert t.lp[j - 1] != q.l; }
    assert P.LastChild(g.lp, q.l, c + 1, b + 1);
  }

  lemma EveryPlaced(t: P.Shape, g: P.Shape, m: seq<int>, x: int, p: P.Point)
    requires P.Extends(t, g, m, x, p)
    ensures AllPlaced(t, g, x, p)
  {
    ExtendsBounds(t, g, m, x, p);
    hide P.Extends;
    Placed(t, g, m, x, p, x);
    forall i | 0 <= i < |g.lp|
      ensures i < x ==> g.lp[i] == t.lp[i] && g.rep[i] == t.rep[i]
      ensures i > x ==> g.lp[i] == Shifted(t.lp[i - 1], x) && g.rep[i] == t.rep[i - 1]
    {
      Placed(t, g, m, x, p, i);
    }
  }

  /** The new item stands in its slot, and so nothing behind it hangs deeper. */
  lemma ExtendsBounds(t: P.Shape, g: P.Shape, m: seq<int>, x: int, p: P.Point)
    requires P.Extends(t, g, m, x, p)
    ensures |t.rep| == |t.lp| && 0 <= x < |g.lp| == |t.lp| + 1
    ensures x < |t.lp| ==> t.lp[x] <= p.l
  {
    hide P.Embeds, P.Tree;
    assert P.Bounded(t) by { EmbedsBounded(t, g, m); }
    assert x < p.r ==> t.lp[x] <= p.l;
    assert x >= p.r ==> x == p.r;
  }

  lemma EmbedsBounded(t: P.Shape, g: P.Shape, m: seq<int>)
    requires P.Embeds(t, g, m)
    ensures P.Bounded(t) && |g.rep| == |g.lp|
  {
  }

  lemma SlotBeside(t: P.Shape, g: P.Shape, m: seq<int>, x: int, p: P.Point, q: P.Point, b: int)
    requires P.Extends(t, g, m, x, p) && q.l == p.l && q.rep <= p.rep && q.r <= |t.lp|
    requires |t.rep| == |t.lp| && P.Slot(t.lp, t.rep, q, b)
    ensures AllPlaced(t, g, x, p) && P.Slot(g.lp, g.rep, q.(r := Shifted(q.r, x)), Shifted(b, x))
  {
    EveryPlaced(t, g, m, x, p);
    ExtendsBounds(t, g, m, x, p);
    hide P.Extends, AllPlaced;
    if b < x { SlotBefore(t, g, x, p, q, b); } else { SlotBehind(t, g, x, p, q, b); }
  }

  ghost predicate Commute(s: seq<Node>, x: Node, y: Node) {
    Integrate(Integrate(s, x), y) == Integrate(Integrate(s, y), x)
  }

  /** Inserts of one replica that go to the same place behind the same left anchor. */
  ghost predicate Tie(s: seq<Node>, x: Node, y: Node) {
    x.id.replica == y.id.replica && x.left == y.left && Boundary(s, x) == Boundary(s, y)
  }

  lemma PointMoves(s: seq<Node>, x: Node, y: Node)
    requires Tree(s) && WellFormed(s, x) && WellFormed(s, y) && x.id != y.id && x.left == y.left
    ensures PointOf(Integrate(s, x), y)
            == PointOf(s, y).(r := Shifted(PointOf(s, y).r, Boundary(s, x) + 1))
    ensures PointOf(s, y).l == PointOf(s, x).l && PointOf(s, y).r <= |s|
  {
    WellFormedPoint(s, x);
    WellFormedPoint(s, y);
    AnchorMoves(s, x, y.left);
    AnchorMoves(s, x, y.right);
  }

  lemma BoundaryBeside(s: seq<Node>, x: Node, y: Node)
    requires Tree(s) && Sorted(s) && WellFormed(s, x) && WellFormed(s, y)
    requires x.id != y.id && x.left == y.left && y.id.replica <= x.id.replica
    ensures Boundary(Integrate(s, x), y) == Shifted(Boundary(s, y), Boundary(s, x) + 1)
  {
    hide Tree, Sorted, WellFormed, Boundary, Integrate, PointOf, ShapeOf, Skip, P.Slot, P.Extends;
    var g, b := Integrate(s, x), Boundary(s, x) + 1;
    IntegrateGrows(s, x);
    WellFormedStays(s, x, y);
    IntegrateExtends(s, x);
    BoundaryIsSlot(s, y, Boundary(s, y));
    PointMoves(s, x, y);
    SameReplicas(x, y, s);
    SlotBeside(ShapeOf(s), ShapeOf(g), Skip(|s|, b), b, PointOf(s, x), PointOf(s, y), Boundary(s, y));
    BoundaryIsSlot(g, y, Shifted(Boundary(s, y), b));
  }

  lemma SameReplicas(x: Node, y: Node, s: seq<Node>)
    ensures PointOf(s, x).rep == x.id.replica && PointOf(s, y).rep == y.id.replica
  {
  }

  lemma TwoOrders(s: seq<Node>, i: int, x: Node, j: int, y: Node)
    requires 0 <= i <= j <= |s|
    ensures InsertAt(InsertAt(s, i, x), j + 1, y) == InsertAt(InsertAt(s, j, y), i, x)
  {
    hide InsertAt;
    var a, b := InsertAt(InsertAt(s, i, x), j + 1, y), InsertAt(InsertAt(s, j, y), i, x);
    forall k | 0 <= k < |a| ensures a[k] == b[k] {}
  }

  /** Two well-formed inserts commute if and only if they do not tie. */
  lemma WellFormedCommute(s: seq<Node>, x: Node, y: Node)
    requires Tree(s) && Sorted(s) && WellFormed(s, x) && WellFormed(s, y) && x.id != y.id
    ensures Commute(s, x, y) <==> !Tie(s, x, y)
  {
    hide Tree, Sorted, WellFormed, Boundary, InsertAt;
    if Apart(x, y) {
      Diamond(s, x, y);
    } else {
      BoundaryBeside(s, x, y);
      BoundaryBeside(s, y, x);
      var i, j := Boundary(s, x) + 1, Boundary(s, y) + 1;
      if i < j {
        TwoOrders(s, i, x, j, y);
      } else if j < i {
        TwoOrders(s, j, y, i, x);
      } else {
        assert Integrate(Integrate(s, x), y)[i] == y && Integrate(Integrate(s, y), x)[i] == x;
      }
    }
  }

  // -------------------------------------------------- hanging inserts commute too

  /** Alike but for right anchors, which no later scan looks at. */
  ghost predicate SameOrigins(s: seq<Node>, t: seq<Node>) {
    |s| == |t| && forall i :: 0 <= i < |s| ==> s[i].id == t[i].id && s[i].left == t[i].left
  }

  lemma {:induction false} FindSame(s: seq<Node>, t: seq<Node>, id: OpId)
    requires SameOrigins(s, t)
    ensures Find(s, id) == Find(t, id)
  {
    if |s| > 0 { FindSame(s[..|s| - 1], t[..|t| - 1], id); }
  }

  lemma AnchorsSame(s: seq<Node>, t: seq<Node>, a: Option<OpId>)
    requires SameOrigins(s, t)
    ensures LeftPos(s, a) == LeftPos(t, a) && RightPos(s, a) == RightPos(t, a)
  {
    hide Find;
    if a.Some? { FindSame(s, t, a.value); }
  }

  lemma {:induction false} ScanSame(s: seq<Node>, t: seq<Node>, n: Node, o: int, b: int)
    requires SameOrigins(s, t) && -1 <= b < o <= |s|
    ensures Scan(s, n, o, b) == Scan(t, n, o, b)
    decreases |s| - o
  {
    hide Find, LeftPos, RightPos;
    AnchorsSame(s, t, n.left);
    AnchorsSame(s, t, n.right);
    if o < |s| && o != RightPos(s, n.right) {
      if s[o].left.Some? { FindSame(s, t, s[o].left.value); }
      var b' := if s[o].left == n.left then (if s[o].id.replica < n.id.replica then o else b)
                else if s[o].left.Some? && Find(s, s[o].left.value) <= b then o else b;
      ScanSame(s, t, n, o + 1, b');
    }
  }

  lemma BoundarySame(s: seq<Node>, t: seq<Node>, n: Node)
    requires SameOrigins(s, t)
    ensures Boundary(s, n) == Boundary(t, n)
  {
    AnchorsSame(s, t, n.left);
    ScanSame(s, t, n, LeftPos(s, n.left) + 1, LeftPos(s, n.left));
  }

  lemma RaisedOrigins(s: seq<Node>, k: int, n: Node, n': Node)
    requires 0 <= k <= |s| && n'.id == n.id && n'.left == n.left
    ensures SameOrigins(InsertAt(s, k, n), InsertAt(s, k, n'))
  {
  }

  lemma RaisedFields(s: seq<Node>, n: Node)
    ensures Raised(s, n).id == n.id && Raised(s, n).left == n.left
  {
  }

  /** Integrated one after the other, both go where their raised forms go. */
  lemma RaisedLeg(s: seq<Node>, x: Node, y: Node)
    requires Tree(s) && Sorted(s) && Anchored(s, x) && Anchored(s, y) && x.id != y.id
    requires !Passes(s, x) && !Passes(s, y)
    ensures Boundary(s, x) == Boundary(s, Raised(s, x))
    ensures Boundary(Integrate(s, x), y) == Boundary(Integrate(s, Raised(s, x)), Raised(s, y))
  {
    hide Tree, Sorted, Anchored, WellFormed, Passes, Raised, Boundary, InsertAt, SameOrigins;
    var X, k := Raised(s, x), Boundary(s, x) + 1;
    RaisedWellFormed(s, x);
    RaisedBoundary(s, x);
    RaisedFields(s, x);
    RaisedOrigins(s, k, x, X);
    BoundarySame(Integrate(s, x), Integrate(s, X), y);
    IntegrateGrows(s, X);
    AnchoredStays(s, X, y);
    RaisedBoundary(Integrate(s, X), y);
  }

  function Relabel(n: Node, x: Node, y: Node): Node {
    if n.id == x.id then x else if n.id == y.id then y else n
  }

  function RelabelAll(s: seq<Node>, x: Node, y: Node): (r: seq<Node>)
    ensures |r| == |s|
  {
    seq(|s|, i requires 0 <= i < |s| => Relabel(s[i], x, y))
  }

  lemma RelabelSwap(s: seq<Node>, x: Node, y: Node)
    requires x.id != y.id
    ensures RelabelAll(s, x, y) == RelabelAll(s, y, x)
  {
  }

  lemma RelabelledOne(s: seq<Node>, i: int, j: int, x: Node, y: Node, x': Node, y': Node)
    requires 0 <= i <= |s| && 0 <= j <= |s| + 1
    requires x.id == x'.id != y.id == y'.id && Find(s, x.id) < 0 && Find(s, y.id) < 0
    ensures InsertAt(InsertAt(s, i, x'), j, y') == RelabelAll(InsertAt(InsertAt(s, i, x), j, y), x', y')
  {
    hide InsertAt, Find;
    var a, r := InsertAt(InsertAt(s, i, x'), j, y'), RelabelAll(InsertAt(InsertAt(s, i, x), j, y), x', y');
    forall p | 0 <= p < |s| + 2 ensures a[p] == r[p] {
      var q := if p < j then p else p - 1;
      if p != j && q != i { assert InsertAt(InsertAt(s, i, x), j, y)[p] == s[if q < i then q else q - 1]; }
    }
  }

  /** Sequences that differ in two inserted items only by their right anchors. */
  lemma Relabelled(s: seq<Node>, i: int, j: int, k: int, l: int, x: Node, y: Node, x': Node, y': Node)
    requires 0 <= i <= |s| && 0 <= j <= |s| + 1 && 0 <= k <= |s| && 0 <= l <= |s| + 1
    requires x.id == x'.id != y.id == y'.id && Find(s, x.id) < 0 && Find(s, y.id) < 0
    requires InsertAt(InsertAt(s, i, x), j, y) == InsertAt(InsertAt(s, k, y), l, x)
    ensures InsertAt(InsertAt(s, i, x'), j, y') == InsertAt(InsertAt(s, k, y'), l, x')
  {
    hide RelabelAll, Find;
    RelabelledOne(s, i, j, x, y, x', y');
    RelabelledOne(s, k, l, y, x, y', x');
    RelabelSwap(InsertAt(InsertAt(s, i, x), j, y), x', y');
  }

  lemma AnchoredNew(s: seq<Node>, n: Node)
    requires Anchored(s, n)
    ensures Find(s, n.id) < 0
  {
  }

  lemma CommuteIs(s: seq<Node>, x: Node, y: Node, i: int, j: int, k: int, l: int)
    requires i == Boundary(s, x) + 1 && j == Boundary(Integrate(s, x), y) + 1
    requires k == Boundary(s, y) + 1 && l == Boundary(Integrate(s, y), x) + 1
    ensures Commute(s, x, y) <==> InsertAt(InsertAt(s, i, x), j, y) == InsertAt(InsertAt(s, k, y), l, x)
  {
    hide Boundary, InsertAt;
  }

  lemma RaisedCommute(s: seq<Node>, x: Node, y: Node)
    requires Tree(s) && Sorted(s) && Anchored(s, x) && Anchored(s, y) && x.id != y.id
    requires !Passes(s, x) && !Passes(s, y)
    ensures Commute(s, x, y) <==> Commute(s, Raised(s, x), Raised(s, y))
  {
    AnchoredNew(s, x);
    AnchoredNew(s, y);
    hide Tree, Sorted, Passes, Anchored, Raised, Boundary, InsertAt, Integrate, Commute, Find;
    var x', y' := Raised(s, x), Raised(s, y);
    RaisedFields(s, x);
    RaisedFields(s, y);
    RaisedLeg(s, x, y);
    RaisedLeg(s, y, x);
    var i, j := Boundary(s, x) + 1, Boundary(Integrate(s, x), y) + 1;
    var k, l := Boundary(s, y) + 1, Boundary(Integrate(s, y), x) + 1;
    CommuteIs(s, x, y, i, j, k, l);
    CommuteIs(s, x', y', i, j, k, l);
    if Commute(s, x, y) {
      Relabelled(s, i, j, k, l, x, y, x', y');
    }
    if Commute(s, x', y') {
      Relabelled(s, i, j, k, l, x', y', x, y);
    }
  }

  /** Two inserts that do not pass, hanging or not, commute if and only if they do
      not tie. */
  lemma AnchoredCommute(s: seq<Node>, x: Node, y: Node)
    requires Tree(s) && Sorted(s) && Anchored(s, x) && Anchored(s, y) && x.id != y.id
    requires !Passes(s, x) && !Passes(s, y)
    ensures Commute(s, x, y) <==> !Tie(s, x, y)
  {
    hide Tree, Sorted, Passes, Raised, Anchored, WellFormed, Commute;
    RaisedWellFormed(s, x);
    RaisedWellFormed(s, y);
    RaisedFields(s, x);
    RaisedFields(s, y);
    RaisedBoundary(s, x);
    RaisedBoundary(s, y);
    RaisedCommute(s, x, y);
    WellFormedCommute(s, Raised(s, x), Raised(s, y));
  }

  // ---------------------------------------------------- a passing insert separates

  /** Greater than every replica in the stream. */
  function TopReplica(s: seq<Node>): (r: nat)
    ensures forall i :: 0 <= i < |s| ==> s[i].id.replica < r
  {
    if |s| == 0 then 0
    else
      var r := TopReplica(s[..|s| - 1]);
      assert forall i :: 0 <= i < |s| - 1 ==> s[i] == s[..|s| - 1][i];
      if s[|s| - 1].id.replica < r then r else s[|s| - 1].id.replica + 1
  }

  /** An edit right behind the sibling that is passed, of a replica above all others. */
  ghost function Witness(s: seq<Node>, n: Node): Node
    requires 0 <= OverRight(s, n) < |s|
  {
    Node(OpId(TopReplica(s) + n.id.replica + 1, 1), Some(s[OverRight(s, n)].id), None)
  }

  lemma WitnessFits(s: seq<Node>, n: Node)
    requires Tree(s) && Anchored(s, n) && Passes(s, n)
    ensures var y := Witness(s, n);
            && WellFormed(s, y) && y.id.replica != n.id.replica && y.left != n.left
            && LeftPos(s, y.left) == OverRight(s, n) && RightPos(s, y.right) == |s|
            && LeftPos(s, n.left) < OverRight(s, n) < RightPos(s, n.right) < |s|
  {
    var l, r, e := LeftPos(s, n.left), RightPos(s, n.right), OverRight(s, n);
    FindAt(s, e);
    assert r < |s|;
    OverSubtree(ShapeOf(s).lp, l, r);
  }

  /** The scan stops no later than at an item that hangs from before its left anchor. */
  lemma {:induction false} ScanStopsAt(s: seq<Node>, n: Node, o: int, b: int, z: int)
    requires -1 <= b < o <= z < |s| && s[z].left != n.left
    requires s[z].left.Some? ==> Find(s, s[z].left.value) <= LeftPos(s, n.left)
    ensures Scan(s, n, o, b) < z
    decreases z - o
  {
    hide Find;
    if o < z && o != RightPos(s, n.right) {
      if s[o].left == n.left {
        ScanStopsAt(s, n, o + 1, if s[o].id.replica < n.id.replica then o else b, z);
      } else if s[o].left.Some? && LeftPos(s, n.left) < Find(s, s[o].left.value) <= o {
        ScanStopsAt(s, n, o + 1, if Find(s, s[o].left.value) <= b then o else b, z);
      }
    }
  }

  /** Arriving first, the edit goes behind the right anchor ... */
  lemma WitnessBehind(s: seq<Node>, n: Node)
    requires Tree(s) && Anchored(s, n) && Passes(s, n)
    ensures RightPos(s, n.right) <= Boundary(s, Witness(s, n))
  {
    WitnessFits(s, n);
    var y, sh, e, r := Witness(s, n), ShapeOf(s), OverRight(s, n), RightPos(s, n.right);
    var b := Boundary(s, y);
    BoundaryIsSlot(s, y, b);
    OverSubtree(sh.lp, LeftPos(s, n.left), r);
    OverSubtree(sh.lp, e, r);
    var c := Over(sh.lp, e, r);
    assert sh.lp[c] == e && sh.rep[c] < y.id.replica;
    assert c <= b;
    assert forall j :: c < j <= r ==> e < sh.lp[j];
  }

  /** ... arriving second, before it. */
  lemma WitnessBefore(s: seq<Node>, n: Node)
    requires Tree(s) && Anchored(s, n) && Passes(s, n)
    ensures Integrate(s, n)[RightPos(s, n.right)] == n
    ensures Boundary(Integrate(s, n), Witness(s, n)) < RightPos(s, n.right)
  {
    WitnessFits(s, n);
    PassesBoundary(s, n);
    TreeUnique(s);
    IntegrateUnique(s, n);
    var u, y, e, r, l := Integrate(s, n), Witness(s, n), OverRight(s, n), RightPos(s, n.right), LeftPos(s, n.left);
    hide Tree, Unique, Passes, Boundary, Witness, OverRight;
    assert u[e] == s[e] && u[r] == n;
    FoundAt(s, u, y.left, e);
    if n.left.Some? { FoundAt(s, u, n.left, l); }
    BoundaryStopsAt(u, y, r);
  }

  lemma FoundAt(s: seq<Node>, u: seq<Node>, a: Option<OpId>, i: int)
    requires Unique(u) && a.Some? && 0 <= i < |s| && i < |u| && u[i] == s[i] && Find(s, a.value) == i
    ensures Find(u, a.value) == i
  {
    FindAt(u, i);
  }

  lemma BoundaryStopsAt(s: seq<Node>, n: Node, z: int)
    requires LeftPos(s, n.left) < z < |s| && s[z].left != n.left
    requires s[z].left.Some? ==> Find(s, s[z].left.value) <= LeftPos(s, n.left)
    ensures Boundary(s, n) < z
  {
    ScanStopsAt(s, n, LeftPos(s, n.left) + 1, LeftPos(s, n.left), z);
  }

  lemma PassesSeparates(s: seq<Node>, n: Node)
    requires Tree(s) && Sorted(s) && Anchored(s, n) && Passes(s, n)
    ensures var y := Witness(s, n); WellFormed(s, y) && y.id.replica != n.id.replica && !Commute(s, n, y)
  {
    WitnessFits(s, n);
    WitnessBehind(s, n);
    WitnessBefore(s, n);
    TreeUnique(s);
    var y, r := Witness(s, n), RightPos(s, n.right);
    var t := Integrate(s, y);
    IntegrateGrows(s, y);
    IntegrateUnique(s, y);
    AnchoredStays(s, y, n);
    hide Tree, Unique, Sorted, Passes, Boundary, Witness, OverRight, WellFormed;
    FoundAt(s, t, n.right, r);
    PassesBoundary(t, n);
    assert Integrate(t, n)[r + 1] == t[r] == s[r];
    assert Integrate(Integrate(s, n), y)[r + 1] == n;
  }

  /** An insert commutes with every well-formed insert of the other replicas if and
      only if it does not pass the sibling over its right anchor. */
  lemma SeparatesExactly(s: seq<Node>, n: Node)
    requires Tree(s) && Sorted(s) && Anchored(s, n)
    ensures (forall y :: WellFormed(s, y) && y.id.replica != n.id.replica ==> Commute(s, n, y)) <==> !Passes(s, n)
  {
    hide Tree, Sorted, Anchored, WellFormed, Passes, Commute, Witness;
    if Passes(s, n) {
      PassesSeparates(s, n);
    } else {
      forall y | WellFormed(s, y) && y.id.replica != n.id.replica ensures Commute(s, n, y) {
        WellFormedAnchored(s, y);
        RaisedSame(s, y);
        AnchoredCommute(s, n, y);
      }
    }
  }

  lemma WellFormedAnchored(s: seq<Node>, n: Node)
    requires WellFormed(s, n)
    ensures Anchored(s, n)
  {
  }
}
