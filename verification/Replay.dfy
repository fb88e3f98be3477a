/** Order independence of inserts: the diamond, and convergence of every valid
    delivery order of a run. */
module Replay {
  import opened Types
  import opened Order
  import P = Positions

  // ------------------------------------------------------------------- rivals

  ghost predicate Rivals(g: seq<Node>, i: int, j: int) {
    P.Rivals(ShapeOf(g), i, j)
  }

  /** A fresh arrival is strictly above every rival standing before it ... */
  lemma ArrivalAbove(s: seq<Node>, n: Node, i: int)
    requires Tree(s) && Sorted(s) && WellFormed(s, n)
    requires Rivals(Integrate(s, n), i, Boundary(s, n) + 1)
    ensures Integrate(s, n)[i].id.replica < n.id.replica
  {
    var x := Boundary(s, n) + 1;
    IntegrateExtends(s, n);
    P.ExtendsRivalBefore(ShapeOf(s), ShapeOf(Integrate(s, n)), Skip(|s|, x), x, PointOf(s, n), i);
  }

  /** ... and not above any rival standing after it, which is a child of the same
      anchor between the two anchors. */
  lemma ArrivalBelow(s: seq<Node>, n: Node, j: int)
    requires Tree(s) && Sorted(s) && WellFormed(s, n)
    requires Rivals(Integrate(s, n), Boundary(s, n) + 1, j)
    ensures n.id.replica <= Integrate(s, n)[j].id.replica
    ensures Boundary(s, n) < j - 1 < RightPos(s, n.right)
  {
    var x := Boundary(s, n) + 1;
    IntegrateExtends(s, n);
    P.ExtendsRivalAfter(ShapeOf(s), ShapeOf(Integrate(s, n)), Skip(|s|, x), x, PointOf(s, n), j);
  }

  /** A rivalry between old items was there before. */
  lemma ArrivalOld(s: seq<Node>, n: Node, i: int, j: int)
    requires Tree(s) && WellFormed(s, n)
    requires Rivals(Integrate(s, n), i, j) && i != Boundary(s, n) + 1 && j != Boundary(s, n) + 1
    ensures var x := Boundary(s, n) + 1;
            Rivals(s, if i < x then i else i - 1, if j < x then j else j - 1)
  {
    IntegrateExtends(s, n);
    var x := Boundary(s, n) + 1;
    P.ExtendsRivalOld(ShapeOf(s), ShapeOf(Integrate(s, n)), Skip(|s|, x), x, PointOf(s, n), i, j);
  }

  // ------------------------------------------------------------------ diamond

  /** Another item's arrival moves an anchor's position along, and nothing else. */
  lemma AnchorMoves(s: seq<Node>, x: Node, a: Option<OpId>)
    requires Unique(s) && Find(s, x.id) < 0 && Has(s, a)
    ensures var g, m := Integrate(s, x), Skip(|s|, Boundary(s, x) + 1);
            Has(g, a) && LeftPos(g, a) == P.Up(m, |g|, LeftPos(s, a)) && RightPos(g, a) == P.Up(m, |g|, RightPos(s, a))
  {
    hide Unique, Find, Has, LeftPos, RightPos, Boundary, Skip, Part;
    IntegrateKeeps(s, x);
    IntegrateUnique(s, x);
    PartAnchors(s, Integrate(s, x), Skip(|s|, Boundary(s, x) + 1), a);
  }

  lemma StaysAbsent(s: seq<Node>, x: Node, id: OpId)
    requires Find(s, id) < 0 && x.id != id
    ensures Find(Integrate(s, x), id) < 0
  {
    hide Boundary;
    var g := Integrate(s, x);
    assert forall j :: 0 <= j < |g| ==> g[j].id != id;
  }

  /** The item at an old position is found at its new one. */
  lemma ItemMoves(s: seq<Node>, x: Node, r: int)
    requires 0 <= r < |s|
    ensures var g, m := Integrate(s, x), Skip(|s|, Boundary(s, x) + 1);
            P.Up(m, |g|, r) < |g| && g[P.Up(m, |g|, r)] == s[r]
  {
    hide Boundary;
  }

  lemma NothingMoves(s: seq<Node>, x: Node)
    ensures P.Up(Skip(|s|, Boundary(s, x) + 1), |Integrate(s, x)|, |s|) == |Integrate(s, x)|
    ensures P.Increasing(Skip(|s|, Boundary(s, x) + 1), |Integrate(s, x)|)
  {
    hide Boundary;
  }

  /** An insert stays well formed when another one arrives first. */
  lemma WellFormedStays(s: seq<Node>, x: Node, y: Node)
    requires Tree(s) && WellFormed(s, x) && WellFormed(s, y) && x.id != y.id
    ensures WellFormed(Integrate(s, x), y)
  {
    WellFormedPoint(s, x);
    WellFormedPoint(s, y);
    var g, m := Integrate(s, x), Skip(|s|, Boundary(s, x) + 1);
    var l, r := LeftPos(s, y.left), RightPos(s, y.right);
    RightAnchorLeft(s, y);
    hide Tree, Unique, Closed, Find, Has, LeftPos, RightPos, Boundary, Skip, Integrate, P.Up, P.Increasing;
    AnchorMoves(s, x, y.left);
    AnchorMoves(s, x, y.right);
    StaysAbsent(s, x, y.id);
    NothingMoves(s, x);
    P.UpMonotone(m, |g|, l, r);
    if r < |s| {
      ItemMoves(s, x, r);
      AnchorMoves(s, x, s[r].left);
      P.UpMonotone(m, |g|, LeftPos(s, s[r].left), l);
    }
  }

  lemma RightAnchorLeft(s: seq<Node>, y: Node)
    requires Closed(s) && WellFormed(s, y)
    ensures var r := RightPos(s, y.right);
            r < |s| ==> r >= 0 && Has(s, s[r].left) && -1 <= LeftPos(s, s[r].left) <= LeftPos(s, y.left)
  {
  }

  lemma FullIncreasing(m: seq<int>, k: int)
    requires P.Increasing(m, |m|) && 0 <= k < |m|
    ensures m[k] == k
  {
    IncreasingAtLeast(m, |m|, k);
    IncreasingAtMost(m, |m|, k);
  }

  lemma {:induction false} IncreasingAtLeast(m: seq<int>, top: int, k: int)
    requires P.Increasing(m, top) && 0 <= k < |m|
    ensures k <= m[k]
  {
    if k > 0 { IncreasingAtLeast(m, top, k - 1); }
  }

  lemma {:induction false} IncreasingAtMost(m: seq<int>, top: int, k: int)
    requires P.Increasing(m, top) && 0 <= k < |m|
    ensures m[k] <= top - (|m| - k)
    decreases |m| - k
  {
    if k + 1 < |m| { IncreasingAtMost(m, top, k + 1); }
  }

  /** A part as long as the whole is the whole. */
  lemma FullPart(t: seq<Node>, g: seq<Node>, m: seq<int>)
    requires Part(t, g, m) && |t| == |g|
    ensures t == g
  {
    forall k | 0 <= k < |t| ensures t[k] == g[k] {
      FullIncreasing(m, k);
    }
  }

  /** The first leg: the later of two arrivals, integrated without the other. */
  lemma DiamondLeg(s: seq<Node>, g1: seq<Node>, y: Node, m: seq<int>) returns (k: int)
    requires Tree(g1) && Sorted(g1) && WellFormed(g1, y)
    requires Closed(s) && Has(s, y.left) && Has(s, y.right) && Part(s, Integrate(g1, y), m)
    requires Boundary(g1, y) + 1 !in m
    ensures P.Gap(m, Boundary(g1, y) + 1, k)
    ensures Part(Integrate(s, y), Integrate(g1, y), InsertAt(m, k, Boundary(g1, y) + 1))
    ensures Closed(Integrate(s, y))
  {
    var g, atY := Integrate(g1, y), Boundary(g1, y) + 1;
    IntegrateGrows(g1, y);
    forall k | 0 <= k < |m| && Rivals(g, m[k], atY) ensures ShapeOf(g).rep[m[k]] < ShapeOf(g).rep[atY] {
      ArrivalAbove(g1, y, m[k]);
    }
    k := Project(s, g, m, atY);
  }

  /** The position of the earlier of two arrivals, after the later one. */
  ghost function EarlierAt(s: seq<Node>, x: Node, y: Node): int {
    var atX, atY := Boundary(s, x) + 1, Boundary(Integrate(s, x), y) + 1;
    if atX < atY then atX else atX + 1
  }

  lemma BothGrow(s: seq<Node>, x: Node, y: Node)
    requires Tree(s) && Sorted(s) && WellFormed(s, x) && WellFormed(s, y) && x.id != y.id
    ensures var g1 := Integrate(s, x);
            && Tree(g1) && Sorted(g1) && WellFormed(g1, y)
            && Tree(Integrate(g1, y)) && Sorted(Integrate(g1, y))
  {
    WellFormedStays(s, x, y);
    IntegrateGrows(s, x);
    IntegrateGrows(Integrate(s, x), y);
  }

  lemma BothArrive(s: seq<Node>, x: Node, y: Node) returns (m: seq<int>)
    ensures var g1 := Integrate(s, x); var g := Integrate(g1, y);
            && Part(s, g, m) && Boundary(g1, y) + 1 !in m && EarlierAt(s, x, y) !in m
            && 0 <= EarlierAt(s, x, y) < |g| && g[EarlierAt(s, x, y)] == x
  {
    hide Part, Boundary;
    m := TwoInsertions(s, Boundary(s, x) + 1, x, Boundary(Integrate(s, x), y) + 1, y);
  }

  /** Where place `k` is after an insertion at `i`. */
  function Past(k: int, i: int): int {
    if k < i then k else k + 1
  }

  lemma InsertedPast(s: seq<Node>, i: int, x: Node, k: int)
    requires 0 <= i <= |s| && 0 <= k < |s|
    ensures 0 <= Past(k, i) < |InsertAt(s, i, x)| && InsertAt(s, i, x)[Past(k, i)] == s[k]
  {
  }

  lemma TwoInsertions(s: seq<Node>, i: int, x: Node, j: int, y: Node) returns (m: seq<int>)
    requires 0 <= i <= |s| && 0 <= j <= |s| + 1
    ensures Part(s, InsertAt(InsertAt(s, i, x), j, y), m)
    ensures j !in m && Past(i, j) !in m
  {
    hide InsertAt;
    var g1 := InsertAt(s, i, x);
    m := seq(|s|, k => Past(Past(k, i), j));
    forall k | 0 <= k < |s| ensures 0 <= m[k] < |s| + 2 && s[k] == InsertAt(g1, j, y)[m[k]] {
      InsertedPast(s, i, x, k);
      InsertedPast(g1, j, y, Past(k, i));
    }
  }

  /** Inserts of different replicas, or behind different left anchors. */
  predicate Apart(x: Node, y: Node) {
    x.id != y.id && (x.id.replica != y.id.replica || x.left != y.left)
  }

  /** Diamond: two inserts of different replicas, or behind different anchors, both
      enabled, integrate to the same stream in either order. */
  lemma Diamond(s: seq<Node>, x: Node, y: Node)
    requires Tree(s) && Sorted(s) && WellFormed(s, x) && WellFormed(s, y)
    requires Apart(x, y)
    ensures Integrate(Integrate(s, x), y) == Integrate(Integrate(s, y), x)
  {
    BothGrow(s, x, y);
    DiamondRivals(s, x, y);
    var m := BothArrive(s, x, y);
    DiamondLegs(s, Integrate(s, x), x, y, m, EarlierAt(s, x, y));
  }

  /** Both legs: first the later arrival without the earlier one, then the latter. */
  lemma DiamondLegs(s: seq<Node>, g1: seq<Node>, x: Node, y: Node, m: seq<int>, px: int)
    requires Tree(g1) && Sorted(g1) && WellFormed(g1, y)
    requires Tree(Integrate(g1, y)) && Sorted(Integrate(g1, y))
    requires Closed(s) && Has(s, y.left) && Has(s, y.right) && Has(s, x.left) && Has(s, x.right)
    requires Part(s, Integrate(g1, y), m) && |g1| == |s| + 1
    requires 0 <= px <= |g1| && px !in m && px != Boundary(g1, y) + 1 && Integrate(g1, y)[px] == x
    requires Boundary(g1, y) + 1 !in m
    requires forall i :: Rivals(Integrate(g1, y), i, px) ==> Integrate(g1, y)[i].id.replica < x.id.replica
    ensures Integrate(Integrate(s, y), x) == Integrate(g1, y)
  {
    hide Tree, Sorted, Closed, WellFormed, Has, Rivals, Boundary, P.Gap, P.Increasing;
    var k := DiamondLeg(s, g1, y, m);
    HasStays(s, Boundary(s, y) + 1, y, x.left);
    HasStays(s, Boundary(s, y) + 1, y, x.right);
    LastPiece(Integrate(s, y), Integrate(g1, y), InsertAt(m, k, Boundary(g1, y) + 1), px);
  }

  /** The only missing item completes the whole. */
  lemma LastPiece(t: seq<Node>, g: seq<Node>, m: seq<int>, x: int)
    requires Part(t, g, m) && Tree(g) && Sorted(g) && Closed(t) && |g| == |t| + 1
    requires 0 <= x < |g| && x !in m && Has(t, g[x].left) && Has(t, g[x].right)
    requires forall i :: Rivals(g, i, x) ==> g[i].id.replica < g[x].id.replica
    ensures Integrate(t, g[x]) == g
  {
    var k := Project(t, g, m, x);
    FullPart(Integrate(t, g[x]), g, InsertAt(m, k, x));
  }

  lemma DiamondRivals(s: seq<Node>, x: Node, y: Node)
    requires Tree(s) && Sorted(s) && WellFormed(s, x) && WellFormed(Integrate(s, x), y)
    requires Tree(Integrate(s, x)) && Tree(Integrate(Integrate(s, x), y)) && Sorted(Integrate(Integrate(s, x), y))
    requires Apart(x, y)
    ensures var g1 := Integrate(s, x); var g := Integrate(g1, y);
            forall i :: Rivals(g, i, EarlierAt(s, x, y)) ==>
              g[i].id.replica < x.id.replica
  {
    var g1 := Integrate(s, x);
    var px := EarlierAt(s, x, y);
    forall i | Rivals(Integrate(g1, y), i, px) ensures Integrate(g1, y)[i].id.replica < x.id.replica {
      DiamondRival(s, x, y, i);
    }
  }

  /** Whatever rivals the earlier arrival from before is strictly below it. */
  lemma DiamondRival(s: seq<Node>, x: Node, y: Node, i: int)
    requires Tree(s) && Sorted(s) && WellFormed(s, x) && WellFormed(Integrate(s, x), y)
    requires Tree(Integrate(s, x)) && Tree(Integrate(Integrate(s, x), y)) && Sorted(Integrate(Integrate(s, x), y))
    requires Apart(x, y)
    requires Rivals(Integrate(Integrate(s, x), y), i, EarlierAt(s, x, y))
    ensures Integrate(Integrate(s, x), y)[i].id.replica < x.id.replica
  {
    var g1 := Integrate(s, x);
    var atY, px := Boundary(g1, y) + 1, EarlierAt(s, x, y);
    hide Tree, Sorted, WellFormed, Boundary, EarlierAt;
    if i == atY {
      EarlierThere(s, x, y);
      RivalsApart(Integrate(g1, y), i, px);
    } else {
      EarlierThere(s, x, y);
      ArrivalOld(g1, y, i, px);
      ArrivalAbove(s, x, if i < atY then i else i - 1);
    }
  }

  lemma EarlierThere(s: seq<Node>, x: Node, y: Node)
    ensures var g1 := Integrate(s, x); var g, px := Integrate(g1, y), EarlierAt(s, x, y);
            && 0 <= px < |g| && g[px] == x && g[Boundary(g1, y) + 1] == y
            && (if px < Boundary(g1, y) + 1 then px else px - 1) == Boundary(s, x) + 1
  {
    hide Boundary;
  }

  /** Rivals that are apart are of different replicas. */
  lemma RivalsApart(g: seq<Node>, i: int, j: int)
    requires Tree(g) && Sorted(g) && Rivals(g, i, j) && Apart(g[j], g[i])
    ensures g[i].id.replica < g[j].id.replica
  {
    assert ShapeOf(g).rep[i] <= ShapeOf(g).rep[j];
    SameAnchor(g, g[i].left, g[j].left);
  }

  // ------------------------------------------------------ whole-run convergence

  function Last<T>(s: seq<T>): T
    requires |s| > 0
  {
    s[|s| - 1]
  }

  function Front<T>(s: seq<T>): seq<T>
    requires |s| > 0
  {
    s[..|s| - 1]
  }

  /** Integrating a run of inserts one after the other. */
  function Replayed(run: seq<Node>): (s: seq<Node>)
    ensures |s| == |run|
  {
    if |run| == 0 then [] else Integrate(Replayed(Front(run)), Last(run))
  }

  lemma {:induction false} ReplayedNodes(run: seq<Node>, n: Node)
    ensures n in Replayed(run) <==> n in run
  {
    hide Integrate;
    if |run| > 0 {
      ReplayedNodes(Front(run), n);
      IntegrateNodes(Replayed(Front(run)), Last(run), n);
      assert run == Front(run) + [Last(run)];
    }
  }

  lemma IntegrateNodes(s: seq<Node>, n: Node, x: Node)
    ensures x in Integrate(s, n) <==> x == n || x in s
  {
    var k := Boundary(s, n) + 1;
    assert s == s[..k] + s[k..];
  }

  /** Every earlier item of the same replica has a smaller counter. */
  ghost predicate Fresh(s: seq<Node>, n: Node) {
    forall i :: 0 <= i < |s| && s[i].id.replica == n.id.replica ==> s[i].id.counter < n.id.counter
  }

  /** A run of well-formed inserts, each replica's counters increasing. */
  ghost predicate ValidRun(run: seq<Node>) {
    |run| == 0 ||
    (ValidRun(Front(run)) && WellFormed(Replayed(Front(run)), Last(run)) && Fresh(Replayed(Front(run)), Last(run)))
  }

  /** Rival siblings stand in order of replica, a replica's later ones first. */
  ghost predicate Keyed(g: seq<Node>) {
    forall i, j :: Rivals(g, i, j) ==>
      || g[i].id.replica < g[j].id.replica
      || (g[i].id.replica == g[j].id.replica && g[j].id.counter < g[i].id.counter)
  }

  lemma KeyedIsSorted(g: seq<Node>)
    requires Keyed(g)
    ensures Sorted(g)
  {
    forall i, j | P.Rivals(ShapeOf(g), i, j) ensures ShapeOf(g).rep[i] <= ShapeOf(g).rep[j] {
      assert Rivals(g, i, j);
    }
  }

  lemma KeyedGrows(s: seq<Node>, n: Node)
    requires Tree(s) && Keyed(s) && WellFormed(s, n) && Fresh(s, n)
    ensures Keyed(Integrate(s, n))
  {
    KeyedIsSorted(s);
    var g, x := Integrate(s, n), Boundary(s, n) + 1;
    forall i, j | Rivals(g, i, j)
      ensures g[i].id.replica < g[j].id.replica ||
              (g[i].id.replica == g[j].id.replica && g[j].id.counter < g[i].id.counter)
    {
      if j == x {
        ArrivalAbove(s, n, i);
      } else if i == x {
        ArrivalBelow(s, n, j);
        assert g[j] == s[j - 1];
      } else {
        ArrivalOld(s, n, i, j);
      }
    }
  }

  /** Every valid run keeps the tree: no crossing, every item between its anchors. */
  lemma {:induction false} RunKeepsTree(run: seq<Node>)
    requires ValidRun(run)
    ensures Tree(Replayed(run)) && Keyed(Replayed(run))
  {
    if |run| > 0 {
      var s := Replayed(Front(run));
      RunKeepsTree(Front(run));
      KeyedIsSorted(s);
      IntegrateGrows(s, Last(run));
      KeyedGrows(s, Last(run));
    }
  }

  /** A delivery order in which every insert finds its anchors and each replica's
      inserts come in the order it made them. */
  ghost predicate Deliverable(run: seq<Node>) {
    && (forall k :: 0 <= k < |run| ==> Has(Replayed(run[..k]), run[k].left) && Has(Replayed(run[..k]), run[k].right))
    && (forall i, j :: 0 <= i < j < |run| && run[i].id.replica == run[j].id.replica ==>
          run[i].id.counter < run[j].id.counter)
  }

  /** What is already integrated: other inserts, of the same replica only earlier ones. */
  lemma Delivered(other: seq<Node>, k: int, i: int)
    requires Deliverable(other) && 0 <= k < |other| && 0 <= i < k
    ensures var n := Replayed(other[..k])[i];
            n != other[k] && (n.id.replica == other[k].id.replica ==> n.id.counter < other[k].id.counter)
  {
    var n := Replayed(other[..k])[i];
    ReplayedNodes(other[..k], n);
    var j :| 0 <= j < k && other[..k][j] == n;
    assert other[j] == n;
  }

  /** One delivery: a part of the final stream grows to a larger part of it. */
  lemma DeliveryStep(g: seq<Node>, other: seq<Node>, k: int, m: seq<int>) returns (m': seq<int>)
    requires Tree(g) && Keyed(g) && Deliverable(other) && 0 <= k < |other| && other[k] in g
    requires Part(Replayed(other[..k]), g, m) && Closed(Replayed(other[..k]))
    ensures Part(Replayed(other[..k + 1]), g, m') && Closed(Replayed(other[..k + 1]))
  {
    var t, n := Replayed(other[..k]), other[k];
    var x :| 0 <= x < |g| && g[x] == n;
    forall i | 0 <= i < |m| ensures m[i] != x && (Rivals(g, m[i], x) ==> g[m[i]].id.replica < n.id.replica) {
      Delivered(other, k, i);
      assert t[i] == g[m[i]];
    }
    m' := DeliveryAt(t, g, m, x);
    ReplayedNext(other, k);
  }

  lemma ReplayedNext(run: seq<Node>, k: int)
    requires 0 <= k < |run|
    ensures Replayed(run[..k + 1]) == Integrate(Replayed(run[..k]), run[k])
  {
    assert Front(run[..k + 1]) == run[..k];
  }

  lemma DeliveryAt(t: seq<Node>, g: seq<Node>, m: seq<int>, x: int) returns (m': seq<int>)
    requires Tree(g) && Keyed(g) && Part(t, g, m) && Closed(t)
    requires 0 <= x < |g| && Has(t, g[x].left) && Has(t, g[x].right)
    requires forall i :: 0 <= i < |m| ==> m[i] != x && (Rivals(g, m[i], x) ==> g[m[i]].id.replica < g[x].id.replica)
    ensures Part(Integrate(t, g[x]), g, m') && Closed(Integrate(t, g[x]))
  {
    KeyedIsSorted(g);
    var p := Project(t, g, m, x);
    m' := InsertAt(m, p, x);
  }

  lemma {:induction false} DeliveriesEmbed(g: seq<Node>, other: seq<Node>, k: int) returns (m: seq<int>)
    requires Tree(g) && Keyed(g) && Deliverable(other) && 0 <= k <= |other|
    requires forall n :: n in other ==> n in g
    ensures Part(Replayed(other[..k]), g, m) && Closed(Replayed(other[..k]))
  {
    if k == 0 {
      m := [];
    } else {
      m := DeliveriesEmbed(g, other, k - 1);
      m := DeliveryStep(g, other, k - 1, m);
    }
  }

  /** Convergence: every deliverable order of a valid run's inserts ends in the
      identical stream. */
  lemma AnyOrderConverges(run: seq<Node>, other: seq<Node>)
    requires ValidRun(run) && Deliverable(other) && multiset(run) == multiset(other)
    ensures Replayed(other) == Replayed(run)
  {
    hide ValidRun, Deliverable, Tree, Sorted, Keyed, Replayed;
    var g := Replayed(run);
    RunKeepsTree(run);
    forall n | n in other ensures n in g {
      assert n in multiset(other);
      ReplayedNodes(run, n);
    }
    var m := DeliveriesEmbed(g, other, |other|);
    assert other[..|other|] == other;
    assert |multiset(run)| == |run| && |multiset(other)| == |other|;
    FullPart(Replayed(other), g, m);
  }
}
