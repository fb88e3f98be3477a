/** Ordering of items by identity and anchors: the integration of an insert, the
    invariants it keeps, the projection lemma, and order independence. */
module Order {
  import opened Types
  import P = Positions

  /** What ordering depends on: an item's identity and its two anchors. */
  datatype Node = Node(id: OpId, left: Option<OpId>, right: Option<OpId>)

  // ---------------------------------------------------------------- positions

  /** Index lookup: the position of `id`, or -1. */
  function Find(s: seq<Node>, id: OpId): (i: int)
    ensures -1 <= i < |s|
    ensures i >= 0 ==> s[i].id == id
    ensures i < 0 ==> forall j :: 0 <= j < |s| ==> s[j].id != id
  {
    if |s| == 0 then -1
    else if s[|s| - 1].id == id then |s| - 1
    else Find(s[..|s| - 1], id)
  }

  /** A missing left anchor is the start of the sequence. */
  function LeftPos(s: seq<Node>, a: Option<OpId>): (p: int)
    ensures -1 <= p < |s|
  {
    if a.None? then -1 else Find(s, a.value)
  }

  /** A missing right anchor is the end of the sequence. */
  function RightPos(s: seq<Node>, a: Option<OpId>): (p: int)
    ensures -1 <= p <= |s|
  {
    if a.None? then |s| else Find(s, a.value)
  }

  /** The anchor is a boundary or refers to a present item. */
  predicate Has(s: seq<Node>, a: Option<OpId>) {
    a.None? || Find(s, a.value) >= 0
  }

  ghost predicate Unique(s: seq<Node>) {
    forall i, j :: 0 <= i < j < |s| ==> s[i].id != s[j].id
  }

  ghost predicate Closed(s: seq<Node>) {
    forall i :: 0 <= i < |s| ==> Has(s, s[i].left) && Has(s, s[i].right)
  }

  ghost function ShapeOf(s: seq<Node>): (p: P.Shape)
    ensures p.Proper() && |p.lp| == |s|
  {
    P.Shape(seq(|s|, i requires 0 <= i < |s| => LeftPos(s, s[i].left)),
            seq(|s|, i requires 0 <= i < |s| => RightPos(s, s[i].right)),
            seq(|s|, i requires 0 <= i < |s| => s[i].id.replica))
  }

  ghost function PointOf(s: seq<Node>, n: Node): P.Point {
    P.Point(LeftPos(s, n.left), RightPos(s, n.right), n.id.replica)
  }

  /** The invariant of every reachable stream. */
  ghost predicate Tree(s: seq<Node>) {
    Unique(s) && Closed(s) && P.Tree(ShapeOf(s))
  }

  lemma TreeUnique(s: seq<Node>)
    requires Tree(s)
    ensures Unique(s)
  {
  }

  ghost predicate Sorted(s: seq<Node>) {
    P.Sorted(ShapeOf(s))
  }

  /** An insert whose anchors are present in the right order, the right one not
      hanging deeper than the left one. */
  ghost predicate WellFormed(s: seq<Node>, n: Node) {
    && Find(s, n.id) < 0
    && Has(s, n.left) && Has(s, n.right)
    && var l, r := LeftPos(s, n.left), RightPos(s, n.right);
    && l < r
    && (r < |s| ==> LeftPos(s, s[r].left) <= l)
  }

  lemma FindAt(s: seq<Node>, i: int)
    requires Unique(s) && 0 <= i < |s|
    ensures Find(s, s[i].id) == i
  {
    var k := Find(s, s[i].id);
    assert k >= 0;
  }

  // ---------------------------------------------------------- the conflict scan

  /** The scan from position `o` with boundary `b`: the items scanned before are
      those after the left anchor, the conflicting ones those after `b`. */
  function Scan(s: seq<Node>, n: Node, o: int, b: int): (r: int)
    requires -1 <= b < o <= |s|
    ensures b <= r < |s|
    ensures o <= RightPos(s, n.right) ==> r < RightPos(s, n.right)
    decreases |s| - o
  {
    if o == |s| || o == RightPos(s, n.right) then b
    else if s[o].left == n.left then
      Scan(s, n, o + 1, if s[o].id.replica < n.id.replica then o else b)
    else if s[o].left.Some? then
      var origin := Find(s, s[o].left.value);
      if LeftPos(s, n.left) < origin <= o then
        Scan(s, n, o + 1, if origin <= b then o else b)
      else b
    else b
  }

  /** The position the new item is linked behind. */
  function Boundary(s: seq<Node>, n: Node): (b: int)
    ensures LeftPos(s, n.left) <= b < |s|
    ensures LeftPos(s, n.left) < RightPos(s, n.right) ==> b < RightPos(s, n.right)
  {
    Scan(s, n, LeftPos(s, n.left) + 1, LeftPos(s, n.left))
  }

  function InsertAt<T>(s: seq<T>, k: int, x: T): (r: seq<T>)
    requires 0 <= k <= |s|
    ensures |r| == |s| + 1 && r[k] == x
    ensures forall i :: 0 <= i < k ==> r[i] == s[i]
    ensures forall i :: k < i < |r| ==> r[i] == s[i - 1]
  {
    s[..k] + [x] + s[k..]
  }

  function Integrate(s: seq<Node>, n: Node): seq<Node> {
    InsertAt(s, Boundary(s, n) + 1, n)
  }

  /** Two anchors stand at the same position exactly when they are the same. */
  lemma SameAnchor(s: seq<Node>, a: Option<OpId>, b: Option<OpId>)
    requires Has(s, a) && Has(s, b)
    ensures a == b <==> LeftPos(s, a) == LeftPos(s, b)
  {
  }

  lemma AnchorsAt(s: seq<Node>, n: Node, o: int)
    requires Closed(s) && Has(s, n.left) && 0 <= o < |s|
    ensures s[o].left == n.left <==> LeftPos(s, s[o].left) == LeftPos(s, n.left)
  {
    SameAnchor(s, s[o].left, n.left);
  }

  lemma {:induction false} ScanOnPositions(s: seq<Node>, n: Node, o: int, b: int)
    requires Closed(s) && Has(s, n.left)
    requires -1 <= LeftPos(s, n.left) <= b < o <= RightPos(s, n.right)
    ensures Scan(s, n, o, b) == P.Scan(ShapeOf(s).lp, ShapeOf(s).rep, PointOf(s, n), o, b)
    decreases |s| - o
  {
    hide Find, Closed;
    if o < RightPos(s, n.right) {
      var p := LeftPos(s, s[o].left);
      AnchorsAt(s, n, o);
      assert ShapeOf(s).lp[o] == p && ShapeOf(s).rep[o] == s[o].id.replica;
      if s[o].left == n.left {
        var b' := if s[o].id.replica < n.id.replica then o else b;
        ScanOnPositions(s, n, o + 1, b');
      } else if LeftPos(s, n.left) < p <= o {
        var b' := if p <= b then o else b;
        ScanOnPositions(s, n, o + 1, b');
      }
    }
  }

  /** The insertion point of the code is the slot of the tree form, and there is
      only one such slot. */
  lemma BoundaryIsSlot(s: seq<Node>, n: Node, b: int)
    requires Tree(s) && WellFormed(s, n)
    ensures Boundary(s, n) == b <==> P.Slot(ShapeOf(s).lp, ShapeOf(s).rep, PointOf(s, n), b)
  {
    var l, sh, pt := LeftPos(s, n.left), ShapeOf(s), PointOf(s, n);
    ScanOnPositions(s, n, l + 1, l);
    P.ScanFindsSlot(sh.lp, sh.rep, pt, l + 1, l, Boundary(s, n));
    if P.Slot(sh.lp, sh.rep, pt, b) {
      P.SlotUnique(sh.lp, sh.rep, pt, b, Boundary(s, n));
    }
  }

  // -------------------------------------------------------------------- parts

  /** `t` is what stands at the increasing positions `m` of `g`. */
  ghost predicate Part(t: seq<Node>, g: seq<Node>, m: seq<int>) {
    && |m| == |t| && P.Increasing(m, |g|)
    && forall k :: 0 <= k < |t| ==> t[k] == g[m[k]]
  }

  lemma FindPart(t: seq<Node>, g: seq<Node>, m: seq<int>, id: OpId)
    requires Part(t, g, m) && Unique(g) && Find(t, id) >= 0
    ensures Find(g, id) == m[Find(t, id)]
  {
    FindAt(g, m[Find(t, id)]);
  }

  lemma PartAnchors(t: seq<Node>, g: seq<Node>, m: seq<int>, a: Option<OpId>)
    requires Part(t, g, m) && Unique(g) && Has(t, a)
    ensures Has(g, a)
    ensures LeftPos(g, a) == P.Up(m, |g|, LeftPos(t, a))
    ensures 0 <= RightPos(t, a) && RightPos(g, a) == P.Up(m, |g|, RightPos(t, a))
  {
    if a.Some? {
      FindPart(t, g, m, a.value);
    }
  }

  lemma PartEmbeds(t: seq<Node>, g: seq<Node>, m: seq<int>)
    requires Part(t, g, m) && Unique(g) && Closed(t)
    ensures P.Embeds(ShapeOf(t), ShapeOf(g), m)
  {
    forall k | 0 <= k < |m|
      ensures ShapeOf(g).lp[m[k]] == P.Up(m, |g|, ShapeOf(t).lp[k])
      ensures ShapeOf(g).rp[m[k]] == P.Up(m, |g|, ShapeOf(t).rp[k])
      ensures 0 <= ShapeOf(t).rp[k]
    {
      PartAnchors(t, g, m, t[k].left);
      PartAnchors(t, g, m, t[k].right);
    }
  }

  lemma PartUnique(t: seq<Node>, g: seq<Node>, m: seq<int>)
    requires Part(t, g, m) && Unique(g)
    ensures Unique(t)
  {
  }

  /** Every closed part of a tree is a tree. */
  lemma PartTree(t: seq<Node>, g: seq<Node>, m: seq<int>)
    requires Part(t, g, m) && Tree(g) && Closed(t)
    ensures Tree(t)
  {
    PartUnique(t, g, m);
    PartEmbeds(t, g, m);
    P.EmbedsTree(ShapeOf(t), ShapeOf(g), m);
  }

  lemma PartTrans(t: seq<Node>, g: seq<Node>, h: seq<Node>, m1: seq<int>, m2: seq<int>) returns (m: seq<int>)
    requires Part(t, g, m1) && Part(g, h, m2)
    ensures Part(t, h, m)
    ensures |m| == |m1| && forall k :: 0 <= k < |m| ==> m[k] == m2[m1[k]]
  {
    m := seq(|m1|, k requires 0 <= k < |m1| => m2[m1[k]]);
  }

  /** Two parts of one stream with the same items are the same. */
  lemma PartsAgree(t1: seq<Node>, t2: seq<Node>, g: seq<Node>, m1: seq<int>, m2: seq<int>)
    requires Part(t1, g, m1) && Part(t2, g, m2)
    requires forall x :: x in m1 <==> x in m2
    ensures t1 == t2
  {
    IncreasingSame(m1, m2, |g|);
  }

  lemma InFront(m: seq<int>, top: int, x: int)
    requires P.Increasing(m, top) && |m| > 0
    ensures x in m[..|m| - 1] <==> x in m && x < m[|m| - 1]
    ensures x in m ==> x <= m[|m| - 1]
  {
    var n := |m| - 1;
    assert m[n] in m;
    if i :| 0 <= i < |m| && m[i] == x {
      if i < n {
        assert m[..n][i] == x;
      }
    }
    if i :| 0 <= i < n && m[..n][i] == x {
      assert m[i] == x;
    }
  }

  lemma SameEmpty(m1: seq<int>, m2: seq<int>)
    requires forall x :: x in m1 <==> x in m2
    ensures |m1| == 0 <==> |m2| == 0
  {
    if |m1| > 0 { MemberThere(m1, m2, m1[0]); }
    if |m2| > 0 { MemberThere(m2, m1, m2[0]); }
  }

  lemma MemberThere(m1: seq<int>, m2: seq<int>, x: int)
    requires x in m1 && forall y :: y in m1 ==> y in m2
    ensures |m2| > 0
  {
    assert x in m2;
  }

  lemma SameLast(m1: seq<int>, m2: seq<int>, top: int)
    requires P.Increasing(m1, top) && P.Increasing(m2, top) && |m1| > 0 && |m2| > 0
    requires forall x :: x in m1 <==> x in m2
    ensures m1[|m1| - 1] == m2[|m2| - 1]
    ensures var f1, f2 := m1[..|m1| - 1], m2[..|m2| - 1]; forall x :: x in f1 <==> x in f2
  {
    hide P.Increasing;
    var n1, n2 := |m1| - 1, |m2| - 1;
    InFront(m1, top, m2[n2]);
    InFront(m2, top, m1[n1]);
    assert m1[n1] in m1 && m2[n2] in m2;
    forall x ensures x in m1[..n1] <==> x in m2[..n2] {
      InFront(m1, top, x);
      InFront(m2, top, x);
    }
  }

  lemma {:induction false} IncreasingSame(m1: seq<int>, m2: seq<int>, top: int)
    requires P.Increasing(m1, top) && P.Increasing(m2, top)
    requires forall x :: x in m1 <==> x in m2
    ensures m1 == m2
  {
    hide P.Increasing;
    SameEmpty(m1, m2);
    if |m1| > 0 {
      var n1, n2 := |m1| - 1, |m2| - 1;
      SameLast(m1, m2, top);
      IncreasingFront(m1, top);
      IncreasingFront(m2, top);
      IncreasingSame(m1[..n1], m2[..n2], top);
      assert m1 == m1[..n1] + [m1[n1]] && m2 == m2[..n2] + [m2[n2]];
    }
  }

  lemma IncreasingFront(m: seq<int>, top: int)
    requires P.Increasing(m, top) && |m| > 0
    ensures P.Increasing(m[..|m| - 1], top)
  {
  }

  /** The gap of the part at which a missing position of the whole falls. */
  lemma FindGap(m: seq<int>, top: int, x: int) returns (k: int)
    requires P.Increasing(m, top) && x !in m
    ensures P.Gap(m, x, k)
  {
    k := 0;
    while k < |m| && m[k] < x
      invariant 0 <= k <= |m|
      invariant forall i :: 0 <= i < k ==> m[i] < x
    {
      k := k + 1;
    }
  }

  // ---------------------------------------------------------------- projection

  /** No rival of `g[x]` inside the part stands before it without being smaller. */
  ghost predicate Placeable(g: seq<Node>, m: seq<int>, x: int) {
    P.Increasing(m, |g|) && 0 <= x < |g| && P.NoRivalBefore(ShapeOf(g), m, x)
  }

  /** Projection: integrating into a closed part an item that the whole already
      holds puts it where the whole has it. */
  lemma Project(t: seq<Node>, g: seq<Node>, m: seq<int>, x: int) returns (k: int)
    requires Part(t, g, m) && Tree(g) && Sorted(g) && Closed(t)
    requires 0 <= x < |g| && x !in m && Has(t, g[x].left) && Has(t, g[x].right)
    requires Placeable(g, m, x)
    ensures P.Gap(m, x, k)
    ensures Boundary(t, g[x]) == k - 1
    ensures Part(Integrate(t, g[x]), g, InsertAt(m, k, x))
    ensures Closed(Integrate(t, g[x]))
  {
    k := FindGap(m, |g|, x);
    ProjectBoundary(t, g, m, x, k);
    InsertPart(t, g, m, x, k);
    InsertClosed(t, g[x], k);
  }

  lemma ProjectBoundary(t: seq<Node>, g: seq<Node>, m: seq<int>, x: int, k: int)
    requires Part(t, g, m) && Tree(g) && Sorted(g) && Closed(t)
    requires 0 <= x < |g| && x !in m && Has(t, g[x].left) && Has(t, g[x].right)
    requires Placeable(g, m, x) && P.Gap(m, x, k)
    ensures Boundary(t, g[x]) == k - 1
  {
    PartTree(t, g, m);
    assert P.Projecting(ShapeOf(t), ShapeOf(g), m, x, k, PointOf(t, g[x])) by {
      PartEmbeds(t, g, m);
      PartAnchors(t, g, m, g[x].left);
      PartAnchors(t, g, m, g[x].right);
    }
    P.Project(ShapeOf(t), ShapeOf(g), m, x, k, PointOf(t, g[x]));
    PartWellFormed(t, g, m, x);
    BoundaryIsSlot(t, g[x], k - 1);
  }

  lemma PartWellFormed(t: seq<Node>, g: seq<Node>, m: seq<int>, x: int)
    requires Part(t, g, m) && Tree(g) && Closed(t)
    requires 0 <= x < |g| && x !in m && Has(t, g[x].left) && Has(t, g[x].right)
    ensures WellFormed(t, g[x])
  {
    var n := g[x];
    PartAnchors(t, g, m, n.left);
    PartAnchors(t, g, m, n.right);
    var l, r := LeftPos(t, n.left), RightPos(t, n.right);
    assert ShapeOf(g).lp[x] < x < ShapeOf(g).rp[x];
    P.UpMonotone(m, |g|, l, r);
    if r < |t| {
      PartAnchors(t, g, m, t[r].left);
      assert ShapeOf(g).rp[x] == m[r];
      assert ShapeOf(g).lp[m[r]] == LeftPos(g, t[r].left);
      P.UpMonotone(m, |g|, l, LeftPos(t, t[r].left));
    }
    FindAbsent(t, g, m, x);
  }

  lemma FindAbsent(t: seq<Node>, g: seq<Node>, m: seq<int>, x: int)
    requires Part(t, g, m) && Unique(g) && 0 <= x < |g| && x !in m
    ensures Find(t, g[x].id) < 0
  {
    assert forall j :: 0 <= j < |t| ==> m[j] in m && t[j].id != g[x].id;
  }

  lemma InsertPart(t: seq<Node>, g: seq<Node>, m: seq<int>, x: int, k: int)
    requires Part(t, g, m) && 0 <= x < |g| && P.Gap(m, x, k)
    ensures Part(InsertAt(t, k, g[x]), g, InsertAt(m, k, x))
  {
  }

  /** Presence survives insertion. */
  lemma HasStays(s: seq<Node>, k: int, n: Node, a: Option<OpId>)
    requires 0 <= k <= |s| && Has(s, a)
    ensures Has(InsertAt(s, k, n), a)
  {
    if a.Some? {
      var i, r := Find(s, a.value), InsertAt(s, k, n);
      assert r[if i < k then i else i + 1].id == a.value;
    }
  }

  lemma InsertClosed(s: seq<Node>, n: Node, k: int)
    requires Closed(s) && Has(s, n.left) && Has(s, n.right) && 0 <= k <= |s|
    ensures Closed(InsertAt(s, k, n))
  {
    var r := InsertAt(s, k, n);
    forall i | 0 <= i < |r| ensures Has(r, r[i].left) && Has(r, r[i].right) {
      HasStays(s, k, n, r[i].left);
      HasStays(s, k, n, r[i].right);
    }
  }

  // -------------------------------------------------------------------- growth

  ghost function Skip(n: int, x: int): (m: seq<int>)
    requires 0 <= n
    ensures |m| == n
  {
    seq(n, i => if i < x then i else i + 1)
  }

  /** The old items are a part of the grown stream: integration never reorders. */
  lemma IntegrateKeeps(s: seq<Node>, n: Node)
    ensures Part(s, Integrate(s, n), Skip(|s|, Boundary(s, n) + 1))
  {
    hide Scan;
    InsertKeeps(s, Boundary(s, n) + 1, n);
  }

  lemma InsertKeeps(s: seq<Node>, k: int, n: Node)
    requires 0 <= k <= |s|
    ensures Part(s, InsertAt(s, k, n), Skip(|s|, k))
  {
    hide InsertAt;
    var g, m := InsertAt(s, k, n), Skip(|s|, k);
    forall i | 0 <= i < |s| ensures s[i] == g[m[i]] {}
  }

  lemma IntegrateUnique(s: seq<Node>, n: Node)
    requires Unique(s) && Find(s, n.id) < 0
    ensures Unique(Integrate(s, n))
  {
  }

  lemma WellFormedPoint(s: seq<Node>, n: Node)
    requires Tree(s) && WellFormed(s, n)
    ensures Unique(s) && Closed(s) && P.Tree(ShapeOf(s)) && Find(s, n.id) < 0 && Has(s, n.left) && Has(s, n.right)
    ensures var pt, sh := PointOf(s, n), ShapeOf(s);
            -1 <= pt.l < |s| && 0 <= pt.r <= |s| && (pt.r < |s| ==> sh.lp[pt.r] <= pt.l)
  {
    hide Unique, Closed, P.Tree;
  }

  lemma SkipIs(n: int, x: int)
    requires 0 <= n
    ensures forall i :: 0 <= i < n ==> Skip(n, x)[i] == if i < x then i else i + 1
  {
  }

  lemma IntegrateExtends(s: seq<Node>, n: Node)
    requires Tree(s) && WellFormed(s, n)
    ensures var x := Boundary(s, n) + 1;
            P.Extends(ShapeOf(s), ShapeOf(Integrate(s, n)), Skip(|s|, x), x, PointOf(s, n))
  {
    hide Tree, WellFormed, Unique, Closed, Part, Find, Has, LeftPos, RightPos, P.Tree, P.Slot, P.Embeds, P.Up, Boundary,
         Skip, ShapeOf, PointOf;
    var x := Boundary(s, n) + 1;
    var g, m := Integrate(s, n), Skip(|s|, x);
    WellFormedPoint(s, n);
    SkipIs(|s|, x);
    IntegrateKeeps(s, n);
    IntegrateUnique(s, n);
    ExtendsFields(s, g, m, x, n);
    BoundaryIsSlot(s, n, x - 1);
  }

  lemma ExtendsFields(s: seq<Node>, g: seq<Node>, m: seq<int>, x: int, n: Node)
    requires Part(s, g, m) && Unique(g) && Closed(s) && Has(s, n.left) && Has(s, n.right)
    requires 0 <= x < |g| && g[x] == n
    ensures P.Embeds(ShapeOf(s), ShapeOf(g), m)
    ensures ShapeOf(g).lp[x] == P.Up(m, |g|, PointOf(s, n).l)
    ensures 0 <= PointOf(s, n).r && ShapeOf(g).rp[x] == P.Up(m, |g|, PointOf(s, n).r)
    ensures ShapeOf(g).rep[x] == PointOf(s, n).rep
  {
    PartEmbeds(s, g, m);
    PartAnchors(s, g, m, n.left);
    PartAnchors(s, g, m, n.right);
  }

  /** A well-formed insert keeps the tree and the sibling order. */
  lemma IntegrateGrows(s: seq<Node>, n: Node)
    requires Tree(s) && Sorted(s) && WellFormed(s, n)
    ensures Tree(Integrate(s, n)) && Sorted(Integrate(s, n))
  {
    var x := Boundary(s, n) + 1;
    var m := Skip(|s|, x);
    IntegrateUnique(s, n);
    IntegrateExtends(s, n);
    P.ExtendsTree(ShapeOf(s), ShapeOf(Integrate(s, n)), m, x, PointOf(s, n));
    P.ExtendsSorted(ShapeOf(s), ShapeOf(Integrate(s, n)), m, x, PointOf(s, n));
    InsertClosed(s, n, x);
  }
}
