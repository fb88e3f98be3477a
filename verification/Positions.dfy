/** The conflict scan and the tree it maintains, on bare positions. */
module Positions {

  /** A stream seen as positions: `lp[i]` is where item i's left anchor stands
      (-1 for the start of the sequence), `rp[i]` where its right anchor stands
      (the length for the end), and `rep[i]` is its replica. */
  datatype Shape = Shape(lp: seq<int>, rp: seq<int>, rep: seq<nat>) {
    ghost predicate Proper() {
      |rp| == |lp| && |rep| == |lp|
    }
  }

  /** An insert seen as positions. */
  datatype Point = Point(l: int, r: int, rep: nat)

  // ------------------------------------------------------------ tree invariants

  /** Every item lies strictly between its own anchors. */
  ghost predicate LeftBefore(lp: seq<int>) {
    forall i :: 0 <= i < |lp| ==> -1 <= lp[i] < i
  }

  ghost predicate RightAfter(rp: seq<int>) {
    forall i :: 0 <= i < |rp| ==> i < rp[i] <= |rp|
  }

  /** No crossing: whatever sits between an item and its left anchor is anchored
      at or after that anchor. */
  ghost predicate NoCrossing(lp: seq<int>) {
    forall i, j :: 0 <= i < |lp| && 0 <= j && lp[i] < j < i ==> lp[i] <= lp[j]
  }

  /** A right anchor never hangs deeper than the left anchor. */
  ghost predicate ShallowRight(lp: seq<int>, rp: seq<int>)
    requires |rp| == |lp|
  {
    forall i {:trigger rp[i]} :: 0 <= i < |rp| && 0 <= rp[i] < |lp| ==> lp[rp[i]] <= lp[i]
  }

  ghost predicate Tree(s: Shape) {
    s.Proper() && LeftBefore(s.lp) && RightAfter(s.rp) && NoCrossing(s.lp) && ShallowRight(s.lp, s.rp)
  }

  /** `j` is a later sibling of `i` that `i`'s right anchor does not separate from it. */
  ghost predicate Rivals(s: Shape, i: int, j: int)
    requires s.Proper()
  {
    0 <= i < j < |s.lp| && s.lp[i] == s.lp[j] && j < s.rp[i]
  }

  /** Rival siblings stand in replica order. */
  ghost predicate Sorted(s: Shape)
    requires s.Proper()
  {
    forall i, j :: Rivals(s, i, j) ==> s.rep[i] <= s.rep[j]
  }

  // -------------------------------------------------------------------- the scan

  /** The scan at position `o` with boundary `b` found so far. */
  function Scan(lp: seq<int>, rep: seq<nat>, n: Point, o: int, b: int): (k: int)
    requires |rep| == |lp| && -1 <= n.l <= b < o <= n.r <= |lp|
    ensures b <= k < n.r
    decreases n.r - o
  {
    if o == n.r then b
    else if lp[o] == n.l then Scan(lp, rep, n, o + 1, if rep[o] < n.rep then o else b)
    else if n.l < lp[o] <= o then Scan(lp, rep, n, o + 1, if lp[o] <= b then o else b)
    else b
  }

  /** `p` is the last child of position `l` at or before `b`. */
  ghost predicate LastChild(lp: seq<int>, l: int, p: int, b: int) {
    && -1 <= l < p <= b < |lp| && lp[p] == l
    && forall q :: p < q <= b ==> lp[q] != l
  }

  /** The tree form of the insertion point: directly behind the complete subtree
      of the last smaller sibling before the right anchor, or directly behind the
      left anchor when there is no such sibling. */
  ghost predicate Slot(lp: seq<int>, rep: seq<nat>, n: Point, b: int)
    requires |rep| == |lp|
  {
    && -1 <= n.l <= b < n.r <= |lp|
    // everything passed over belongs to the left anchor's subtree
    && (forall j :: n.l < j <= b ==> n.l <= lp[j])
    // no smaller sibling remains ahead
    && (forall j :: b < j < n.r && lp[j] == n.l ==> n.rep <= rep[j])
    // the subtree passed over is complete
    && (b + 1 < n.r ==> lp[b + 1] <= n.l)
    // the last child passed over is a smaller sibling
    && (n.l < b ==> exists p :: LastChild(lp, n.l, p, b) && rep[p] < n.rep)
  }

  lemma SlotUnique(lp: seq<int>, rep: seq<nat>, n: Point, b1: int, b2: int)
    requires |rep| == |lp| && Slot(lp, rep, n, b1) && Slot(lp, rep, n, b2)
    ensures b1 == b2
  {
    if b1 < b2 {
      SlotNotBelow(lp, rep, n, b1, b2);
    } else if b2 < b1 {
      SlotNotBelow(lp, rep, n, b2, b1);
    }
  }

  lemma SlotNotBelow(lp: seq<int>, rep: seq<nat>, n: Point, b1: int, b2: int)
    requires |rep| == |lp| && Slot(lp, rep, n, b1) && Slot(lp, rep, n, b2)
    ensures b2 <= b1
  {
  }

  /** The loop invariant of the scan. */
  ghost predicate ScanInv(lp: seq<int>, rep: seq<nat>, n: Point, o: int, b: int)
    requires |rep| == |lp|
  {
    && -1 <= n.l <= b < o <= n.r <= |lp|
    && (forall j :: n.l < j < o ==> n.l <= lp[j])
    && (forall j :: b < j < o && lp[j] == n.l ==> n.rep <= rep[j])
    && (b + 1 < o ==> lp[b + 1] == n.l)
    && (n.l < b ==> exists p :: LastChild(lp, n.l, p, b) && rep[p] < n.rep)
  }

  /** A scanned sibling: the boundary moves to it exactly when it is smaller. */
  lemma StepSibling(lp: seq<int>, rep: seq<nat>, n: Point, o: int, b: int)
    requires |rep| == |lp| && ScanInv(lp, rep, n, o, b)
    requires o < n.r && lp[o] == n.l
    ensures ScanInv(lp, rep, n, o + 1, if rep[o] < n.rep then o else b)
  {
    if rep[o] < n.rep {
      assert LastChild(lp, n.l, o, o);
    }
  }

  /** A scanned descendant: the boundary moves to it exactly when its own anchor
      has already been passed. */
  lemma StepDescendant(lp: seq<int>, rep: seq<nat>, n: Point, o: int, b: int)
    requires |rep| == |lp| && NoCrossing(lp) && ScanInv(lp, rep, n, o, b)
    requires o < n.r && n.l < lp[o] < o
    ensures ScanInv(lp, rep, n, o + 1, if lp[o] <= b then o else b)
  {
    if lp[o] <= b {
      var p :| LastChild(lp, n.l, p, b) && rep[p] < n.rep;
      assert LastChild(lp, n.l, p, o);
    }
  }

  /** The scan leaves the left anchor's subtree: no sibling lies beyond. */
  lemma StepOut(lp: seq<int>, rep: seq<nat>, n: Point, o: int, b: int)
    requires |rep| == |lp| && NoCrossing(lp) && ScanInv(lp, rep, n, o, b)
    requires o < n.r && lp[o] < n.l
    ensures Slot(lp, rep, n, b)
  {
    assert forall j :: o < j < n.r ==> lp[j] != n.l;
  }

  /** The two-set scan finds the tree form. */
  lemma {:induction false} ScanFindsSlot(lp: seq<int>, rep: seq<nat>, n: Point, o: int, b: int, k: int)
    requires LeftBefore(lp) && NoCrossing(lp) && |rep| == |lp|
    requires ScanInv(lp, rep, n, o, b)
    requires k == Scan(lp, rep, n, o, b)
    ensures Slot(lp, rep, n, k)
    decreases n.r - o
  {
    hide NoCrossing, LastChild;
    if o == n.r {
    } else if lp[o] == n.l {
      var b' := if rep[o] < n.rep then o else b;
      StepSibling(lp, rep, n, o, b);
      ScanFindsSlot(lp, rep, n, o + 1, b', k);
    } else if n.l < lp[o] {
      var b' := if lp[o] <= b then o else b;
      StepDescendant(lp, rep, n, o, b);
      ScanFindsSlot(lp, rep, n, o + 1, b', k);
    } else {
      StepOut(lp, rep, n, o, b);
    }
  }

  // ---------------------------------------------------------------- embeddings

  ghost predicate Increasing(m: seq<int>, top: int) {
    && (forall i :: 0 <= i < |m| ==> 0 <= m[i] < top)
    && (forall i, j :: 0 <= i < j < |m| ==> m[i] < m[j])
  }

  /** A position of the smaller stream in the larger one; both ends map to ends. */
  function Up(m: seq<int>, top: int, k: int): int
    requires -1 <= k <= |m|
  {
    if k == -1 then -1 else if k == |m| then top else m[k]
  }

  lemma UpMonotone(m: seq<int>, top: int, a: int, b: int)
    requires Increasing(m, top) && 0 <= top && -1 <= a <= |m| && -1 <= b <= |m|
    ensures a < b <==> Up(m, top, a) < Up(m, top, b)
    ensures a == b <==> Up(m, top, a) == Up(m, top, b)
  {
  }

  ghost predicate Bounded(s: Shape) {
    && s.Proper()
    && (forall i :: 0 <= i < |s.lp| ==> -1 <= s.lp[i] < |s.lp|)
    && (forall i :: 0 <= i < |s.rp| ==> 0 <= s.rp[i] <= |s.rp|)
  }

  /** `t` is the part of `g` standing at the positions `m`, anchors included. */
  ghost predicate Embeds(t: Shape, g: Shape, m: seq<int>) {
    && Bounded(t) && g.Proper() && |m| == |t.lp| && Increasing(m, |g.lp|)
    && (forall k {:trigger t.lp[k]} {:trigger g.lp[m[k]]} :: 0 <= k < |m| ==> g.lp[m[k]] == Up(m, |g.lp|, t.lp[k]))
    && (forall k {:trigger t.rp[k]} {:trigger g.rp[m[k]]} :: 0 <= k < |m| ==> g.rp[m[k]] == Up(m, |g.lp|, t.rp[k]))
    && (forall k {:trigger t.rep[k]} {:trigger g.rep[m[k]]} :: 0 <= k < |m| ==> g.rep[m[k]] == t.rep[k])
  }

  lemma EmbedsBetween(t: Shape, g: Shape, m: seq<int>)
    requires Embeds(t, g, m) && LeftBefore(g.lp) && RightAfter(g.rp)
    ensures LeftBefore(t.lp) && RightAfter(t.rp)
  {
    forall i | 0 <= i < |m| ensures t.lp[i] < i < t.rp[i] {
      UpMonotone(m, |g.lp|, t.lp[i], i);
      UpMonotone(m, |g.lp|, i, t.rp[i]);
    }
  }

  lemma EmbedsNoCrossing(t: Shape, g: Shape, m: seq<int>)
    requires Embeds(t, g, m) && NoCrossing(g.lp)
    ensures NoCrossing(t.lp)
  {
    forall i, j | 0 <= i < |m| && 0 <= j && t.lp[i] < j < i ensures t.lp[i] <= t.lp[j] {
      UpMonotone(m, |g.lp|, t.lp[i], j);
      UpMonotone(m, |g.lp|, t.lp[j], t.lp[i]);
      assert g.lp[m[i]] < m[j] < m[i];
    }
  }

  lemma EmbedsShallowRight(t: Shape, g: Shape, m: seq<int>)
    requires Embeds(t, g, m) && ShallowRight(g.lp, g.rp)
    ensures ShallowRight(t.lp, t.rp)
  {
    forall i {:trigger t.rp[i]} | 0 <= i < |m| && t.rp[i] < |m| ensures t.lp[t.rp[i]] <= t.lp[i] {
      UpMonotone(m, |g.lp|, t.lp[i], t.lp[t.rp[i]]);
      assert g.rp[m[i]] == m[t.rp[i]];
    }
  }

  /** Every closed part of a tree is a tree. */
  lemma EmbedsTree(t: Shape, g: Shape, m: seq<int>)
    requires Embeds(t, g, m) && Tree(g)
    ensures Tree(t)
  {
    EmbedsBetween(t, g, m);
    EmbedsNoCrossing(t, g, m);
    EmbedsShallowRight(t, g, m);
  }

  // ---------------------------------------------------------------- projection

  /** Position `x` of `g`, seen from the part at `m`, falls just before `m[k]`. */
  ghost predicate Gap(m: seq<int>, x: int, k: int) {
    && 0 <= k <= |m|
    && (forall i :: 0 <= i < k ==> m[i] < x)
    && (forall i :: k <= i < |m| ==> x < m[i])
  }

  /** No item of the part is a rival standing before `x` without being smaller. */
  ghost predicate NoRivalBefore(g: Shape, m: seq<int>, x: int)
    requires g.Proper() && Increasing(m, |g.lp|) && 0 <= x < |g.lp|
  {
    forall k :: 0 <= k < |m| && Rivals(g, m[k], x) ==> g.rep[m[k]] < g.rep[x]
  }

  ghost predicate Projecting(t: Shape, g: Shape, m: seq<int>, x: int, k: int, n: Point) {
    && Embeds(t, g, m) && Tree(g) && Tree(t) && Sorted(g)
    && 0 <= x < |g.lp| && Gap(m, x, k)
    && -1 <= n.l < |m| && 0 <= n.r <= |m|
    && g.lp[x] == Up(m, |g.lp|, n.l) && g.rp[x] == Up(m, |g.lp|, n.r) && g.rep[x] == n.rep
    && NoRivalBefore(g, m, x)
  }

  lemma ProjectAnchors(t: Shape, g: Shape, m: seq<int>, x: int, k: int, n: Point)
    requires Projecting(t, g, m, x, k, n)
    ensures n.l < k <= n.r
  {
    assert g.lp[x] < x < g.rp[x];
  }

  lemma ProjectSubtree(t: Shape, g: Shape, m: seq<int>, x: int, k: int, n: Point)
    requires Projecting(t, g, m, x, k, n)
    ensures forall j :: n.l < j < k ==> n.l <= t.lp[j]
  {
    forall j | n.l < j < k ensures n.l <= t.lp[j] {
      UpMonotone(m, |g.lp|, n.l, j);
      UpMonotone(m, |g.lp|, t.lp[j], n.l);
      assert g.lp[x] < m[j] < x;
    }
  }

  lemma ProjectAhead(t: Shape, g: Shape, m: seq<int>, x: int, k: int, n: Point)
    requires Projecting(t, g, m, x, k, n)
    ensures forall j :: k <= j < n.r && t.lp[j] == n.l ==> n.rep <= t.rep[j]
  {
    forall j | k <= j < n.r && t.lp[j] == n.l ensures n.rep <= t.rep[j] {
      UpMonotone(m, |g.lp|, j, n.r);
      assert Rivals(g, x, m[j]);
    }
  }

  lemma ProjectComplete(t: Shape, g: Shape, m: seq<int>, x: int, k: int, n: Point)
    requires Projecting(t, g, m, x, k, n) && k < n.r
    ensures t.lp[k] <= n.l
  {
    var q := t.lp[k];
    assert q < k;
    UpMonotone(m, |g.lp|, n.l, q);
  }

  /** The last child before the gap: it exists because whatever directly follows
      the left anchor inside its subtree is a child of it. */
  lemma LastChildExists(lp: seq<int>, l: int, b: int) returns (p: int)
    requires LeftBefore(lp) && -1 <= l < b < |lp|
    requires forall j :: l < j <= b ==> l <= lp[j]
    ensures LastChild(lp, l, p, b)
  {
    p := b;
    while lp[p] != l
      invariant l < p <= b
      decreases p
      invariant forall q :: p < q <= b ==> lp[q] != l
    {
      p := p - 1;
    }
  }

  /** It is a smaller sibling: its right anchor cannot stand before the gap, for
      that anchor would be a later child. */
  lemma ProjectSmaller(t: Shape, g: Shape, m: seq<int>, x: int, k: int, n: Point, p: int)
    requires Projecting(t, g, m, x, k, n) && n.l < k - 1 && LastChild(t.lp, n.l, p, k - 1)
    requires forall j :: n.l < j < k ==> n.l <= t.lp[j]
    ensures t.rep[p] < n.rep
  {
    var q := t.rp[p];
    if q < k {
      assert false;
    } else {
      assert Rivals(g, m[p], x);
    }
  }

  /** Projection: where the larger stream holds an item is where the scan puts it
      in any closed part that lacks it. */
  lemma Project(t: Shape, g: Shape, m: seq<int>, x: int, k: int, n: Point)
    requires Projecting(t, g, m, x, k, n)
    ensures Slot(t.lp, t.rep, n, k - 1)
  {
    ProjectAnchors(t, g, m, x, k, n);
    ProjectSubtree(t, g, m, x, k, n);
    ProjectAhead(t, g, m, x, k, n);
    if k < n.r {
      ProjectComplete(t, g, m, x, k, n);
    }
    if n.l < k - 1 {
      var p := LastChildExists(t.lp, n.l, k - 1);
      ProjectSmaller(t, g, m, x, k, n, p);
    }
  }

  // ----------------------------------------------------------------- extension

  /** `g` is `t` with one more item, at position `x`, which stands in its slot. */
  ghost predicate Extends(t: Shape, g: Shape, m: seq<int>, x: int, n: Point) {
    && Embeds(t, g, m) && Tree(t)
    && |g.lp| == |t.lp| + 1 && 0 <= x < |g.lp|
    && (forall i :: 0 <= i < |m| ==> m[i] == if i < x then i else i + 1)
    && -1 <= n.l < |m| && 0 <= n.r <= |m|
    && g.lp[x] == Up(m, |g.lp|, n.l) && g.rp[x] == Up(m, |g.lp|, n.r) && g.rep[x] == n.rep
    && Slot(t.lp, t.rep, n, x - 1)
    && (n.r < |t.lp| ==> t.lp[n.r] <= n.l)
  }

  lemma ExtendsBetween(t: Shape, g: Shape, m: seq<int>, x: int, n: Point)
    requires Extends(t, g, m, x, n)
    ensures LeftBefore(g.lp) && RightAfter(g.rp)
  {
    forall i | 0 <= i < |g.lp| ensures -1 <= g.lp[i] < i < g.rp[i] <= |g.lp| {
      if i != x {
        var k := if i < x then i else i - 1;
        assert m[k] == i;
        UpMonotone(m, |g.lp|, t.lp[k], k);
        UpMonotone(m, |g.lp|, k, t.rp[k]);
      }
    }
  }

  /** Nothing after the new item hangs from inside the subtree it closes. */
  lemma ExtendsAfter(t: Shape, g: Shape, m: seq<int>, x: int, n: Point, i: int)
    requires Extends(t, g, m, x, n) && x <= i < |t.lp| && t.lp[i] < x
    ensures t.lp[i] <= n.l
  {
    CompleteBehind(t, n, x, i);
  }

  lemma CompleteBehind(t: Shape, n: Point, x: int, i: int)
    requires t.Proper() && NoCrossing(t.lp) && Slot(t.lp, t.rep, n, x - 1)
    requires n.r < |t.lp| ==> t.lp[n.r] <= n.l
    requires x <= i < |t.lp| && t.lp[i] < x
    ensures t.lp[i] <= n.l
  {
    assert t.lp[x] <= n.l;
  }

  lemma ExtendsNoCrossing(t: Shape, g: Shape, m: seq<int>, x: int, n: Point)
    requires Extends(t, g, m, x, n)
    ensures NoCrossing(g.lp)
  {
    forall i, j | 0 <= i < |g.lp| && 0 <= j && g.lp[i] < j < i ensures g.lp[i] <= g.lp[j] {
      var i0 := if i < x then i else i - 1;
      var j0 := if j < x then j else j - 1;
      if i == x {
        assert m[j0] == j;
        UpMonotone(m, |g.lp|, n.l, j0);
        UpMonotone(m, |g.lp|, t.lp[j0], n.l);
      } else if j == x {
        assert m[i0] == i;
        assert t.lp[i0] < x;
        ExtendsAfter(t, g, m, x, n, i0);
        UpMonotone(m, |g.lp|, n.l, t.lp[i0]);
      } else {
        assert m[i0] == i && m[j0] == j;
        UpMonotone(m, |g.lp|, t.lp[i0], j0);
        UpMonotone(m, |g.lp|, t.lp[j0], t.lp[i0]);
      }
    }
  }

  lemma ShallowAt(t: Shape, g: Shape, m: seq<int>, i: int, l: int, r: int)
    requires Embeds(t, g, m) && 0 <= i < |g.lp| && -1 <= l < |m| && 0 <= r <= |m|
    requires g.lp[i] == Up(m, |g.lp|, l) && g.rp[i] == Up(m, |g.lp|, r) && g.rp[i] < |g.lp|
    requires r < |m| ==> t.lp[r] <= l
    ensures g.lp[g.rp[i]] <= g.lp[i]
  {
    UpMonotone(m, |g.lp|, l, t.lp[r]);
  }

  lemma ShallowAtOld(t: Shape, g: Shape, m: seq<int>, k: int)
    requires Embeds(t, g, m) && ShallowRight(t.lp, t.rp) && 0 <= k < |m| && g.rp[m[k]] < |g.lp|
    ensures g.lp[g.rp[m[k]]] <= g.lp[m[k]]
  {
    ShallowAt(t, g, m, m[k], t.lp[k], t.rp[k]);
  }

  lemma ExtendsShallowRight(t: Shape, g: Shape, m: seq<int>, x: int, n: Point)
    requires Extends(t, g, m, x, n)
    ensures forall i {:trigger g.rp[i]} :: 0 <= i < |g.rp| && 0 <= g.rp[i] < |g.lp| ==> g.lp[g.rp[i]] <= g.lp[i]
  {
    forall i {:trigger g.rp[i]} | 0 <= i < |g.lp| && 0 <= g.rp[i] < |g.lp| ensures g.lp[g.rp[i]] <= g.lp[i] {
      if i == x {
        ShallowAt(t, g, m, x, n.l, n.r);
      } else {
        ShallowAtOld(t, g, m, if i < x then i else i - 1);
      }
    }
  }

  lemma ExtendsTree(t: Shape, g: Shape, m: seq<int>, x: int, n: Point)
    requires Extends(t, g, m, x, n)
    ensures Tree(g)
  {
    ExtendsBetween(t, g, m, x, n);
    ExtendsNoCrossing(t, g, m, x, n);
    ExtendsShallowRight(t, g, m, x, n);
  }

  /** A rival standing before the new item is strictly smaller than it. */
  lemma ExtendsRivalBefore(t: Shape, g: Shape, m: seq<int>, x: int, n: Point, i: int)
    requires Extends(t, g, m, x, n) && Sorted(t) && Rivals(g, i, x)
    ensures g.rep[i] < g.rep[x]
  {
    hide Sorted, Tree, Slot, LastChild;
    assert m[i] == i;
    UpMonotone(m, |g.lp|, t.lp[i], n.l);
    assert t.lp[i] == n.l;
    UpMonotone(m, |g.lp|, n.l, i);
    assert x <= t.rp[i];
    TreeLeft(t, i);
    PassedSmaller(t, n, x, i);
  }

  lemma TreeLeft(t: Shape, i: int)
    requires Tree(t) && 0 <= i < |t.lp|
    ensures t.Proper() && t.lp[i] < i
  {
  }

  /** A rival the insertion point has passed is smaller than the last one passed. */
  lemma PassedSmaller(t: Shape, n: Point, x: int, i: int)
    requires t.Proper() && Slot(t.lp, t.rep, n, x - 1) && Sorted(t)
    requires n.l < i < x <= |t.lp| && t.lp[i] == n.l && x <= t.rp[i]
    ensures t.rep[i] < n.rep
  {
    var p :| LastChild(t.lp, n.l, p, x - 1) && t.rep[p] < n.rep;
    if i < p { assert Rivals(t, i, p); }
  }

  /** A rival standing after the new item is not smaller than it. */
  lemma ExtendsRivalAfter(t: Shape, g: Shape, m: seq<int>, x: int, n: Point, j: int)
    requires Extends(t, g, m, x, n) && Rivals(g, x, j)
    ensures g.rep[x] <= g.rep[j]
    ensures x <= j - 1 < n.r && t.lp[j - 1] == n.l
  {
    assert m[j - 1] == j;
    UpMonotone(m, |g.lp|, t.lp[j - 1], n.l);
    UpMonotone(m, |g.lp|, j - 1, n.r);
  }

  lemma ExtendsRivalOld(t: Shape, g: Shape, m: seq<int>, x: int, n: Point, i: int, j: int)
    requires Extends(t, g, m, x, n) && Rivals(g, i, j) && i != x && j != x
    ensures Rivals(t, if i < x then i else i - 1, if j < x then j else j - 1)
  {
    var i0 := if i < x then i else i - 1;
    var j0 := if j < x then j else j - 1;
    assert m[i0] == i && m[j0] == j;
    UpMonotone(m, |g.lp|, t.lp[i0], t.lp[j0]);
    UpMonotone(m, |g.lp|, j0, t.rp[i0]);
  }

  lemma ExtendsSorted(t: Shape, g: Shape, m: seq<int>, x: int, n: Point)
    requires Extends(t, g, m, x, n) && Sorted(t)
    ensures Sorted(g)
  {
    forall i, j | Rivals(g, i, j) ensures g.rep[i] <= g.rep[j] {
      if i == x {
        ExtendsRivalAfter(t, g, m, x, n, j);
      } else if j == x {
        ExtendsRivalBefore(t, g, m, x, n, i);
      } else {
        ExtendsRivalOld(t, g, m, x, n, i, j);
        assert m[if i < x then i else i - 1] == i && m[if j < x then j else j - 1] == j;
      }
    }
  }
}
