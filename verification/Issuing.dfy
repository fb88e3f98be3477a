/** Issuing a local operation: the history it extends stays well ordered, and no
    other document notices. */
module Issuing {
  import opened Types
  import opened Order
  import opened Replay
  import opened State
  import opened History
  import C = Counters
  import P = Positions

  /** A replica has applied everything it issued itself. */
  ghost predicate Own(log: seq<Operation>, d: Doc) {
    forall k :: 0 <= k < |log| && log[k].id.replica == d.self ==>
      log[k].id in d.applied && log[k].id.counter < d.nextCounter
  }

  ghost predicate Around(d: Doc, op: Operation, index: nat)
    requires op.Insert?
  {
    index <= |d.stream| && op.left == LeftAt(d, index) && op.right == RightAt(d, index)
  }

  /** The operation is one the document can generate now. */
  ghost predicate IssuedBy(reg: Registry, d: Doc, op: Operation) {
    && op.id == FreshId(d) && op.id.Valid() && op.lamport == d.lamport + 1
    && match op
       case Insert(_, _, _, _, _, _, _) => CheckInsert(reg, op).None? && exists index :: Around(d, op, index)
       case Delete(_, _, target) => target.Some? && Present(d, target)
       case SetAttr(_, _, target, name, value) =>
         target.Some? && Present(d, target) && reg.Allows(d.stream[IndexOf(d, target.value)].kind, name, value)
  }

  // ------------------------------------------------------- other documents

  lemma CanonAppend(log: seq<Operation>, op: Operation)
    ensures Canon(log + [op]) == if op.Insert? then Integrate(Canon(log), NodeOfOp(op)) else Canon(log)
  {
    assert Front(log + [op]) == log;
  }

  lemma ItemExtend(log: seq<Operation>, op: Operation, applied: set<OpId>, item: Item)
    requires op.id !in applied && ItemOk(log, applied, item)
    ensures ItemOk(log + [op], applied, item)
  {
    var log' := log + [op];
    assert forall k :: 0 <= k < |log| ==> log'[k] == log[k];
    var c :| Content(log, c, item);
    assert Content(log', c, item);
    forall k ensures Erased(log', applied, k, item.id) <==> Erased(log, applied, k, item.id) {}
    forall name ensures RegisterOk(log', applied, item.id, item.attrs, name) {
      assert RegisterOk(log, applied, item.id, item.attrs, name);
      RegisterExtend(log, op, applied, item.id, item.attrs, name);
    }
  }

  lemma RegisterExtend(log: seq<Operation>, op: Operation, applied: set<OpId>, id: OpId, attrs: AttrMap, name: Bytes)
    requires op.id !in applied && RegisterOk(log, applied, id, attrs, name)
    ensures RegisterOk(log + [op], applied, id, attrs, name)
  {
    var log' := log + [op];
    forall k ensures Wrote(log', applied, k, id, name) <==> Wrote(log, applied, k, id, name) {}
    if name in attrs {
      var w :| Wins(log, applied, w, id, name, attrs[name]);
      assert log'[w] == log[w];
      assert Wins(log', applied, w, id, name, attrs[name]);
    }
  }

  lemma NotPresent(log: seq<Operation>, d: Doc, id: OpId)
    requires CanonHolds(log) && Ordered(log, d) && id !in d.applied
    ensures IndexOf(d, id) < 0
  {
    hide CanonHolds, Ordered;
    if IndexOf(d, id) >= 0 { PresentApplied(log, d, id); }
  }

  lemma PartExtend(log: seq<Operation>, op: Operation, d: Doc, m: seq<int>) returns (m': seq<int>)
    requires Part(Skel(d.stream), Canon(log), m)
    ensures Part(Skel(d.stream), Canon(log + [op]), m')
  {
    hide Canon, Part, Boundary, Skip;
    m' := m;
    CanonAppend(log, op);
    if op.Insert? {
      var g := Canon(log);
      IntegrateKeeps(g, NodeOfOp(op));
      m' := PartTrans(Skel(d.stream), g, Canon(log + [op]), m, Skip(|g|, Boundary(g, NodeOfOp(op)) + 1));
    }
  }

  lemma OrderedExtend(log: seq<Operation>, op: Operation, d: Doc)
    requires Ordered(log, d) && CanonHolds(log) && op.id !in d.applied
    ensures Ordered(log + [op], d)
  {
    NotPresent(log, d, op.id);
    hide CanonHolds, Canon, Part, Closed, IndexOf;
    var m :| Part(Skel(d.stream), Canon(log), m);
    var m' := PartExtend(log, op, d, m);
    assert forall k :: 0 <= k < |log| ==> (log + [op])[k] == log[k];
  }

  lemma KnownExtend(log: seq<Operation>, op: Operation, applied: set<OpId>)
    requires Known(log, applied)
    ensures Known(log + [op], applied)
  {
    forall id | id in applied ensures InHistory(log + [op], id) {
      var k :| 0 <= k < |log| && log[k].id == id;
      assert (log + [op])[k].id == id;
    }
  }

  lemma OthersExtend(log: seq<Operation>, op: Operation, d: Doc)
    requires Supported(log, d) && PendingKnown(log, d) && ClockAbove(log, d) && op.id !in d.applied
    ensures Supported(log + [op], d) && PendingKnown(log + [op], d) && ClockAbove(log + [op], d)
  {
    hide Ready;
    assert forall k :: 0 <= k < |log| ==> (log + [op])[k] == log[k];
  }

  /** A document that has not applied the new operation is unaffected by it. */
  lemma ExtendCore(log: seq<Operation>, op: Operation, d: Doc)
    requires CoreOk(log, d) && CanonHolds(log) && op.id !in d.applied
    ensures CoreOk(log + [op], d)
  {
    hide ItemOk, Ordered, Known, Supported, PendingKnown, ClockAbove, CanonHolds, C.Exact;
    KnownExtend(log, op, d.applied);
    OrderedExtend(log, op, d);
    OthersExtend(log, op, d);
    forall i | 0 <= i < |d.stream| ensures ItemOk(log + [op], d.applied, d.stream[i]) {
      ItemExtend(log, op, d.applied, d.stream[i]);
    }
  }

  // ------------------------------------------------------------ the history

  /** An adjacent pair of a part: nothing of the part stands between its images. */
  lemma AroundPositions(g: seq<Node>, d: Doc, op: Operation, index: nat, m: seq<int>)
    requires op.Insert? && Around(d, op, index)
    requires Part(Skel(d.stream), g, m) && Unique(g)
    ensures Has(g, op.left) && LeftPos(g, op.left) == P.Up(m, |g|, index - 1)
    ensures Has(g, op.right) && RightPos(g, op.right) == P.Up(m, |g|, index)
  {
    var s := Skel(d.stream);
    PartUnique(s, g, m);
    if index > 0 { FindAt(s, index - 1); }
    if index < |s| { FindAt(s, index); }
    PartAnchors(s, g, m, op.left);
    PartAnchors(s, g, m, op.right);
  }

  /** An insert between two neighbours of any document is well formed for the
      observer of the whole history. */
  lemma AroundWellFormed(g: seq<Node>, d: Doc, op: Operation, index: nat, m: seq<int>)
    requires op.Insert? && Around(d, op, index)
    requires Part(Skel(d.stream), g, m) && Tree(g) && Closed(Skel(d.stream)) && Find(g, op.id) < 0
    ensures WellFormed(g, NodeOfOp(op))
  {
    var s := Skel(d.stream);
    AroundPositions(g, d, op, index, m);
    P.UpMonotone(m, |g|, index - 1, index);
    if index < |s| {
      PartTree(s, g, m);
      PartAnchors(s, g, m, s[index].left);
      assert ShapeOf(s).lp[index] < index;
      P.UpMonotone(m, |g|, LeftPos(s, s[index].left), index - 1);
    }
  }

  /** Nothing the replica issued itself stands between the anchors. */
  lemma NoOwnBetween(log: seq<Operation>, d: Doc, op: Operation, index: nat, m: seq<int>, x: int)
    requires op.Insert? && Around(d, op, index) && Ordered(log, d) && Own(log, d) && CanonHolds(log)
    requires op.id.replica == d.self
    requires Part(Skel(d.stream), Canon(log), m) && Unique(Canon(log))
    requires LeftPos(Canon(log), op.left) < x < RightPos(Canon(log), op.right)
    ensures Canon(log)[x].id.replica != d.self
  {
    var g, s := Canon(log), Skel(d.stream);
    if g[x].id.replica == d.self {
      assert g[x] in g;
      var k :| 0 <= k < |log| && log[k].Insert? && NodeOfOp(log[k]) == g[x];
      var q := IndexOf(d, g[x].id);
      assert s[q].id == g[x].id;
      FindAt(g, x);
      FindAt(g, m[q]);
      AroundPositions(g, d, op, index, m);
      P.UpMonotone(m, |g|, index - 1, q);
      P.UpMonotone(m, |g|, q, index);
      assert false;
    }
  }

  /** The new item against a rival that stands behind it. */
  lemma NewBelow(log: seq<Operation>, d: Doc, op: Operation, index: nat, m: seq<int>, j: int)
    requires op.Insert? && Around(d, op, index) && Ordered(log, d) && Own(log, d) && CanonHolds(log)
    requires op.id.replica == d.self
    requires Part(Skel(d.stream), Canon(log), m) && Tree(Canon(log)) && Sorted(Canon(log))
    requires WellFormed(Canon(log), NodeOfOp(op))
    requires Rivals(Integrate(Canon(log), NodeOfOp(op)), Boundary(Canon(log), NodeOfOp(op)) + 1, j)
    ensures op.id.replica < Integrate(Canon(log), NodeOfOp(op))[j].id.replica
  {
    hide Around, Ordered, Own, CanonHolds, Part, Tree, Sorted, WellFormed, Boundary, Canon;
    var g, n := Canon(log), NodeOfOp(op);
    ArrivalBelow(g, n, j);
    TreeUnique(g);
    NoOwnBetween(log, d, op, index, m, j - 1);
    assert Integrate(g, n)[j] == g[j - 1];
  }

  /** Old rivals stay in strict order. */
  lemma OldPair(g: seq<Node>, n: Node, i: int, j: int)
    requires Tree(g) && Strict(g) && WellFormed(g, n)
    requires Rivals(Integrate(g, n), i, j) && i != Boundary(g, n) + 1 && j != Boundary(g, n) + 1
    ensures Integrate(g, n)[i].id.replica < Integrate(g, n)[j].id.replica
  {
    hide Tree, WellFormed, Boundary;
    ArrivalOld(g, n, i, j);
    var x := Boundary(g, n) + 1;
    assert Rivals(g, if i < x then i else i - 1, if j < x then j else j - 1);
  }

  lemma StrictGrows(log: seq<Operation>, d: Doc, op: Operation, index: nat, m: seq<int>)
    requires op.Insert? && Around(d, op, index) && Ordered(log, d) && Own(log, d) && CanonHolds(log)
    requires op.id.replica == d.self
    requires Part(Skel(d.stream), Canon(log), m) && Tree(Canon(log)) && Strict(Canon(log))
    requires WellFormed(Canon(log), NodeOfOp(op))
    ensures Strict(Integrate(Canon(log), NodeOfOp(op)))
  {
    var g, n := Canon(log), NodeOfOp(op);
    var g', x := Integrate(g, n), Boundary(g, n) + 1;
    StrictIsSorted(g);
    forall i, j | Rivals(g', i, j) ensures g'[i].id.replica < g'[j].id.replica {
      hide *;
      if j == x {
        ArrivalAbove(g, n, i);
        NewPlaced(g, n);
      } else if i == x {
        NewBelow(log, d, op, index, m, j);
        NewPlaced(g, n);
      } else {
        OldPair(g, n, i, j);
      }
    }
  }

  lemma NewPlaced(g: seq<Node>, n: Node)
    ensures 0 <= Boundary(g, n) + 1 < |Integrate(g, n)| && Integrate(g, n)[Boundary(g, n) + 1] == n
  {
    hide Boundary;
  }

  lemma CanonHoldsAppend(log: seq<Operation>, op: Operation)
    requires CanonHolds(log)
    ensures CanonHolds(log + [op])
  {
    var log' := log + [op];
    CanonAppend(log, op);
    forall n ensures n in Canon(log') <==> exists k :: 0 <= k < |log'| && log'[k].Insert? && NodeOfOp(log'[k]) == n {
      if op.Insert? {
        IntegrateNodes(Canon(log), NodeOfOp(op), n);
        assert log'[|log|] == op;
      }
      if k :| 0 <= k < |log| && log[k].Insert? && NodeOfOp(log[k]) == n {
        assert log'[k] == log[k];
      }
      if k :| 0 <= k < |log'| && log'[k].Insert? && NodeOfOp(log'[k]) == n {
        assert k < |log| ==> log[k] == log'[k];
      }
    }
  }

  lemma NotYetThere(log: seq<Operation>, id: OpId)
    requires CanonHolds(log) && !InHistory(log, id)
    ensures Find(Canon(log), id) < 0
  {
    forall i | 0 <= i < |Canon(log)| ensures Canon(log)[i].id != id {
      assert Canon(log)[i] in Canon(log);
    }
  }

  /** The observer's stream keeps its shape when a replica inserts locally. */
  lemma CanonGrows(reg: Registry, log: seq<Operation>, d: Doc, op: Operation)
    requires LogOk(reg, log) && Ordered(log, d) && Own(log, d) && IssuedBy(reg, d, op) && !InHistory(log, op.id)
    ensures Tree(Canon(log + [op])) && Strict(Canon(log + [op]))
  {
    CanonAppend(log, op);
    if op.Insert? {
      var index :| Around(d, op, index);
      var m :| Part(Skel(d.stream), Canon(log), m);
      NotYetThere(log, op.id);
      AroundWellFormed(Canon(log), d, op, index, m);
      StrictIsSorted(Canon(log));
      IntegrateGrows(Canon(log), NodeOfOp(op));
      StrictGrows(log, d, op, index, m);
    }
  }

  lemma PresentBefore(log: seq<Operation>, op: Operation, d: Doc, a: Option<OpId>)
    requires CanonHolds(log) && Ordered(log, d) && Present(d, a)
    ensures InsertBefore(log + [op], |log|, a)
  {
    if a.Some? {
      PresentApplied(log, d, a.value);
      var k :| 0 <= k < |log| && log[k].Insert? && log[k].id == a.value;
      assert (log + [op])[k] == log[k];
    }
  }

  lemma AroundPresent(d: Doc, op: Operation, index: nat)
    requires op.Insert? && Around(d, op, index)
    ensures Present(d, op.left) && Present(d, op.right)
  {
  }

  lemma CausalAppend(reg: Registry, log: seq<Operation>, d: Doc, op: Operation)
    requires CanonHolds(log) && Causal(log) && Ordered(log, d) && IssuedBy(reg, d, op)
    ensures Causal(log + [op])
  {
    var log' := log + [op];
    forall k {:trigger DependsBefore(log', k)} | 0 <= k < |log'| ensures DependsBefore(log', k) {
      if k < |log| {
        assert DependsBefore(log, k);
        assert forall j :: 0 <= j < |log| ==> log'[j] == log[j];
      } else if op.Insert? {
        var index :| Around(d, op, index);
        AroundPresent(d, op, index);
        PresentBefore(log, op, d, op.left);
        PresentBefore(log, op, d, op.right);
      } else {
        PresentBefore(log, op, d, op.target);
      }
    }
  }

  /** An operation issued earlier refers to items issued earlier still. */
  lemma LegalBefore(reg: Registry, log: seq<Operation>, op: Operation, k: int)
    requires UniqueIds(log) && Causal(log) && Legal(reg, log) && !InHistory(log, op.id) && 0 <= k < |log|
    ensures LegalAt(reg, log + [op], k)
  {
    hide CheckInsert;
    var log' := log + [op];
    assert LegalAt(reg, log, k) && DependsBefore(log, k);
    assert forall j :: 0 <= j < |log| ==> log'[j] == log[j];
  }

  /** The write just issued fits the kind of its target. */
  lemma LegalLast(reg: Registry, log: seq<Operation>, d: Doc, op: Operation)
    requires UniqueIds(log) && ItemsOk(log, d) && IssuedBy(reg, d, op) && !InHistory(log, op.id)
    ensures LegalAt(reg, log + [op], |log|)
  {
    var log' := log + [op];
    if op.SetAttr? {
      var i := IndexOf(d, op.target.value);
      var c :| Content(log, c, d.stream[i]);
      forall j | 0 <= j < |log'| && log'[j].Insert? && op.target == Some(log'[j].id) ensures j == c {
        if j < |log| { IdAt(log, j, c); }
      }
    }
  }

  lemma LegalAppend(reg: Registry, log: seq<Operation>, d: Doc, op: Operation)
    requires LogOk(reg, log) && CoreOk(log, d) && IssuedBy(reg, d, op) && !InHistory(log, op.id)
    ensures Legal(reg, log + [op])
  {
    hide LegalAt, UniqueIds, UniqueStamps, ValidIds, Causal, Tree, Strict, CanonHolds, ItemsOk, Ordered, Supported,
         Known, PendingKnown, ClockAbove, C.Exact, IssuedBy, InHistory;
    var log' := log + [op];
    forall k {:trigger LegalAt(reg, log', k)} | 0 <= k < |log'| ensures LegalAt(reg, log', k) {
      if k < |log| {
        LegalBefore(reg, log, op, k);
      } else {
        LegalLast(reg, log, d, op);
      }
    }
  }

  lemma UniqueAppend(reg: Registry, log: seq<Operation>, d: Doc, op: Operation)
    requires UniqueIds(log) && UniqueStamps(log) && ValidIds(log) && Own(log, d) && ClockAbove(log, d)
    requires IssuedBy(reg, d, op)
    ensures UniqueIds(log + [op]) && UniqueStamps(log + [op]) && ValidIds(log + [op]) && !InHistory(log, op.id)
  {
  }

  /** Issuing keeps the history well ordered. */
  lemma IssueKeepsLog(reg: Registry, log: seq<Operation>, d: Doc, op: Operation)
    requires LogOk(reg, log) && CoreOk(log, d) && Own(log, d) && IssuedBy(reg, d, op)
    ensures LogOk(reg, log + [op]) && !InHistory(log, op.id)
  {
    UniqueAppend(reg, log, d, op);
    CanonGrows(reg, log, d, op);
    CanonHoldsAppend(log, op);
    CausalAppend(reg, log, d, op);
    LegalAppend(reg, log, d, op);
  }
}
