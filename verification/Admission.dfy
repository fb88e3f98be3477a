/** Operations from outside the replicas' own editing, restore batches among them:
    when the history may take them in. */
module Admission {
  import opened Types
  import opened Order
  import opened Replay
  import opened State
  import opened History
  import opened Issuing
  import P = Positions

  /** The new item meets no rival of its own replica. */
  ghost predicate NoTie(g: seq<Node>, n: Node) {
    var g', x := Integrate(g, n), Boundary(g, n) + 1;
    forall i :: Rivals(g', i, x) || Rivals(g', x, i) ==> g'[i].id.replica != n.id.replica
  }

  /** An insert is well formed for the history and ties with nothing. */
  ghost predicate InsertAdmitted(log: seq<Operation>, op: Operation)
    requires op.Insert?
  {
    && (op.kind == Delimiter ==> op.scalar == 0)
    && WellFormed(Canon(log), NodeOfOp(op)) && NoTie(Canon(log), NodeOfOp(op))
  }

  /** A fresh, stamped, causal and legal operation of a replica that is not running. */
  ghost predicate Admits(reg: Registry, log: seq<Operation>, running: set<nat>, op: Operation) {
    && op.id.Valid() && op.id.replica !in running && !InHistory(log, op.id) && op.lamport >= 1
    && (forall k :: 0 <= k < |log| && log[k].id.replica == op.id.replica ==> log[k].lamport != op.lamport)
    && DependsBefore(log + [op], |log|) && LegalAt(reg, log + [op], |log|)
    && (op.Insert? ==> InsertAdmitted(log, op))
  }

  lemma UniqueAdmitted(log: seq<Operation>, op: Operation)
    requires UniqueIds(log) && UniqueStamps(log) && ValidIds(log) && op.id.Valid() && !InHistory(log, op.id)
    requires forall k :: 0 <= k < |log| && log[k].id.replica == op.id.replica ==> log[k].lamport != op.lamport
    ensures UniqueIds(log + [op]) && UniqueStamps(log + [op]) && ValidIds(log + [op])
  {
  }

  lemma DependsLater(log: seq<Operation>, op: Operation, k: int)
    requires 0 <= k < |log| && DependsBefore(log, k)
    ensures DependsBefore(log + [op], k)
  {
    assert forall j :: 0 <= j < |log| ==> (log + [op])[j] == log[j];
  }

  lemma CausalAdmitted(log: seq<Operation>, op: Operation)
    requires Causal(log) && DependsBefore(log + [op], |log|)
    ensures Causal(log + [op])
  {
    hide DependsBefore;
    var log' := log + [op];
    forall k {:trigger DependsBefore(log', k)} | 0 <= k < |log'| ensures DependsBefore(log', k) {
      if k < |log| {
        assert DependsBefore(log, k);
        DependsLater(log, op, k);
      }
    }
  }

  lemma LegalAdmitted(reg: Registry, log: seq<Operation>, op: Operation)
    requires UniqueIds(log) && Causal(log) && Legal(reg, log) && !InHistory(log, op.id)
             && LegalAt(reg, log + [op], |log|)
    ensures Legal(reg, log + [op])
  {
    hide LegalAt, UniqueIds, Causal, Legal, InHistory;
    var log' := log + [op];
    forall k {:trigger LegalAt(reg, log', k)} | 0 <= k < |log'| ensures LegalAt(reg, log', k) {
      if k < |log| { LegalBefore(reg, log, op, k); }
    }
    LegalAll(reg, log');
  }

  lemma LegalAll(reg: Registry, log: seq<Operation>)
    requires forall k {:trigger LegalAt(reg, log, k)} :: 0 <= k < |log| ==> LegalAt(reg, log, k)
    ensures Legal(reg, log)
  {
    hide LegalAt;
  }

  lemma SortedPair(g: seq<Node>, i: int, j: int)
    requires Sorted(g) && Rivals(g, i, j)
    ensures g[i].id.replica <= g[j].id.replica
  {
    assert P.Rivals(ShapeOf(g), i, j);
  }

  lemma StrictAdmitted(g: seq<Node>, n: Node)
    requires Tree(g) && Strict(g) && WellFormed(g, n) && NoTie(g, n)
    ensures Tree(Integrate(g, n)) && Strict(Integrate(g, n))
  {
    StrictIsSorted(g);
    IntegrateGrows(g, n);
    NewPlaced(g, n);
    var g', x := Integrate(g, n), Boundary(g, n) + 1;
    hide Tree, Sorted, WellFormed, Boundary;
    forall i, j | Rivals(g', i, j) ensures g'[i].id.replica < g'[j].id.replica {
      if i == x || j == x { SortedPair(g', i, j); } else { OldPair(g, n, i, j); }
    }
  }

  /** The history stays well ordered. */
  lemma AdmitKeepsLog(reg: Registry, log: seq<Operation>, running: set<nat>, op: Operation)
    requires LogOk(reg, log) && Admits(reg, log, running, op)
    ensures LogOk(reg, log + [op])
  {
    hide UniqueIds, UniqueStamps, ValidIds, Causal, Legal, Tree, Strict, CanonHolds, InHistory, DependsBefore, LegalAt,
         WellFormed, NoTie, Canon;
    UniqueAdmitted(log, op);
    CausalAdmitted(log, op);
    LegalAdmitted(reg, log, op);
    CanonAppend(log, op);
    CanonHoldsAppend(log, op);
    if op.Insert? { StrictAdmitted(Canon(log), NodeOfOp(op)); }
  }

  /** Whether an insert is well formed can be told at any document that holds its
      anchors: it is there exactly when it is for the whole history. */
  lemma WellFormedAnywhere(reg: Registry, log: seq<Operation>, d: Doc, n: Node)
    requires LogOk(reg, log) && CoreOk(log, d) && !InHistory(log, n.id)
    requires Has(Skel(d.stream), n.left) && Has(Skel(d.stream), n.right)
    ensures WellFormed(Skel(d.stream), n) <==> WellFormed(Canon(log), n)
  {
    var m :| Part(Skel(d.stream), Canon(log), m);
    NotYetThere(log, n.id);
    PartWellFormed(Skel(d.stream), Canon(log), m, n);
  }

  lemma PartWellFormed(t: seq<Node>, g: seq<Node>, m: seq<int>, n: Node)
    requires Part(t, g, m) && Tree(g) && Closed(t) && Find(g, n.id) < 0 && Has(t, n.left) && Has(t, n.right)
    ensures WellFormed(t, n) <==> WellFormed(g, n)
  {
    TreeUnique(g);
    PartAbsent(t, g, m, n.id);
    PartAnchors(t, g, m, n.left);
    PartAnchors(t, g, m, n.right);
    var l, r := LeftPos(t, n.left), RightPos(t, n.right);
    P.UpMonotone(m, |g|, l, r);
    if r < |t| {
      PartAnchors(t, g, m, t[r].left);
      P.UpMonotone(m, |g|, l, LeftPos(t, t[r].left));
    }
  }

  lemma PartAbsent(t: seq<Node>, g: seq<Node>, m: seq<int>, id: OpId)
    requires Part(t, g, m) && Find(g, id) < 0
    ensures Find(t, id) < 0
  {
    forall k | 0 <= k < |t| ensures t[k].id != id {
      assert t[k] == g[m[k]];
    }
  }
}
