/** Convergence: replicas that have received the same operations hold the same
    document, whatever the order, timing and duplication of deliveries. */
module Convergence {
  import opened Types
  import opened Order
  import opened State
  import opened History
  import opened Issuing
  import opened Network
  import Delivery
  import C = Counters

  // ------------------------------------------------------ the set of applied ids

  lemma AnchorsCarry(log: seq<Operation>, d1: Doc, d2: Doc, k: int, a: Option<OpId>)
    requires Ordered(log, d1) && Ordered(log, d2) && InsertBefore(log, k, a) && Present(d1, a) && 0 <= k < |log|
    requires forall j :: 0 <= j < k && log[j].id in d1.applied ==> log[j].id in d2.applied
    ensures Present(d2, a)
  {
  }

  /** What one document found ready, the other finds ready too. */
  lemma ReadyCarries(log: seq<Operation>, d1: Doc, d2: Doc, k: int)
    requires Ordered(log, d1) && Ordered(log, d2) && 0 <= k < |log| && DependsBefore(log, k) && Ready(d1, log[k])
    requires forall j :: 0 <= j < k && log[j].id in d1.applied ==> log[j].id in d2.applied
    ensures Ready(d2, log[k])
  {
    hide Ordered;
    match log[k]
    case Insert(_, _, left, right, _, _, _) =>
      AnchorsCarry(log, d1, d2, k, left);
      AnchorsCarry(log, d1, d2, k, right);
    case Delete(_, _, target) => AnchorsCarry(log, d1, d2, k, target);
    case SetAttr(_, _, target, _, _) => AnchorsCarry(log, d1, d2, k, target);
  }

  /** A delivered operation that is ready is applied. */
  lemma ReadyIsApplied(log: seq<Operation>, d: Doc, k: int)
    requires UniqueIds(log) && PendingKnown(log, d) && Settled(d) && 0 <= k < |log|
    requires Ready(d, log[k]) && log[k].id in d.applied + PendingIds(d)
    ensures log[k].id in d.applied
  {
    forall i | 0 <= i < |d.pending| ensures d.pending[i].id != log[k].id {
      var j :| 0 <= j < |log| && log[j] == d.pending[i];
      if log[j].id == log[k].id {
        IdAt(log, j, k);
      }
    }
  }

  /** By induction on the order of issue, the delivered set decides what is applied. */
  lemma {:induction false} AppliedCarries(reg: Registry, log: seq<Operation>, d1: Doc, d2: Doc, seen: set<OpId>, k: int)
    requires LogOk(reg, log) && NodeOk(log, d1, seen) && NodeOk(log, d2, seen) && 0 <= k < |log|
    requires log[k].id in d1.applied
    ensures log[k].id in d2.applied
    decreases k
  {
    forall j | 0 <= j < k && log[j].id in d1.applied ensures log[j].id in d2.applied {
      AppliedCarries(reg, log, d1, d2, seen, j);
    }
    hide Ordered, ItemsOk, Settled, Ready, Legal, Tree, Strict, CanonHolds;
    assert DependsBefore(log, k);
    assert Ready(d1, log[k]);
    ReadyCarries(log, d1, d2, k);
    ReadyIsApplied(log, d2, k);
  }

  lemma AppliedWithin(reg: Registry, log: seq<Operation>, d1: Doc, d2: Doc, seen: set<OpId>)
    requires LogOk(reg, log) && NodeOk(log, d1, seen) && NodeOk(log, d2, seen)
    ensures d1.applied <= d2.applied
  {
    forall id | id in d1.applied ensures id in d2.applied {
      assert InHistory(log, id);
      var k :| 0 <= k < |log| && log[k].id == id;
      AppliedCarries(reg, log, d1, d2, seen, k);
    }
  }

  // ----------------------------------------------------------------- the stream

  /** Every place of the observer's stream that one document holds, any document
      that has applied as much holds too. */
  lemma PlacesWithin(log: seq<Operation>, d1: Doc, d2: Doc, m1: seq<int>, m2: seq<int>, x: int)
    requires CanonHolds(log) && Unique(Canon(log)) && Ordered(log, d1) && Ordered(log, d2)
    requires Part(Skel(d1.stream), Canon(log), m1) && Part(Skel(d2.stream), Canon(log), m2)
    requires d1.applied <= d2.applied && x in m1
    ensures x in m2
  {
    var g := Canon(log);
    var i :| 0 <= i < |m1| && m1[i] == x;
    assert Skel(d1.stream)[i] == g[x] && g[x] in g;
    var k :| 0 <= k < |log| && log[k].Insert? && NodeOfOp(log[k]) == g[x];
    assert IndexOf(d1, log[k].id) >= 0;
    var q := IndexOf(d2, log[k].id);
    assert Skel(d2.stream)[q] == g[m2[q]];
    FindAt(g, x);
    FindAt(g, m2[q]);
  }

  lemma SameOrder(log: seq<Operation>, d1: Doc, d2: Doc)
    requires CanonHolds(log) && Unique(Canon(log)) && Ordered(log, d1) && Ordered(log, d2)
    requires d1.applied == d2.applied
    ensures Skel(d1.stream) == Skel(d2.stream)
  {
    var m1 :| Part(Skel(d1.stream), Canon(log), m1);
    var m2 :| Part(Skel(d2.stream), Canon(log), m2);
    forall x ensures x in m1 <==> x in m2 {
      if x in m1 { PlacesWithin(log, d1, d2, m1, m2, x); }
      if x in m2 { PlacesWithin(log, d2, d1, m2, m1, x); }
    }
    PartsAgree(Skel(d1.stream), Skel(d2.stream), Canon(log), m1, m2);
  }

  /** A register is decided by the applied writes. */
  lemma RegisterAgrees(log: seq<Operation>, applied: set<OpId>, id: OpId, a: AttrMap, b: AttrMap, name: Bytes)
    requires UniqueIds(log) && UniqueStamps(log)
    requires RegisterOk(log, applied, id, a, name) && RegisterOk(log, applied, id, b, name)
    ensures (name in a <==> name in b) && (name in a ==> a[name] == b[name])
  {
    if name in a && name in b {
      var v :| Wins(log, applied, v, id, name, a[name]);
      var w :| Wins(log, applied, w, id, name, b[name]);
      assert !WriteBelow(a[name].lamport, a[name].writer, log[w].lamport, log[w].id.replica);
      assert !WriteBelow(b[name].lamport, b[name].writer, log[v].lamport, log[v].id.replica);
      assert v == w;
    }
  }

  lemma ItemAgrees(log: seq<Operation>, applied: set<OpId>, a: Item, b: Item)
    requires UniqueIds(log) && UniqueStamps(log)
    requires ItemOk(log, applied, a) && ItemOk(log, applied, b) && NodeOf(a) == NodeOf(b)
    ensures a == b
  {
    var j :| Content(log, j, a);
    var k :| Content(log, k, b);
    IdAt(log, j, k);
    forall name ensures (name in a.attrs <==> name in b.attrs) && (name in a.attrs ==> a.attrs[name] == b.attrs[name]) {
      assert RegisterOk(log, applied, a.id, a.attrs, name) && RegisterOk(log, applied, b.id, b.attrs, name);
      RegisterAgrees(log, applied, a.id, a.attrs, b.attrs, name);
    }
    assert a.attrs == b.attrs;
  }

  lemma SameStream(log: seq<Operation>, d1: Doc, d2: Doc)
    requires UniqueIds(log) && UniqueStamps(log) && CanonHolds(log) && Unique(Canon(log))
    requires Ordered(log, d1) && Ordered(log, d2) && ItemsOk(log, d1) && ItemsOk(log, d2)
    requires d1.applied == d2.applied
    ensures d1.stream == d2.stream
  {
    SameOrder(log, d1, d2);
    assert |Skel(d1.stream)| == |d1.stream|;
    forall i | 0 <= i < |d1.stream| ensures d1.stream[i] == d2.stream[i] {
      assert Skel(d1.stream)[i] == Skel(d2.stream)[i];
      ItemAgrees(log, d1.applied, d1.stream[i], d2.stream[i]);
    }
  }

  // ---------------------------------------------------------------- the theorem

  /** Two documents with the same items (order, origins, tombstones, registers),
      the same applied ids, the same counter summary and the same waiting ids. */
  ghost predicate Equivalent(d1: Doc, d2: Doc) {
    && d1.stream == d2.stream && d1.applied == d2.applied && d1.summary == d2.summary
    && PendingIds(d1) - d1.applied == PendingIds(d2) - d2.applied
  }

  lemma SameSeenSameState(reg: Registry, log: seq<Operation>, d1: Doc, d2: Doc, seen: set<OpId>)
    requires LogOk(reg, log) && NodeOk(log, d1, seen) && NodeOk(log, d2, seen)
    ensures Equivalent(d1, d2)
  {
    hide Settled, Own, Supported, PendingKnown, ClockAbove, Known, Legal, Causal;
    AppliedWithin(reg, log, d1, d2, seen);
    AppliedWithin(reg, log, d2, d1, seen);
    SameStream(log, d1, d2);
    C.ExactUnique(d1.summary, d2.summary, d1.applied);
    assert PendingIds(d1) - d1.applied == seen - d1.applied;
    assert PendingIds(d2) - d2.applied == seen - d2.applied;
  }

  /** Strong convergence: after any run, two replicas that have received the same
      operations are in equivalent states, with nothing integrable left waiting. */
  lemma StrongConvergence(reg: Registry, replicas: set<nat>, events: seq<Event>, a: nat, b: nat)
    requires Consistent(reg)
    requires var net := Run(reg, replicas, events);
             a in net.docs && b in net.docs && a in net.seen && b in net.seen && net.seen[a] == net.seen[b]
    ensures var net := Run(reg, replicas, events);
            Equivalent(net.docs[a], net.docs[b]) && Settled(net.docs[a]) && Settled(net.docs[b])
  {
    hide NodeOk, LogOk, Equivalent, Settled;
    var net := Run(reg, replicas, events);
    RunOk(reg, replicas, events);
    SettledNode(net.log, net.docs[a], net.seen[a]);
    SettledNode(net.log, net.docs[b], net.seen[b]);
    SameSeenSameState(reg, net.log, net.docs[a], net.docs[b], net.seen[a]);
  }

  lemma SettledNode(log: seq<Operation>, d: Doc, seen: set<OpId>)
    requires NodeOk(log, d, seen)
    ensures Settled(d)
  {
  }

  /** A replica that has received everything issued has applied everything. */
  lemma {:induction false} AllApplied(reg: Registry, log: seq<Operation>, d: Doc, seen: set<OpId>, k: int)
    requires LogOk(reg, log) && NodeOk(log, d, seen) && 0 <= k < |log|
    requires forall j :: 0 <= j <= k ==> log[j].id in seen
    ensures log[k].id in d.applied
    decreases k
  {
    forall j | 0 <= j < k ensures log[j].id in d.applied {
      AllApplied(reg, log, d, seen, j);
    }
    assert DependsBefore(log, k);
    ReadyWhenSupplied(log, d, k);
    ReadyIsApplied(log, d, k);
  }

  lemma ReadyWhenSupplied(log: seq<Operation>, d: Doc, k: int)
    requires Ordered(log, d) && 0 <= k < |log| && DependsBefore(log, k)
    requires forall j :: 0 <= j < k ==> log[j].id in d.applied
    ensures Ready(d, log[k])
  {
  }

  /** Complete delivery drains the buffer: every issued operation is applied. */
  lemma CompleteDelivery(reg: Registry, replicas: set<nat>, events: seq<Event>, a: nat)
    requires Consistent(reg)
    requires var net := Run(reg, replicas, events);
             a in net.docs && a in net.seen && forall k :: 0 <= k < |net.log| ==> net.log[k].id in net.seen[a]
    ensures var net := Run(reg, replicas, events);
            forall k :: 0 <= k < |net.log| ==> net.log[k].id in net.docs[a].applied
    ensures var net := Run(reg, replicas, events);
            Skel(net.docs[a].stream) == Canon(net.log)
  {
    hide NodeOk, LogOk;
    var net := Run(reg, replicas, events);
    RunOk(reg, replicas, events);
    forall k | 0 <= k < |net.log| ensures net.log[k].id in net.docs[a].applied {
      AllApplied(reg, net.log, net.docs[a], net.seen[a], k);
    }
    CompleteStream(reg, net.log, net.docs[a], net.seen[a]);
  }

  lemma CompleteStream(reg: Registry, log: seq<Operation>, d: Doc, seen: set<OpId>)
    requires LogOk(reg, log) && NodeOk(log, d, seen)
    requires forall k :: 0 <= k < |log| ==> log[k].id in d.applied
    ensures Skel(d.stream) == Canon(log)
  {
    hide Settled, Own, Supported, PendingKnown, ClockAbove, ItemsOk, Legal, Causal;
    var g, s := Canon(log), Skel(d.stream);
    var m :| Part(s, g, m);
    forall x | 0 <= x < |g| ensures x in m {
      EveryPlace(log, d, m, x);
    }
    WholePart(s, g, m);
  }

  lemma EveryPlace(log: seq<Operation>, d: Doc, m: seq<int>, x: int)
    requires CanonHolds(log) && Unique(Canon(log)) && Ordered(log, d) && Part(Skel(d.stream), Canon(log), m)
    requires (forall k :: 0 <= k < |log| ==> log[k].id in d.applied) && 0 <= x < |Canon(log)|
    ensures x in m
  {
    var g := Canon(log);
    assert g[x] in g;
    var k :| 0 <= k < |log| && log[k].Insert? && NodeOfOp(log[k]) == g[x];
    var q := IndexOf(d, log[k].id);
    assert Skel(d.stream)[q] == g[m[q]];
    FindAt(g, x);
    FindAt(g, m[q]);
  }

  lemma WholePart(s: seq<Node>, g: seq<Node>, m: seq<int>)
    requires Part(s, g, m) && forall x :: 0 <= x < |g| ==> x in m
    ensures s == g
  {
    var full := seq(|g|, i => i);
    assert Part(g, g, full);
    forall x ensures x in m <==> x in full {
      assert 0 <= x < |g| ==> full[x] == x;
    }
    PartsAgree(s, g, g, m, full);
  }

  // ------------------------------------------------------- safety of every step

  /** Every reachable stream is a tree without crossings in which each item stands
      between its own anchors. */
  lemma ReachableTree(reg: Registry, replicas: set<nat>, events: seq<Event>, a: nat)
    requires Consistent(reg) && a in Run(reg, replicas, events).docs
    ensures Tree(Skel(Run(reg, replicas, events).docs[a].stream))
  {
    hide Tree;
    RunOk(reg, replicas, events);
    var net := Run(reg, replicas, events);
    Delivery.UniqueStream(net.log, net.docs[a]);
  }
}
