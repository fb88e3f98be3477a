/** Any two replicas of a network are documents of one history, so a restore
    between them never trips over its own checks. */
module RestoreReach {
  import opened Types
  import opened Order
  import opened State
  import opened History
  import opened Network
  import opened LiveList
  import RP = RestorePlan
  import RC = RestoreComplete
  import R = Restore
  import Delivery
  import C = Counters

  // ------------------------------------------------------------------- contents

  lemma {:induction false} InitialAllowed(reg: Registry, kind: ItemKind, initial: seq<InitialAttr>, name: Bytes)
    requires forall i :: 0 <= i < |initial| ==> reg.Allows(kind, initial[i].name, initial[i].value)
    requires FirstInitial(initial, name).Some?
    ensures reg.Allows(kind, name, FirstInitial(initial, name).value)
  {
    if FirstInitial(initial[..|initial| - 1], name).Some? {
      InitialAllowed(reg, kind, initial[..|initial| - 1], name);
    }
  }

  /** The insert behind an item. */
  lemma InsertOf(log: seq<Operation>, applied: set<OpId>, x: Item) returns (k: int)
    requires ItemOk(log, applied, x)
    ensures Content(log, k, x)
  {
    k :| Content(log, k, x);
  }

  lemma RegisterAllowed(reg: Registry, log: seq<Operation>, applied: set<OpId>, x: Item, name: Bytes)
    requires UniqueIds(log) && Legal(reg, log) && ItemOk(log, applied, x) && name in x.attrs
    ensures reg.Allows(x.kind, name, x.attrs[name].value)
  {
    var k := InsertOf(log, applied, x);
    assert RegisterOk(log, applied, x.id, x.attrs, name);
    var w :| Wins(log, applied, w, x.id, name, x.attrs[name]);
    assert LegalAt(reg, log, w);
    if log[w].Insert? {
      IdAt(log, w, k);
      InitialAllowed(reg, log[w].kind, log[w].attrs, name);
    }
  }

  lemma ContentInsertable(reg: Registry, log: seq<Operation>, applied: set<OpId>, y: Item)
    requires UniqueIds(log) && Legal(reg, log) && ItemOk(log, applied, y)
    ensures RP.Insertable(reg, y)
  {
    var k := InsertOf(log, applied, y);
    assert LegalAt(reg, log, k);
    forall name | name in y.attrs ensures reg.Allows(y.kind, name, y.attrs[name].value) {
      RegisterAllowed(reg, log, applied, y, name);
    }
  }

  lemma ContentAgrees(reg: Registry, log: seq<Operation>, applied1: set<OpId>, applied2: set<OpId>,
                                         x: Item, y: Item)
    requires UniqueIds(log) && Legal(reg, log) && ItemOk(log, applied1, x) && ItemOk(log, applied2, y) && x.id == y.id
    ensures RP.Agree(reg, x, y)
  {
    var j := InsertOf(log, applied1, x);
    var k := InsertOf(log, applied2, y);
    IdAt(log, j, k);
    forall name | name in x.attrs ensures reg.names(x.kind, name) {
      RegisterAllowed(reg, log, applied1, x, name);
    }
    forall name | name in y.attrs ensures reg.Allows(y.kind, name, y.attrs[name].value) {
      RegisterAllowed(reg, log, applied2, y, name);
    }
  }

  // ---------------------------------------------------------------------- order

  /** Two streams that are parts of one stream agree on the order of shared items. */
  lemma PartsOrder(s1: seq<Node>, s2: seq<Node>, g: seq<Node>, m1: seq<int>, m2: seq<int>,
                                      p1: int, p2: int, q1: int, q2: int)
    requires Unique(g) && Part(s1, g, m1) && Part(s2, g, m2)
    requires 0 <= p1 < p2 < |s1| && 0 <= q1 < |s2| && 0 <= q2 < |s2|
    requires s1[p1].id == s2[q1].id && s1[p2].id == s2[q2].id
    ensures q1 < q2
  {
    FindAt(g, m1[p1]);
    FindAt(g, m1[p2]);
    FindAt(g, m2[q1]);
    FindAt(g, m2[q2]);
  }

  lemma RankBefore(s: seq<Item>, q1: int, q2: int)
    requires 0 <= q1 < q2 < |s| && !s[q1].tombstoned
    ensures Rank(s, q1) < Rank(s, q2)
  {
    hide LiveItems;
    RankNext(s, q1);
    RankMonotone(s, q1 + 1, q2);
  }

  lemma LiveOrder(log: seq<Operation>, d1: Doc, d2: Doc, i1: int, i2: int, j1: int, j2: int)
    requires Unique(Canon(log)) && Ordered(log, d1) && Ordered(log, d2)
    requires 0 <= i1 < i2 < |LiveItems(d1.stream)| && 0 <= j1 < |LiveItems(d2.stream)|
             && 0 <= j2 < |LiveItems(d2.stream)|
    requires LiveItems(d1.stream)[i1].id == LiveItems(d2.stream)[j1].id
    requires LiveItems(d1.stream)[i2].id == LiveItems(d2.stream)[j2].id
    ensures j1 < j2
  {
    hide LiveItems, Part, Unique, Rank;
    var m1 :| Part(Skel(d1.stream), Canon(log), m1);
    var m2 :| Part(Skel(d2.stream), Canon(log), m2);
    var p1 := PositionOf(d1.stream, i1);
    var p2 := PositionOf(d1.stream, i2);
    var q1 := PositionOf(d2.stream, j1);
    var q2 := PositionOf(d2.stream, j2);
    PositionsInOrder(d1.stream, p1, p2);
    PartsOrder(Skel(d1.stream), Skel(d2.stream), Canon(log), m1, m2, p1, p2, q1, q2);
    RankBefore(d2.stream, q1, q2);
  }

  // ------------------------------------------------------------------ the result

  /** An identity of the restore band beyond the stamp. */
  predicate Named(a: Option<OpId>, t: RP.Stamp) {
    a.Some? && a.value.replica == RP.RESTORE_REPLICA && a.value.counter > t.counter
  }

  /** No buffered operation refers to an identity that a restore after `t` may give out. */
  predicate NoneAwaited(d: Doc, t: RP.Stamp) {
    forall i :: 0 <= i < |d.pending| ==>
      match d.pending[i]
      case Insert(_, _, left, right, _, _, _) => !Named(left, t) && !Named(right, t)
      case Delete(_, _, target) => !Named(target, t)
      case SetAttr(_, _, target, _, _) => !Named(target, t)
  }

  lemma SettledWaits(d: Doc, t: RP.Stamp)
    requires Settled(d) && NoneAwaited(d, t)
    ensures RP.AllWait(d, t)
  {
    hide IndexOf;
    forall i | 0 <= i < |d.pending| ensures RP.Waits(d, t, d.pending[i]) {
      assert !Ready(d, d.pending[i]);
    }
  }

  lemma CoreSameHistory(reg: Registry, log: seq<Operation>, d1: Doc, d2: Doc)
    requires LogOk(reg, log) && CoreOk(log, d1) && CoreOk(log, d2)
    requires Settled(d1) && NoneAwaited(d1, R.Basis(d1, d2))
    requires !d1.retrying && C.GapOf(d1.summary, RP.RESTORE_REPLICA) == {}
    ensures R.SameHistory(reg, d1, d2)
  {
    hide LiveItems, RP.Insertable, RP.Agree, Ordered, ItemOk, Legal, C.Exact, Tree, Strict, CanonHolds, Supported,
         ClockAbove, NoneAwaited, Settled, RP.AllWait, R.Basis;
    SettledWaits(d1, R.Basis(d1, d2));
    var current, target := LiveItems(d1.stream), LiveItems(d2.stream);
    Delivery.UniqueStream(log, d1);
    Delivery.UniqueStream(log, d2);
    StreamApplied(log, d1);
    forall j | 0 <= j < |target| ensures RP.Insertable(reg, target[j]) {
      var q := PositionOf(d2.stream, j);
      ContentInsertable(reg, log, d2.applied, d2.stream[q]);
    }
    forall i, j | 0 <= i < |current| && 0 <= j < |target| && current[i].id == target[j].id
      ensures RP.Agree(reg, current[i], target[j])
    {
      var p := PositionOf(d1.stream, i);
      var q := PositionOf(d2.stream, j);
      ContentAgrees(reg, log, d1.applied, d2.applied, d1.stream[p], d2.stream[q]);
    }
    LivesOrdered(reg, log, d1, d2);
  }

  lemma StreamApplied(log: seq<Operation>, d: Doc)
    requires CanonHolds(log) && Ordered(log, d)
    ensures forall i :: 0 <= i < |d.stream| ==> d.stream[i].id in d.applied
  {
    hide Ordered, CanonHolds;
    forall i | 0 <= i < |d.stream| ensures d.stream[i].id in d.applied {
      assert IndexOf(d, d.stream[i].id) >= 0;
      PresentApplied(log, d, d.stream[i].id);
    }
  }

  lemma LivesOrdered(reg: Registry, log: seq<Operation>, d1: Doc, d2: Doc)
    requires LogOk(reg, log) && Ordered(log, d1) && Ordered(log, d2)
    ensures RC.SameOrder(LiveItems(d1.stream), LiveItems(d2.stream))
  {
    TreeUnique(Canon(log));
    hide LiveItems, Ordered, LogOk, Unique;
    var x, y := LiveItems(d1.stream), LiveItems(d2.stream);
    forall i1, i2, j1, j2 | 0 <= i1 < i2 < |x| && 0 <= j1 < |y| && 0 <= j2 < |y| && x[i1].id == y[j1].id
      && x[i2].id == y[j2].id
      ensures j1 < j2
    {
      LiveOrder(log, d1, d2, i1, i2, j1, j2);
    }
  }

  /** Restoring one replica's document to another's content succeeds in every
      reachable state, whatever waits in its buffer. */
  lemma ReachableRestores(reg: Registry, replicas: set<nat>, events: seq<Event>, a: nat, b: nat)
    requires Consistent(reg)
    requires var net := Run(reg, replicas, events); a in net.docs && b in net.docs
    requires C.GapOf(Run(reg, replicas, events).docs[a].summary, RP.RESTORE_REPLICA) == {}
    requires var net := Run(reg, replicas, events);
             NoneAwaited(net.docs[a], R.Basis(net.docs[a], net.docs[b]))
    requires var net := Run(reg, replicas, events);
             R.InRange(R.Basis(net.docs[a], net.docs[b]),
                       |RP.Batch(net.docs[a].stream, net.docs[b].stream, R.Basis(net.docs[a], net.docs[b]))|)
    ensures var net := Run(reg, replicas, events);
            R.Restores(reg, net.docs[a], net.docs[b],
                       RP.Batch(net.docs[a].stream, net.docs[b].stream, R.Basis(net.docs[a], net.docs[b])))
  {
    hide LogOk, CoreOk, R.SameHistory, R.InRange, R.Basis, RP.Batch, R.Restores, Settled, NoneAwaited;
    var net := Run(reg, replicas, events);
    RunOk(reg, replicas, events);
    CoreSameHistory(reg, net.log, net.docs[a], net.docs[b]);
    R.ChecksNeverFire(reg, net.docs[a], net.docs[b]);
  }
}
