/** What a replica's stream keeps through every event: no item leaves it, and no
    two items ever change places. */
module Stability {
  import opened Types
  import opened Order
  import opened State
  import opened History
  import opened Network
  import opened Issuing
  import opened RestoreReach
  import Replay
  import Delivery
  import Convergence
  import CB = Canonical
  import IC = ItemCodec

  // --------------------------------------------------------------- applied ids grow

  lemma EffectGrows(reg: Registry, d: Doc, op: Operation)
    ensures d.applied <= EffectOf(reg, d, op).0.applied
    ensures EffectOf(reg, d, op).1.Integrated? || EffectOf(reg, d, op).1.Recorded? ==>
              op.id in EffectOf(reg, d, op).0.applied
  {
    hide Skel, Boundary, CheckInsert, ItemOf, IndexOf, ApplyRegister;
  }

  lemma {:induction false} PassGrows(reg: Registry, d: Doc, i: nat, progress: bool)
    requires i <= |d.pending|
    ensures d.applied <= RetryPass(reg, d, i, progress).doc.applied
    decreases |d.pending| - i
  {
    hide EffectOf, Ready;
    if i < |d.pending| {
      var op := d.pending[i];
      var d1 := d.(pending := Without(d.pending, i));
      if !Ready(d, op) {
        PassGrows(reg, d, i + 1, progress);
      } else if op.id in d.applied {
        PassGrows(reg, d1, i, progress);
      } else {
        ReadySame(d, d1, op);
        ReadyNotBuffered(reg, d1, op);
        EffectGrows(reg, d1, op);
        if !EffectOf(reg, d1, op).1.Refused? { PassGrows(reg, EffectOf(reg, d1, op).0, i, true); }
      }
    }
  }

  lemma {:induction false} LoopGrows(reg: Registry, d: Doc)
    ensures d.applied <= RetryLoop(reg, d).doc.applied
    decreases |d.pending|
  {
    hide RetryPass;
    PassGrows(reg, d, 0, false);
    var p := RetryPass(reg, d, 0, false);
    if !p.error.Some? && p.progress { LoopGrows(reg, p.doc); }
  }

  lemma IntegrateGrows(reg: Registry, d: Doc, op: Operation)
    ensures d.applied <= IntegrateOp(reg, d, op).0.applied
  {
    hide EffectOf, RetryLoop;
    EffectGrows(reg, d, op);
    LoopGrows(reg, EffectOf(reg, d, op).0.(retrying := true));
  }

  // ------------------------------------------------------------------ one event

  /** Every item stays, and those that stood in order stand in order. */
  ghost predicate KeepsOrder(before: Doc, after: Doc) {
    && (forall i :: 0 <= i < |before.stream| ==> IndexOf(after, before.stream[i].id) >= 0)
    && (forall i, j :: 0 <= i < j < |before.stream| ==>
          IndexOf(after, before.stream[i].id) < IndexOf(after, before.stream[j].id))
  }

  lemma ItemsStay(reg: Registry, log: seq<Operation>, d1: Doc, d2: Doc, i: int)
    requires LogOk(reg, log) && CoreOk(log, d1) && CoreOk(log, d2) && d1.applied <= d2.applied && 0 <= i < |d1.stream|
    ensures IndexOf(d2, d1.stream[i].id) >= 0
  {
    hide Tree, Unique, Strict, CanonHolds, Part, ItemsOk, Supported, ClockAbove, Known, PendingKnown, Legal, Causal,
         UniqueStamps, ValidIds;
    PresentFrom(log, d1, i);
    PresentApplied(log, d1, d1.stream[i].id);
  }

  lemma ItemsInOrder(log: seq<Operation>, d1: Doc, d2: Doc, i: int, j: int)
    requires Unique(Canon(log)) && Ordered(log, d1) && Ordered(log, d2) && 0 <= i < j < |d1.stream|
    requires IndexOf(d2, d1.stream[i].id) >= 0 && IndexOf(d2, d1.stream[j].id) >= 0
    ensures IndexOf(d2, d1.stream[i].id) < IndexOf(d2, d1.stream[j].id)
  {
    hide Unique, Part;
    var m1 :| Part(Skel(d1.stream), Canon(log), m1);
    var m2 :| Part(Skel(d2.stream), Canon(log), m2);
    PartsOrder(Skel(d1.stream), Skel(d2.stream), Canon(log), m1, m2, i, j,
               IndexOf(d2, d1.stream[i].id), IndexOf(d2, d1.stream[j].id));
  }

  lemma CoreOrdered(reg: Registry, log: seq<Operation>, d: Doc)
    requires LogOk(reg, log) && CoreOk(log, d)
    ensures Ordered(log, d) && Unique(Canon(log))
  {
    TreeUnique(Canon(log));
    hide Tree, Unique, Ordered;
  }

  lemma CoreKeepsOrder(reg: Registry, log: seq<Operation>, d1: Doc, d2: Doc)
    requires LogOk(reg, log) && CoreOk(log, d1) && CoreOk(log, d2) && d1.applied <= d2.applied
    ensures KeepsOrder(d1, d2)
  {
    hide LogOk, CoreOk, Ordered, Unique, IndexOf;
    CoreOrdered(reg, log, d1);
    CoreOrdered(reg, log, d2);
    forall i | 0 <= i < |d1.stream| ensures IndexOf(d2, d1.stream[i].id) >= 0 {
      ItemsStay(reg, log, d1, d2, i);
    }
    forall i, j | 0 <= i < j < |d1.stream| ensures IndexOf(d2, d1.stream[i].id) < IndexOf(d2, d1.stream[j].id) {
      ItemsInOrder(log, d1, d2, i, j);
    }
  }

  lemma PresentFrom(log: seq<Operation>, d: Doc, i: int)
    requires 0 <= i < |d.stream|
    ensures IndexOf(d, d.stream[i].id) >= 0
  {
  }

  lemma PerformKeepsOrder(reg: Registry, log: seq<Operation>, d: Doc, seen: set<OpId>, e: Edit)
    requires Consistent(reg) && LogOk(reg, log) && NodeOk(log, d, seen)
    ensures KeepsOrder(d, Perform(reg, d, e).0)
  {
    Delivery.UniqueStream(log, d);
    hide LogOk, CoreOk, Perform, IssuedBy, KeepsOrder, IntegrateOp;
    var op := PerformIssues(reg, d, e);
    if op.None? {
      CoreKeepsOrder(reg, log, d, d);
    } else {
      var d' := GenerateKeeps(reg, log, d, seen, op.value);
      CoreExtends(reg, log, d, op.value);
      GeneratedGrows(reg, d, op.value);
      CoreKeepsOrder(reg, log + [op.value], d, d');
    }
  }

  lemma GeneratedGrows(reg: Registry, d: Doc, op: Operation)
    ensures d.applied <= Generate(reg, d, op).0.applied
  {
    hide IntegrateOp;
    IntegrateGrows(reg, d.(nextCounter := d.nextCounter + 1, lamport := d.lamport + 1), op);
  }

  lemma DeliverKeepsOrder(reg: Registry, log: seq<Operation>, d: Doc, seen: set<OpId>, k: nat)
    requires LogOk(reg, log) && NodeOk(log, d, seen) && k < |log|
    ensures KeepsOrder(d, ApplyRemote(reg, d, log[k]).0)
  {
    hide LogOk, CoreOk, KeepsOrder, IntegrateOp;
    var d', r := DeliverNode(reg, log, d, seen, k);
    IntegrateGrows(reg, d, log[k]);
    CoreKeepsOrder(reg, log, d, d');
  }

  lemma StepKeepsOrder(reg: Registry, net: Net, e: Event, a: nat)
    requires Consistent(reg) && NetOk(reg, net) && a in net.docs
    ensures a in Step(reg, net, e).docs && KeepsOrder(net.docs[a], Step(reg, net, e).docs[a])
  {
    hide LogOk, NodeOk, KeepsOrder, Perform, ApplyRemote;
    SelfKeepsOrder(reg, net.log, net.docs[a], net.seen[a]);
    match e
    case Local(r, edit) => if r == a { PerformKeepsOrder(reg, net.log, net.docs[a], net.seen[a], edit); }
    case Deliver(r, k) =>
      if r == a && k < |net.log| { DeliverKeepsOrder(reg, net.log, net.docs[a], net.seen[a], k); }
    case Inject(_) =>
  }

  /** In every run, each event leaves every replica's items in their order. */
  lemma NoItemMoves(reg: Registry, replicas: set<nat>, events: seq<Event>, e: Event, a: nat)
    requires Consistent(reg) && a in Run(reg, replicas, events).docs
    ensures a in Run(reg, replicas, events + [e]).docs
    ensures KeepsOrder(Run(reg, replicas, events).docs[a], Run(reg, replicas, events + [e]).docs[a])
  {
    RunNext(reg, replicas, events, e);
    hide NetOk, KeepsOrder, Run, Step;
    RunOk(reg, replicas, events);
    StepKeepsOrder(reg, Run(reg, replicas, events), e, a);
  }

  lemma RunNext(reg: Registry, replicas: set<nat>, events: seq<Event>, e: Event)
    ensures Run(reg, replicas, events + [e]) == Step(reg, Run(reg, replicas, events), e)
  {
    assert Replay.Front(events + [e]) == events && Replay.Last(events + [e]) == e;
  }

  lemma SelfKeepsOrder(reg: Registry, log: seq<Operation>, d: Doc, seen: set<OpId>)
    requires LogOk(reg, log) && NodeOk(log, d, seen)
    ensures KeepsOrder(d, d)
  {
    hide LogOk, CoreOk, KeepsOrder;
    CoreKeepsOrder(reg, log, d, d);
  }

  /** Converged replicas have byte-identical canonical states, hence equal digests. */
  lemma ConvergedBytes(reg: Registry, replicas: set<nat>, events: seq<Event>, a: nat, b: nat,
                       idsA: seq<OpId>, rowsA: seq<OpId>, idsB: seq<OpId>, rowsB: seq<OpId>)
    requires Consistent(reg)
    requires var net := Run(reg, replicas, events);
             a in net.docs && b in net.docs && a in net.seen && b in net.seen && net.seen[a] == net.seen[b]
    requires var net := Run(reg, replicas, events);
             && CB.CanonicalListing(net.docs[a], idsA, rowsA) && CB.CanonicalListing(net.docs[b], idsB, rowsB)
             && IC.AllEncodable(net.docs[a].stream) && IC.AllEncodable(net.docs[b].stream)
    ensures var net := Run(reg, replicas, events);
            CB.CanonicalBytes(net.docs[a].stream, idsA, rowsA) == CB.CanonicalBytes(net.docs[b].stream, idsB, rowsB)
  {
    hide Run, CB.CanonicalListing, IC.AllEncodable, CB.CanonicalBytes, Settled;
    Convergence.StrongConvergence(reg, replicas, events, a, b);
    var net := Run(reg, replicas, events);
    CB.SameStateSameBytes(net.docs[a], net.docs[b], idsA, rowsA, idsB, rowsB);
  }

  // --------------------------------------------------------- an error inside a retry

  /** The one way a delivery that integrates its operation still fails: an error from
      the buffer.  The operation is applied all the same, and the guard stays up. */
  lemma RetryErrorKeepsState(reg: Registry, d: Doc, op: Operation)
    requires ApplyRemote(reg, d, op).1.Err? && EffectOf(reg, d, op).1.Integrated?
    ensures op.id in ApplyRemote(reg, d, op).0.applied && ApplyRemote(reg, d, op).0.retrying
  {
    hide EffectOf, RetryPass;
    EffectGrows(reg, d, op);
    var d1 := EffectOf(reg, d, op).0;
    LoopGrows(reg, d1.(retrying := true));
    LoopKeepsFlag(reg, d1.(retrying := true));
  }

  lemma EffectKeepsFlag(reg: Registry, d: Doc, op: Operation)
    ensures EffectOf(reg, d, op).0.retrying == d.retrying
  {
    hide Skel, Boundary, CheckInsert, ItemOf, IndexOf, ApplyRegister;
  }

  lemma {:induction false} PassKeepsFlag(reg: Registry, d: Doc, i: nat, progress: bool)
    requires i <= |d.pending|
    ensures RetryPass(reg, d, i, progress).doc.retrying == d.retrying
    decreases |d.pending| - i
  {
    hide EffectOf, Ready;
    if i < |d.pending| {
      var op := d.pending[i];
      var d1 := d.(pending := Without(d.pending, i));
      if !Ready(d, op) {
        PassKeepsFlag(reg, d, i + 1, progress);
      } else if op.id in d.applied {
        PassKeepsFlag(reg, d1, i, progress);
      } else {
        ReadySame(d, d1, op);
        ReadyNotBuffered(reg, d1, op);
        EffectKeepsFlag(reg, d1, op);
        if !EffectOf(reg, d1, op).1.Refused? { PassKeepsFlag(reg, EffectOf(reg, d1, op).0, i, true); }
      }
    }
  }

  lemma {:induction false} LoopKeepsFlag(reg: Registry, d: Doc)
    ensures RetryLoop(reg, d).doc.retrying == d.retrying
    decreases |d.pending|
  {
    hide RetryPass;
    PassKeepsFlag(reg, d, 0, false);
    var p := RetryPass(reg, d, 0, false);
    if !p.error.Some? && p.progress { LoopKeepsFlag(reg, p.doc); }
  }

  /** With the guard up the buffer is never looked at again: it only grows. */
  lemma StuckBuffer(reg: Registry, d: Doc, op: Operation)
    requires d.retrying
    ensures d.pending <= ApplyRemote(reg, d, op).0.pending && ApplyRemote(reg, d, op).0.retrying
  {
    hide Skel, Boundary, CheckInsert, ItemOf, IndexOf, ApplyRegister;
  }
}
