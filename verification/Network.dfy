/** A network of replicas: local edits at any replica, operations taken in from
    outside, and deliveries of any operation of the history to any replica, in any
    order and any number of times. */
module Network {
  import opened Types
  import opened Order
  import opened Replay
  import opened State
  import opened History
  import opened Buffering
  import opened Issuing
  import opened Admission
  import Delivery
  import C = Counters

  // ------------------------------------------------------------------ the model

  datatype Edit =
    | TypeText(index: nat, scalar: nat)
    | TypeDelimiter(index: nat, blockType: Bytes)
    | Erase(index: nat)
    | Mark(index: nat, name: Bytes, value: Option<Bytes>)

  /** A local edit at a replica, delivery to it of the k-th operation of the history,
      or an operation from outside, taken into the history if it is admissible. */
  datatype Event = Local(replica: nat, edit: Edit) | Deliver(replica: nat, k: nat) | Inject(op: Operation)

  /** All operations issued so far, each replica's document, and the ids of the
      operations each replica has issued or accepted. */
  datatype Net = Net(log: seq<Operation>, docs: map<nat, Doc>, seen: map<nat, set<OpId>>)

  function Lift(r: (Doc, Result<Operation>)): (Doc, Result<Option<Operation>>) {
    (r.0, if r.1.Ok? then Ok(Some(r.1.value)) else Err(r.1.code))
  }

  function Perform(reg: Registry, d: Doc, edit: Edit): (Doc, Result<Option<Operation>>) {
    match edit
    case TypeText(index, scalar) => Lift(LocalInsertText(reg, d, index, scalar))
    case TypeDelimiter(index, blockType) => Lift(LocalInsertDelimiter(reg, d, index, blockType))
    case Erase(index) => LocalDelete(reg, d, index)
    case Mark(index, name, value) => Lift(LocalSetAttr(reg, d, index, name, value))
  }

  function LocalStep(reg: Registry, net: Net, r: nat, edit: Edit): Net
    requires r in net.docs && r in net.seen
  {
    var (d', result) := Perform(reg, net.docs[r], edit);
    if result.Ok? && result.value.Some? then
      Net(net.log + [result.value.value], net.docs[r := d'], net.seen[r := net.seen[r] + {result.value.value.id}])
    else Net(net.log, net.docs[r := d'], net.seen)
  }

  function DeliverStep(reg: Registry, net: Net, r: nat, k: nat): Net
    requires r in net.docs && r in net.seen
  {
    if k >= |net.log| then net
    else
      var (d', result) := ApplyRemote(reg, net.docs[r], net.log[k]);
      Net(net.log, net.docs[r := d'],
          if result.Ok? then net.seen[r := net.seen[r] + {net.log[k].id}] else net.seen)
  }

  ghost function Step(reg: Registry, net: Net, e: Event): Net {
    match e
    case Local(r, edit) => if r in net.docs && r in net.seen then LocalStep(reg, net, r, edit) else net
    case Deliver(r, k) => if r in net.docs && r in net.seen then DeliverStep(reg, net, r, k) else net
    case Inject(op) => if Admits(reg, net.log, net.docs.Keys, op) then net.(log := net.log + [op]) else net
  }

  function Start(replicas: set<nat>): Net {
    Net([], map r | r in replicas && r != 0 :: Empty(r), map r | r in replicas && r != 0 :: {})
  }

  ghost function Run(reg: Registry, replicas: set<nat>, events: seq<Event>): Net {
    if |events| == 0 then Start(replicas) else Step(reg, Run(reg, replicas, Front(events)), Last(events))
  }

  /** The registry admits a value only under a name it admits. */
  ghost predicate Consistent(reg: Registry) {
    forall kind, name, value :: reg.values(kind, name, value) ==> reg.names(kind, name)
  }

  // -------------------------------------------------------------- the invariant

  ghost predicate NodeOk(log: seq<Operation>, d: Doc, seen: set<OpId>) {
    && CoreOk(log, d) && Settled(d) && !d.retrying && Own(log, d)
    && d.self != 0 && d.nextCounter >= 1
    && seen == d.applied + PendingIds(d)
  }

  ghost predicate NetOk(reg: Registry, net: Net) {
    && LogOk(reg, net.log)
    && net.seen.Keys == net.docs.Keys
    && forall r :: r in net.docs ==> net.docs[r].self == r && NodeOk(net.log, net.docs[r], net.seen[r])
  }

  lemma EmptyOk(r: nat)
    requires r != 0
    ensures NodeOk([], Empty(r), {})
  {
    assert Part(Skel([]), Canon([]), []);
    assert PendingIds(Empty(r)) == {};
    assert C.Exact(C.EMPTY_SUMMARY, {});
  }

  lemma EmptyCanon()
    ensures Tree(Canon([])) && Strict(Canon([])) && CanonHolds([])
  {
    hide Tree, Strict;
    assert Canon([]) == [];
    EmptyTree([]);
  }

  lemma EmptyTree(g: seq<Node>)
    requires g == []
    ensures Tree(g) && Strict(g)
  {
  }

  lemma EmptyLogOk(reg: Registry)
    ensures LogOk(reg, [])
  {
    hide Tree, Strict, CanonHolds;
    EmptyCanon();
  }

  lemma StartOk(reg: Registry, replicas: set<nat>)
    ensures NetOk(reg, Start(replicas))
  {
    hide NodeOk, LogOk;
    EmptyLogOk(reg);
    var net := Start(replicas);
    forall r | r in net.docs ensures net.docs[r].self == r && NodeOk(net.log, net.docs[r], net.seen[r]) {
      EmptyOk(r);
    }
  }

  /** Replacing one replica's document, the others being as good as before. */
  lemma Replaced(reg: Registry, net: Net, log: seq<Operation>, r: nat, d: Doc, seen: set<OpId>)
    requires net.seen.Keys == net.docs.Keys && LogOk(reg, log) && d.self == r && NodeOk(log, d, seen)
    requires forall q :: q in net.docs && q != r ==> net.docs[q].self == q && NodeOk(log, net.docs[q], net.seen[q])
    ensures NetOk(reg, Net(log, net.docs[r := d], net.seen[r := seen]))
  {
    var net' := Net(log, net.docs[r := d], net.seen[r := seen]);
    forall q | q in net'.docs ensures net'.docs[q].self == q && NodeOk(log, net'.docs[q], net'.seen[q]) {}
  }

  /** A local edit either changes nothing or issues and integrates one operation. */
  lemma PerformIssues(reg: Registry, d: Doc, edit: Edit) returns (op: Option<Operation>)
    requires Consistent(reg) && d.self != 0 && d.nextCounter >= 1 && Unique(Skel(d.stream))
    ensures op.None? ==>
              Perform(reg, d, edit).0 == d && (Perform(reg, d, edit).1.Ok? ==> Perform(reg, d, edit).1.value.None?)
    ensures op.Some? ==> IssuedBy(reg, d, op.value) && Perform(reg, d, edit) == Lift(Generate(reg, d, op.value))
    ensures op.Some? ==> op.value.id.replica == d.self
    ensures op.Some? && op.value.Insert? && op.value.kind == Delimiter ==> op.value.scalar == 0
  {
    match edit
    case TypeText(index, scalar) => op := TextIssues(reg, d, index, scalar);
    case TypeDelimiter(index, blockType) => op := DelimiterIssues(reg, d, index, blockType);
    case Erase(index) => op := EraseIssues(reg, d, index);
    case Mark(index, name, value) => op := MarkIssues(reg, d, index, name, value);
  }

  lemma TextIssues(reg: Registry, d: Doc, index: nat, scalar: nat) returns (op: Option<Operation>)
    requires d.self != 0 && d.nextCounter >= 1
    ensures op.None? ==> LocalInsertText(reg, d, index, scalar).0 == d && LocalInsertText(reg, d, index, scalar).1.Err?
    ensures op.Some? ==>
              IssuedBy(reg, d, op.value) && LocalInsertText(reg, d, index, scalar) == Generate(reg, d, op.value)
    ensures op.Some? ==> op.value.id.replica == d.self
    ensures op.Some? && op.value.Insert? && op.value.kind == Delimiter ==> op.value.scalar == 0
  {
    hide Generate;
    op := None;
    if index <= |d.stream| && ValidScalar(scalar) && !Exhausted(d) {
      op := Some(InsertOpAt(d, index, Text, scalar, []));
      assert Around(d, op.value, index);
    }
  }

  lemma DelimiterIssues(reg: Registry, d: Doc, index: nat, blockType: Bytes) returns (op: Option<Operation>)
    requires Consistent(reg) && d.self != 0 && d.nextCounter >= 1
    ensures op.None? ==>
              LocalInsertDelimiter(reg, d, index, blockType).0 == d
                && LocalInsertDelimiter(reg, d, index, blockType).1.Err?
    ensures op.Some? ==>
              IssuedBy(reg, d, op.value) && LocalInsertDelimiter(reg, d, index, blockType) == Generate(reg, d, op.value)
    ensures op.Some? ==> op.value.id.replica == d.self
    ensures op.Some? && op.value.Insert? && op.value.kind == Delimiter ==> op.value.scalar == 0
  {
    hide Generate;
    op := None;
    if index <= |d.stream| && reg.values(Delimiter, TYPE_NAME, blockType) && !Exhausted(d) {
      op := Some(InsertOpAt(d, index, Delimiter, 0, [InitialAttr(TYPE_NAME, Some(blockType))]));
      assert Around(d, op.value, index);
    }
  }

  lemma EraseIssues(reg: Registry, d: Doc, index: nat) returns (op: Option<Operation>)
    requires d.self != 0 && d.nextCounter >= 1 && Unique(Skel(d.stream))
    ensures op.None? ==>
              LocalDelete(reg, d, index).0 == d
                && (LocalDelete(reg, d, index).1.Ok? ==> LocalDelete(reg, d, index).1.value.None?)
    ensures op.Some? ==> IssuedBy(reg, d, op.value) && LocalDelete(reg, d, index) == Lift(Generate(reg, d, op.value))
    ensures op.Some? ==> op.value.id.replica == d.self
    ensures op.Some? && op.value.Insert? && op.value.kind == Delimiter ==> op.value.scalar == 0
  {
    hide Generate;
    op := None;
    if index < |d.stream| && !d.stream[index].tombstoned && !Exhausted(d) {
      op := Some(Delete(FreshId(d), d.lamport + 1, Some(d.stream[index].id)));
      FindAt(Skel(d.stream), index);
      GenerateReturns(reg, d, op.value);
    }
  }

  lemma GenerateReturns(reg: Registry, d: Doc, op: Operation)
    ensures Generate(reg, d, op).1.Ok? ==> Generate(reg, d, op).1.value == op
  {
    hide IntegrateOp;
  }

  lemma MarkIssues(reg: Registry, d: Doc, index: nat, name: Bytes, value: Option<Bytes>) returns (op: Option<Operation>)
    requires d.self != 0 && d.nextCounter >= 1 && Unique(Skel(d.stream))
    ensures op.None? ==>
              LocalSetAttr(reg, d, index, name, value).0 == d && LocalSetAttr(reg, d, index, name, value).1.Err?
    ensures op.Some? ==>
              IssuedBy(reg, d, op.value) && LocalSetAttr(reg, d, index, name, value) == Generate(reg, d, op.value)
    ensures op.Some? ==> op.value.id.replica == d.self
    ensures op.Some? && op.value.Insert? && op.value.kind == Delimiter ==> op.value.scalar == 0
  {
    hide Generate;
    op := None;
    if index < |d.stream| && reg.Allows(d.stream[index].kind, name, value) && !Exhausted(d) {
      op := Some(SetAttr(FreshId(d), d.lamport + 1, Some(d.stream[index].id), name, value));
      FindAt(Skel(d.stream), index);
    }
  }

  lemma ReadyToIntegrate(reg: Registry, d: Doc, d1: Doc, op: Operation)
    requires IssuedBy(reg, d, op) && d1.stream == d.stream
    ensures Ready(d1, op)
  {
    if op.Insert? {
      var index :| Around(d, op, index);
      AroundPresent(d, op, index);
    }
    ReadySame(d, d1, op);
  }

  /** Allocation only raises the counter and the clock. */
  lemma Allocated(log: seq<Operation>, d: Doc, d1: Doc)
    requires CoreOk(log, d) && d1 == d.(nextCounter := d1.nextCounter, lamport := d1.lamport) && d.lamport <= d1.lamport
    ensures CoreOk(log, d1) && PendingIds(d1) == PendingIds(d)
  {
    assert forall id :: IndexOf(d1, id) == IndexOf(d, id);
    forall k | 0 <= k < |log| && log[k].id in d.applied ensures Ready(d1, log[k]) {
      ReadySame(d, d1, log[k]);
    }
  }

  lemma GenerateKeeps(reg: Registry, log: seq<Operation>, d: Doc, seen: set<OpId>, op: Operation) returns (d': Doc)
    requires LogOk(reg, log) && NodeOk(log, d, seen) && IssuedBy(reg, d, op)
    ensures LogOk(reg, log + [op]) && !InHistory(log, op.id)
    ensures Generate(reg, d, op) == (d', Ok(op)) && d'.self == d.self
    ensures NodeOk(log + [op], d', seen + {op.id})
  {
    IssueKeepsLog(reg, log, d, op);
    assert op.id !in d.applied;
    ExtendCore(log, op, d);
    d' := AllocateAndIntegrate(reg, log + [op], d, op);
    OwnAfter(log, d, op, d');
  }

  /** Allocating and integrating, against the history that already has the operation. */
  lemma AllocateAndIntegrate(reg: Registry, log: seq<Operation>, d: Doc, op: Operation) returns (d': Doc)
    requires LogOk(reg, log) && CoreOk(log, d) && !d.retrying && IssuedBy(reg, d, op) && op.id !in d.applied
    requires |log| > 0 && log[|log| - 1] == op
    ensures Generate(reg, d, op) == (d', Ok(op))
    ensures CoreOk(log, d') && Settled(d') && !d'.retrying
    ensures d'.self == d.self && d'.nextCounter == d.nextCounter + 1 && d.applied + {op.id} <= d'.applied
    ensures d'.applied + PendingIds(d') == d.applied + PendingIds(d) + {op.id}
  {
    hide IntegrateOp, Generate, CoreOk, LogOk, Settled, Ready, IssuedBy;
    var d1 := d.(nextCounter := d.nextCounter + 1, lamport := d.lamport + 1);
    Allocated(log, d, d1);
    ReadyToIntegrate(reg, d, d1, op);
    d' := IntegrateReady(reg, log, d1, |log| - 1);
    GenerateIs(reg, d, op, d1, d');
  }

  lemma GenerateIs(reg: Registry, d: Doc, op: Operation, d1: Doc, d2: Doc)
    requires d1 == d.(nextCounter := d.nextCounter + 1, lamport := d.lamport + 1)
    requires IntegrateOp(reg, d1, op) == (d2, Ok(true))
    ensures Generate(reg, d, op) == (d2, Ok(op))
  {
    hide IntegrateOp;
  }

  lemma OwnAfter(log: seq<Operation>, d: Doc, op: Operation, d': Doc)
    requires Own(log, d) && op.id == FreshId(d)
    requires d'.self == d.self && d'.nextCounter == d.nextCounter + 1 && d.applied + {op.id} <= d'.applied
    ensures Own(log + [op], d')
  {
    assert forall k :: 0 <= k < |log| ==> (log + [op])[k] == log[k];
  }

  /** A newly issued operation leaves every document a document of the history. */
  lemma CoreExtends(reg: Registry, log: seq<Operation>, d: Doc, op: Operation)
    requires LogOk(reg, log) && CoreOk(log, d) && !InHistory(log, op.id)
    ensures CoreOk(log + [op], d)
  {
    ExtendCore(log, op, d);
  }

  lemma OtherOwn(log: seq<Operation>, d: Doc, op: Operation)
    requires Own(log, d) && op.id.replica != d.self
    ensures Own(log + [op], d)
  {
    assert forall k :: 0 <= k < |log| ==> (log + [op])[k] == log[k];
  }

  lemma OtherNode(reg: Registry, log: seq<Operation>, d: Doc, seen: set<OpId>, op: Operation)
    requires LogOk(reg, log) && NodeOk(log, d, seen) && !InHistory(log, op.id) && op.id.replica != d.self
    ensures NodeOk(log + [op], d, seen)
  {
    hide LogOk, CoreOk, Settled, Own, InHistory;
    CoreExtends(reg, log, d, op);
    OtherOwn(log, d, op);
  }

  lemma NodeUnique(reg: Registry, log: seq<Operation>, d: Doc, seen: set<OpId>)
    requires LogOk(reg, log) && NodeOk(log, d, seen)
    ensures Unique(Skel(d.stream)) && d.self != 0 && d.nextCounter >= 1
  {
    hide Settled, Own;
    Delivery.UniqueStream(log, d);
  }

  lemma LocalKeeps(reg: Registry, net: Net, r: nat, edit: Edit)
    requires Consistent(reg) && NetOk(reg, net) && r in net.docs
    ensures NetOk(reg, Step(reg, net, Local(r, edit)))
  {
    hide LogOk, NodeOk, IssuedBy, Perform, Generate, Unique;
    NodeUnique(reg, net.log, net.docs[r], net.seen[r]);
    var op := PerformIssues(reg, net.docs[r], edit);
    if op.None? {
      assert net.docs[r := net.docs[r]] == net.docs;
    } else {
      IssueStep(reg, net, r, edit, op.value);
    }
  }

  lemma IssueStep(reg: Registry, net: Net, r: nat, edit: Edit, op: Operation)
    requires NetOk(reg, net) && r in net.docs && op.id.replica == r
    requires IssuedBy(reg, net.docs[r], op) && Perform(reg, net.docs[r], edit) == Lift(Generate(reg, net.docs[r], op))
    ensures NetOk(reg, Step(reg, net, Local(r, edit)))
  {
    hide NodeOk, LogOk, IssuedBy, Perform, Generate;
    var d' := GenerateKeeps(reg, net.log, net.docs[r], net.seen[r], op);
    forall q | q in net.docs && q != r ensures NodeOk(net.log + [op], net.docs[q], net.seen[q]) {
      OtherNode(reg, net.log, net.docs[q], net.seen[q], op);
    }
    Replaced(reg, net, net.log + [op], r, d', net.seen[r] + {op.id});
  }

  lemma DeliverNode(reg: Registry, log: seq<Operation>, d: Doc, seen: set<OpId>, k: nat)
      returns (d': Doc, r: Result<bool>)
    requires LogOk(reg, log) && NodeOk(log, d, seen) && k < |log|
    ensures ApplyRemote(reg, d, log[k]) == (d', r) && d'.self == d.self
    ensures NodeOk(log, d', if r.Ok? then seen + {log[k].id} else seen)
  {
    d', r := DeliverKeeps(reg, log, d, k);
  }

  lemma DeliverStepKeeps(reg: Registry, net: Net, r: nat, k: nat)
    requires NetOk(reg, net) && r in net.docs
    ensures NetOk(reg, Step(reg, net, Deliver(r, k)))
  {
    hide NodeOk, LogOk, ApplyRemote;
    if k < |net.log| {
      var d', result := DeliverNode(reg, net.log, net.docs[r], net.seen[r], k);
      var seen' := if result.Ok? then net.seen[r] + {net.log[k].id} else net.seen[r];
      Replaced(reg, net, net.log, r, d', seen');
      assert net.seen[r := net.seen[r]] == net.seen;
    }
  }

  /** Taking an admissible operation into the history leaves every replica as it was. */
  lemma InjectKeeps(reg: Registry, net: Net, op: Operation)
    requires NetOk(reg, net) && Admits(reg, net.log, net.docs.Keys, op)
    ensures NetOk(reg, net.(log := net.log + [op]))
  {
    hide LogOk, NodeOk;
    AdmitKeepsLog(reg, net.log, net.docs.Keys, op);
    AdmitsFresh(reg, net.log, net.docs.Keys, op);
    forall r | r in net.docs ensures NodeOk(net.log + [op], net.docs[r], net.seen[r]) {
      OtherNode(reg, net.log, net.docs[r], net.seen[r], op);
    }
  }

  lemma AdmitsFresh(reg: Registry, log: seq<Operation>, running: set<nat>, op: Operation)
    requires Admits(reg, log, running, op)
    ensures !InHistory(log, op.id) && op.id.replica !in running
  {
  }

  /** Every run of any events keeps the network in order. */
  lemma {:induction false} RunOk(reg: Registry, replicas: set<nat>, events: seq<Event>)
    requires Consistent(reg)
    ensures NetOk(reg, Run(reg, replicas, events))
  {
    hide NetOk, Admits, LocalStep, DeliverStep;
    if |events| == 0 {
      StartOk(reg, replicas);
    } else {
      RunOk(reg, replicas, Front(events));
      StepOk(reg, Run(reg, replicas, Front(events)), Last(events));
    }
  }

  lemma StepOk(reg: Registry, net: Net, e: Event)
    requires Consistent(reg) && NetOk(reg, net)
    ensures NetOk(reg, Step(reg, net, e))
  {
    hide LogOk, NodeOk, Admits, LocalStep, DeliverStep;
    match e
    case Local(r, edit) => if r in net.docs { LocalKeeps(reg, net, r, edit); }
    case Deliver(r, k) => if r in net.docs { DeliverStepKeeps(reg, net, r, k); }
    case Inject(op) => if Admits(reg, net.log, net.docs.Keys, op) { InjectKeeps(reg, net, op); }
  }
}
