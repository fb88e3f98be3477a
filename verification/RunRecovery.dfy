/** Snapshots of running replicas: every document of a run within the widths of the
    wire can be stored, and recovery from it equals going on. */
module RunRecovery {
  import opened Types
  import opened Wire
  import opened Codec
  import opened Batches
  import opened Snapshot
  import opened Folding
  import opened ItemCodec
  import opened Replay
  import opened History
  import opened Network
  import Admission
  import Issuing
  import RestoreReach
  import Order
  import S = State
  import C = Counters

  // ------------------------------------------------------------ issued operations

  /** Issued operations carry a started clock, and delimiters no scalar. */
  ghost predicate CleanLog(log: seq<Operation>) {
    forall k :: 0 <= k < |log| ==> Clean(log[k])
  }

  predicate Clean(op: Operation) {
    op.lamport >= 1 && (op.Insert? && op.kind == Delimiter ==> op.scalar == 0)
  }

  lemma StepClean(reg: Registry, net: Net, e: Event)
    requires Consistent(reg) && NetOk(reg, net) && CleanLog(net.log)
    ensures CleanLog(Step(reg, net, e).log)
  {
    hide LogOk, NodeOk, Perform, S.ApplyRemote, S.Generate, Clean, Admission.Admits;
    match e
    case Local(r, edit) =>
      if r in net.docs {
        var d := net.docs[r];
        NodeUnique(reg, net.log, d, net.seen[r]);
        var op := PerformIssues(reg, d, edit);
        if op.Some? {
          GenerateReturns(reg, d, op.value);
          IssuedClean(reg, d, op.value);
        }
      }
    case Deliver(_, _) =>
    case Inject(op) =>
      if Admission.Admits(reg, net.log, net.docs.Keys, op) { AdmittedClean(reg, net.log, net.docs.Keys, op); }
  }

  lemma AdmittedClean(reg: Registry, log: seq<Operation>, running: set<nat>, op: Operation)
    requires Admission.Admits(reg, log, running, op)
    ensures Clean(op)
  {
  }

  lemma IssuedClean(reg: Registry, d: S.Doc, op: Operation)
    requires Issuing.IssuedBy(reg, d, op) && (op.Insert? && op.kind == Delimiter ==> op.scalar == 0)
    ensures Clean(op)
  {
  }

  lemma {:induction false} RunClean(reg: Registry, replicas: set<nat>, events: seq<Event>)
    requires Consistent(reg)
    ensures CleanLog(Run(reg, replicas, events).log)
  {
    hide NetOk, CleanLog, Step;
    if |events| == 0 {
      NothingIssued();
    } else {
      RunClean(reg, replicas, Front(events));
      RunOk(reg, replicas, Front(events));
      StepClean(reg, Run(reg, replicas, Front(events)), Last(events));
    }
  }

  lemma NothingIssued()
    ensures CleanLog([])
  {
  }

  // ----------------------------------------------------------------------- widths

  /** What the wire's field widths ask of an item, an operation, a document. */
  predicate NarrowRegister(name: Bytes, r: Register) {
    |name| < U32_END && (r.value.Some? ==> |r.value.value| < U32_END) && r.lamport <= MAX_LAMPORT && r.writer < U64_END
  }

  predicate NarrowItem(x: Item) {
    && Fits(x.id) && FitsOpt(x.left) && FitsOpt(x.right) && |x.attrs| < U32_END
    && forall name :: name in x.attrs ==> NarrowRegister(name, x.attrs[name])
  }

  predicate NarrowOp(op: Operation) {
    && Fits(op.id) && op.lamport < U64_END
    && match op
       case Insert(_, _, left, right, _, _, _) => FitsOpt(left) && FitsOpt(right)
       case Delete(_, _, target) => FitsOpt(target)
       case SetAttr(_, _, target, _, _) => FitsOpt(target)
  }

  ghost predicate Narrow(d: S.Doc) {
    && d.self < U64_END && d.nextCounter <= MAX_COUNTER && d.lamport <= MAX_LAMPORT
    && |d.stream| < U32_END && |d.pending| <= PENDING_LIMIT
    && (forall i :: 0 <= i < |d.stream| ==> NarrowItem(d.stream[i]))
    && (forall i :: 0 <= i < |d.pending| ==> NarrowOp(d.pending[i]))
    && (forall id :: id in d.applied ==> Fits(id))
  }

  // --------------------------------------------------------------------- storable

  lemma RegisterStorable(reg: Registry, log: seq<Operation>, applied: set<OpId>, x: Item, name: Bytes)
    requires ValidIds(log) && UniqueIds(log) && Legal(reg, log) && CleanLog(log) && ItemOk(log, applied, x)
    requires name in x.attrs && NarrowRegister(name, x.attrs[name])
    ensures StorableRegister(reg, x.kind, name, x.attrs[name])
  {
    RestoreReach.RegisterAllowed(reg, log, applied, x, name);
    hide Legal, UniqueIds, Content, Erased, WriteOf;
    assert RegisterOk(log, applied, x.id, x.attrs, name);
    var k :| Wins(log, applied, k, x.id, name, x.attrs[name]);
    assert Clean(log[k]) && log[k].id.Valid();
  }

  lemma ItemStorable(reg: Registry, log: seq<Operation>, applied: set<OpId>, x: Item)
    requires ValidIds(log) && UniqueIds(log) && Legal(reg, log) && CleanLog(log) && ItemOk(log, applied, x)
             && NarrowItem(x)
    ensures StorableItem(reg, x)
  {
    hide Legal, UniqueIds, CleanLog, RegisterOk, Erased, NarrowRegister, StorableRegister;
    RestoreReach.ContentInsertable(reg, log, applied, x);
    var k := RestoreReach.InsertOf(log, applied, x);
    assert log[k].id.Valid();
    forall name | name in x.attrs ensures StorableRegister(reg, x.kind, name, x.attrs[name]) {
      RegisterStorable(reg, log, applied, x, name);
    }
  }

  lemma PendingTyped(reg: Registry, log: seq<Operation>, op: Operation)
    requires Legal(reg, log) && CleanLog(log) && op in log && NarrowOp(op)
    ensures Typed(op)
  {
    var k :| 0 <= k < |log| && log[k] == op;
    assert LegalAt(reg, log, k) && Clean(log[k]);
  }

  lemma RowFits(d: S.Doc, r: nat)
    requires C.Exact(d.summary, d.applied) && r in d.summary.contiguous && (forall id :: id in d.applied ==> Fits(id))
    ensures Fits(OpId(r, d.summary.contiguous[r]))
  {
    var n := d.summary.contiguous[r];
    assert C.Row(d.applied, r, C.At(d.summary, r), C.GapOf(d.summary, r));
    var c :| OpId(r, c) in d.applied;
    assert Fits(OpId(r, c));
    if n >= 1 { assert OpId(r, n) in d.applied; }
  }

  lemma AppliedValid(log: seq<Operation>, d: S.Doc)
    requires ValidIds(log) && CleanLog(log) && Known(log, d.applied) && ClockAbove(log, d)
    ensures forall id :: id in d.applied ==> id.Valid()
    ensures d.applied != {} ==> d.lamport >= 1
  {
    forall id | id in d.applied ensures id.Valid() && d.lamport >= 1 {
      assert InHistory(log, id);
      var k :| 0 <= k < |log| && log[k].id == id;
      assert Clean(log[k]);
    }
    if d.applied != {} {
      var id :| id in d.applied;
      assert d.lamport >= 1;
    }
  }

  lemma NodeStorable(reg: Registry, log: seq<Operation>, d: S.Doc, seen: set<OpId>)
    requires LogOk(reg, log) && NodeOk(log, d, seen) && CleanLog(log) && Narrow(d)
    ensures Storable(reg, d)
  {
    hide Order.Tree, Strict, CanonHolds, Ordered, ItemOk, Supported, S.Ready, Settled, C.Exact, NarrowItem, NarrowOp,
         StorableItem, Typed, Legal, CleanLog, UniqueIds, UniqueStamps, Causal, ValidIds, Known, ClockAbove, InHistory,
         Fits;
    forall i | 0 <= i < |d.stream| ensures StorableItem(reg, d.stream[i]) {
      ItemStorable(reg, log, d.applied, d.stream[i]);
    }
    forall i | 0 <= i < |d.pending| ensures Typed(d.pending[i]) {
      PendingTyped(reg, log, d.pending[i]);
    }
    AppliedValid(log, d);
    forall r | r in d.summary.contiguous ensures Fits(OpId(r, d.summary.contiguous[r])) {
      RowFits(d, r);
    }
  }

  /** Every document of every run can be stored, so long as it is within the widths. */
  lemma ReachableStorable(reg: Registry, replicas: set<nat>, events: seq<Event>, a: nat)
    requires Consistent(reg) && a in Run(reg, replicas, events).docs && Narrow(Run(reg, replicas, events).docs[a])
    ensures Storable(reg, Run(reg, replicas, events).docs[a])
  {
    hide LogOk, NodeOk, CleanLog, Narrow, Storable;
    var net := Run(reg, replicas, events);
    RunOk(reg, replicas, events);
    RunClean(reg, replicas, events);
    NodeStorable(reg, net.log, net.docs[a], net.seen[a]);
  }

  // ------------------------------------------------------------------- exporting

  /** Names and values as short as the writer asks for. */
  predicate ShortAttrs(op: Operation) {
    match op
    case Insert(_, _, _, _, _, _, attrs) =>
      |attrs| <= MAX_ATTRS && forall i :: 0 <= i < |attrs| ==> WritableAttr(attrs[i])
    case Delete(_, _, _) => true
    case SetAttr(_, _, _, name, value) => WritableAttr(InitialAttr(name, value))
  }

  /** Clock, names, values and frame within the writer's limits. */
  predicate Compact(op: Operation) {
    op.lamport <= MAX_LAMPORT && ShortAttrs(op) && (Parsable(op) ==> |OpBytes(op)| <= MAX_OP_BYTES)
  }

  /** Of an issued operation the writer checks no more than that. */
  lemma IssuedWritable(reg: Registry, log: seq<Operation>, op: Operation)
    requires Legal(reg, log) && CleanLog(log) && ValidIds(log) && Causal(log) && op in log && NarrowOp(op)
    ensures Typed(op) && (Writable(op) <==> Compact(op))
  {
    hide Legal, CleanLog, OpBytes;
    PendingTyped(reg, log, op);
    var k :| 0 <= k < |log| && log[k] == op;
    assert DependsBefore(log, k);
    assert Clean(op) by { LogClean(log, k); }
    if WriterError(op).None? { WriterAdmits(op); }
    assert WriterError(op).None? <==> op.lamport <= MAX_LAMPORT && ShortAttrs(op);
  }

  lemma LogClean(log: seq<Operation>, k: int)
    requires CleanLog(log) && 0 <= k < |log|
    ensures Clean(log[k])
  {
  }

  lemma NodeExports(reg: Registry, log: seq<Operation>, d: S.Doc, seen: set<OpId>, ids: seq<OpId>, rows: seq<OpId>)
    requires LogOk(reg, log) && NodeOk(log, d, seen) && CleanLog(log) && Narrow(d)
    ensures AllEncodable(d.stream) && AllTyped(d.pending)
    ensures Export(d, ids, rows).Ok? <==> forall i :: 0 <= i < |d.pending| ==> Compact(d.pending[i])
  {
    NodeStorable(reg, log, d, seen);
    StoredEncodable(reg, d);
    hide Order.Tree, Strict, CanonHolds, Ordered, ItemsOk, Supported, Settled, C.Exact, NarrowItem, Storable, Compact,
         Writable, Typed, Legal, CleanLog, UniqueIds, UniqueStamps, Causal, ValidIds, Known, ClockAbove, Export,
         NarrowOp;
    ExportExact(d, ids, rows);
    forall i | 0 <= i < |d.pending| ensures Typed(d.pending[i]) && (Writable(d.pending[i]) <==> Compact(d.pending[i])) {
      IssuedWritable(reg, log, d.pending[i]);
    }
  }

  lemma StoredEncodable(reg: Registry, d: S.Doc)
    requires Storable(reg, d)
    ensures AllEncodable(d.stream) && AllTyped(d.pending) && |d.pending| <= PENDING_LIMIT
  {
    hide Typed, Encodable, C.Exact;
  }

  /** The export of a running replica's document succeeds if and only if everything it
      has buffered is within the writer's limits. */
  lemma RunExports(reg: Registry, replicas: set<nat>, events: seq<Event>, a: nat, ids: seq<OpId>, rows: seq<OpId>)
    requires Consistent(reg) && a in Run(reg, replicas, events).docs && Narrow(Run(reg, replicas, events).docs[a])
    ensures var d := Run(reg, replicas, events).docs[a];
            && AllEncodable(d.stream) && AllTyped(d.pending)
            && (Export(d, ids, rows).Ok? <==> forall i :: 0 <= i < |d.pending| ==> Compact(d.pending[i]))
  {
    hide LogOk, NodeOk, CleanLog, Narrow, Compact, Export, AllEncodable, AllTyped;
    var net := Run(reg, replicas, events);
    RunOk(reg, replicas, events);
    RunClean(reg, replicas, events);
    NodeExports(reg, net.log, net.docs[a], net.seen[a], ids, rows);
  }

  /** Recovery in any run: a snapshot of a replica can be taken after any events if
      and only if everything buffered is within the writer's limits; it then gives the
      replica's document back, and whatever is delivered to the recovered document
      afterwards has the effect it has on the replica that went on. */
  lemma RunRecovers(reg: Registry, replicas: set<nat>, events: seq<Event>, a: nat, self: nat, tail: seq<Operation>,
                    ids: seq<OpId>, rows: seq<OpId>) returns (e: S.Doc)
    requires Consistent(reg) && a in Run(reg, replicas, events).docs && Narrow(Run(reg, replicas, events).docs[a])
    requires var d := Run(reg, replicas, events).docs[a];
             && ListsIds(ids, d.applied) && ListsRows(rows, d.summary.contiguous) && |ids| < U32_END && |rows| < U32_END
    ensures var d := Run(reg, replicas, events).docs[a];
            && AllEncodable(d.stream) && AllTyped(d.pending)
            && (Export(d, ids, rows).Ok? <==> forall i :: 0 <= i < |d.pending| ==> Compact(d.pending[i]))
            && (Export(d, ids, rows).Ok? && SizesFit(d, ids, rows) ==>
                  Import(reg, self, Export(d, ids, rows).value) == Ok(e))
            && Fold(reg, e, tail) == (Renamed(Fold(reg, d, tail).0, self), Fold(reg, d, tail).1)
  {
    var d := Run(reg, replicas, events).docs[a];
    e := Renamed(d, self);
    assert e == d.(self := self);
    hide *;
    RunExports(reg, replicas, events, a, ids, rows);
    ReachableStorable(reg, replicas, events, a);
    FoldBlind(reg, d, self, tail);
    if Export(d, ids, rows).Ok? && SizesFit(d, ids, rows) {
      var batch := ExportBatch(d, ids, rows);
      SnapshotRestores(reg, d, self, ids, rows, batch);
    }
  }

  /** The lengths of the whole and of the pending section fit their fields. */
  predicate SizesFit(d: S.Doc, ids: seq<OpId>, rows: seq<OpId>)
    requires AllEncodable(d.stream) && AllTyped(d.pending) && Export(d, ids, rows).Ok?
  {
    SerializeBatch(d.pending).Ok? && |SerializeBatch(d.pending).value| < U32_END && Small(Export(d, ids, rows).value)
  }

  /** What an export contains of the buffer. */
  lemma ExportBatch(d: S.Doc, ids: seq<OpId>, rows: seq<OpId>) returns (batch: Bytes)
    requires AllEncodable(d.stream) && AllTyped(d.pending)
    requires Export(d, ids, rows).Ok? && SizesFit(d, ids, rows)
    ensures SerializeBatch(d.pending) == Ok(batch) && |batch| < U32_END
    ensures Export(d, ids, rows) == Ok(SnapshotBytes(d, ids, rows, batch)) && Small(SnapshotBytes(d, ids, rows, batch))
  {
    hide SerializeBatch, Le, Pow256, ItemSection, CountedPairs, HeaderBytes;
    batch := SerializeBatch(d.pending).value;
  }
}
