/** The whole block merge command (cpp/worker/main.cpp) on the document of a running
    replica: imported under the maintenance identity, merged, and the merged document
    restored onto it. */
module MergeCommand {
  import opened Types
  import opened State
  import opened Visible
  import opened History
  import opened Network
  import opened Edits
  import opened Folding
  import opened BlockMerge
  import opened BlockMergePlan
  import opened Sessions
  import RP = RestorePlan
  import R = Restore
  import RestoreReach
  import MergeRestore
  import Canonical
  import Order
  import C = Counters

  // "SYSC"
  const MAINTENANCE_REPLICA: nat := 0x53595343

  /** No client and no restore uses the maintenance identity. */
  ghost predicate Reserved(log: seq<Operation>) {
    forall k :: 0 <= k < |log| ==> log[k].id.replica != MAINTENANCE_REPLICA
  }

  // --------------------------------------------------------- under another identity

  /** The history does not care whose document it is. */
  lemma CoreRenamed(log: seq<Operation>, d: Doc, self: nat)
    requires CoreOk(log, d)
    ensures CoreOk(log, Renamed(d, self))
  {
    var e := Renamed(d, self);
    forall id ensures IndexOf(e, id) == IndexOf(d, id) { SameIndex(d, e, id); }
    hide IndexOf, C.Exact, ItemOk;
    assert Supported(log, e) by {
      forall k | 0 <= k < |log| && log[k].id in d.applied ensures Ready(e, log[k]) { ReadySame(d, e, log[k]); }
    }
  }

  lemma NodeRenamed(log: seq<Operation>, d: Doc, seen: set<OpId>)
    requires NodeOk(log, d, seen) && Reserved(log)
    ensures NodeOk(log, Renamed(d, MAINTENANCE_REPLICA), seen)
  {
    CoreRenamed(log, d, MAINTENANCE_REPLICA);
    SettledSame(d, Renamed(d, MAINTENANCE_REPLICA));
    hide CoreOk, Settled;
  }

  /** A running replica's document, imported by the worker, is ready for edits. */
  lemma ImportEditable(reg: Registry, replicas: set<nat>, events: seq<Event>, a: nat)
    requires Consistent(reg) && a in Run(reg, replicas, events).docs && Reserved(Run(reg, replicas, events).log)
    ensures Editable(Renamed(Run(reg, replicas, events).docs[a], MAINTENANCE_REPLICA))
  {
    hide Editable, NodeOk, LogOk, Reserved;
    var net := Run(reg, replicas, events);
    RunOk(reg, replicas, events);
    NodeRenamed(net.log, net.docs[a], net.seen[a]);
    NodeEditable(reg, net.log, Renamed(net.docs[a], MAINTENANCE_REPLICA), net.seen[a]);
  }

  // ------------------------------------------------------------------ the restore

  /** Restore identities are a contiguous prefix, and nothing buffered waits for a
      later one. */
  ghost predicate RestoreReady(d: Doc) {
    C.GapOf(d.summary, RP.RESTORE_REPLICA) == {} && RestoreReach.NoneAwaited(d, R.Basis(d, d))
  }

  /** A later basis leaves still less to wait for. */
  lemma AwaitedLater(d: Doc, e: Doc)
    requires RestoreReach.NoneAwaited(d, R.Basis(d, d))
    ensures RestoreReach.NoneAwaited(d, R.Basis(d, e))
  {
    hide C.At, Canonical.TopItems;
  }

  /** In every run the second half of the command succeeds: whatever edits the merge
      made of the imported document, restoring it onto the current one passes every
      check. */
  lemma MergedRestores(reg: Registry, replicas: set<nat>, events: seq<Event>, a: nat, script: seq<Edit>)
    requires Consistent(reg) && a in Run(reg, replicas, events).docs && Reserved(Run(reg, replicas, events).log)
    requires RestoreReady(Run(reg, replicas, events).docs[a])
    requires var d := Renamed(Run(reg, replicas, events).docs[a], MAINTENANCE_REPLICA);
             var e := PerformAll(reg, d, script);
             R.InRange(R.Basis(d, e), |RP.Batch(d.stream, e.stream, R.Basis(d, e))|)
    ensures var d := Renamed(Run(reg, replicas, events).docs[a], MAINTENANCE_REPLICA);
            var e := PerformAll(reg, d, script);
            R.Restores(reg, d, e, RP.Batch(d.stream, e.stream, R.Basis(d, e)))
  {
    hide NodeOk, LogOk, Reserved, R.Restores, R.InRange, RP.Batch, PerformAll, R.Basis, Run;
    var net := Run(reg, replicas, events);
    var d := Renamed(net.docs[a], MAINTENANCE_REPLICA);
    RunOk(reg, replicas, events);
    NodeRenamed(net.log, net.docs[a], net.seen[a]);
    ReadyRenamed(net.docs[a]);
    AwaitedLater(d, PerformAll(reg, d, script));
    MergeRestore.EditedRestores(reg, net.log, d, net.seen[a], script);
  }

  /** Folded into the current document, the batch shows what the merge shows. */
  lemma MergedShows(reg: Registry, replicas: set<nat>, events: seq<Event>, a: nat, script: seq<Edit>)
    requires Consistent(reg) && a in Run(reg, replicas, events).docs && Reserved(Run(reg, replicas, events).log)
    requires RestoreReady(Run(reg, replicas, events).docs[a])
    ensures var d := Renamed(Run(reg, replicas, events).docs[a], MAINTENANCE_REPLICA);
            var e := PerformAll(reg, d, script);
            var ops := RP.Batch(d.stream, e.stream, R.Basis(d, e));
            R.InRange(R.Basis(d, e), |ops|) ==>
              && R.Restores(reg, d, e, ops) && Fold(reg, d, ops).1.Ok?
              && VisibleDocument(Fold(reg, d, ops).0.stream) == VisibleDocument(e.stream)
  {
    var d := Renamed(Run(reg, replicas, events).docs[a], MAINTENANCE_REPLICA);
    var e := PerformAll(reg, d, script);
    var ops := RP.Batch(d.stream, e.stream, R.Basis(d, e));
    hide *;
    if R.InRange(R.Basis(d, e), |ops|) {
      MergedRestores(reg, replicas, events, a, script);
      RestoresShows(reg, d, e, ops);
    }
  }

  lemma ReadyRenamed(d: Doc)
    requires RestoreReady(d)
    ensures RestoreReady(Renamed(d, MAINTENANCE_REPLICA))
  {
    hide C.At, Canonical.TopItems;
  }

  // ------------------------------------------------------------------ the command

  datatype MergeAnswer = NotMerged(why: MergeOutcome) | Merged(target: Doc, diff: R.Outcome)

  /** No edits of a merge carry the document beyond the widths of the encoding. */
  ghost predicate StaysWired(reg: Registry, d: Doc) {
    forall script :: |script| <= MAX_MERGE_OPS ==> Canonical.AllWired(PerformAll(reg, d, script).stream)
  }

  /** The command on the imported document of any running replica: it stops before the
      restore exactly where MergeBlocks says; after that no run-time check refuses, and
      the batch it answers with, folded into the current document, shows the
      simultaneous replacement of all ranges. */
  method MergeDiff(reg: Registry, current: Doc, source: seq<VisibleBlock>, ranges: seq<MergeRange>,
                   idsA: seq<OpId>, rowsA: seq<OpId>, idsB: seq<OpId>, rowsB: seq<OpId>,
                   ghost replicas: set<nat>, ghost events: seq<Event>, ghost a: nat)
    returns (r: MergeAnswer)
    requires Consistent(reg) && a in Run(reg, replicas, events).docs && Reserved(Run(reg, replicas, events).log)
    requires current == Renamed(Run(reg, replicas, events).docs[a], MAINTENANCE_REPLICA)
    requires RestoreReady(Run(reg, replicas, events).docs[a])
    requires AllWritable(reg, source) && StaysWired(reg, current)
    ensures r.NotMerged? && r.why.Malformed? <==>
            !(SlicesThere(ranges, |source|)
              && Accepted(HunksOf(ranges, source), |VisibleDocument(current.stream)|))
    ensures r.NotMerged? ==> !r.why.Done?
    ensures r.NotMerged? && !r.why.Malformed? ==>
              var sp, hunks := Spots(current.stream), HunksOf(ranges, source);
              && Accepted(hunks, |VisibleDocument(current.stream)|)
              && (r.why.TooLarge? ==> Cost(sp, hunks, 0) > MAX_MERGE_OPS)
              && (r.why.Failed? ==> current.nextCounter + Cost(sp, hunks, 0) >= MAX_COUNTER)
              && (r.why.Mismatch? ==> Misplaced(Shown(sp), hunks, 0))
    ensures r.Merged? ==>
              var shown := OrDefault(Expected(VisibleDocument(current.stream), HunksOf(ranges, source), 0));
              var batch := RP.Batch(current.stream, r.target.stream, R.Basis(current, r.target));
              && !Misplaced(Shown(Spots(current.stream)), HunksOf(ranges, source), 0)
              && VisibleDocument(r.target.stream) == shown
              && (R.InRange(R.Basis(current, r.target), |batch|) ==>
                    && !r.diff.Rejected? && !r.diff.Undrained? && !r.diff.Diverged?
                    && Fold(reg, current, batch).1.Ok?
                    && VisibleDocument(Fold(reg, current, batch).0.stream) == shown)
              && (r.diff.Restored? ==> r.diff.ops == batch)
  {
    hide *;
    ImportEditable(reg, replicas, events, a);
    var m;
    ghost var script;
    m, script := MergeBlocks(reg, current, source, ranges);
    if !m.Done? {
      return NotMerged(m);
    }
    Wires(reg, current, []);
    Wires(reg, current, script);
    EditableUnique(current);
    EditableUnique(m.target);
    var diff := R.ComputeRestoreDiff(reg, current, m.target, idsA, rowsA, idsB, rowsB);
    MergedShows(reg, replicas, events, a, script);
    return Merged(m.target, diff);
  }

  lemma Wires(reg: Registry, d: Doc, script: seq<Edit>)
    requires StaysWired(reg, d) && |script| <= MAX_MERGE_OPS
    ensures Canonical.AllWired(PerformAll(reg, d, script).stream)
    ensures script == [] ==> PerformAll(reg, d, script) == d
  {
    hide Canonical.AllWired;
  }

  lemma EditableUnique(d: Doc)
    requires Editable(d)
    ensures Order.Unique(Skel(d.stream))
  {
  }

  lemma RestoresShows(reg: Registry, a: Doc, b: Doc, ops: seq<Operation>)
    requires R.Restores(reg, a, b, ops)
    ensures Fold(reg, a, ops).1.Ok? && VisibleDocument(Fold(reg, a, ops).0.stream) == VisibleDocument(b.stream)
  {
  }
}
