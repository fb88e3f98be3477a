/** The second half of the block merge command: the merged document is restored
    onto the current one, and that restore succeeds. */
module MergeRestore {
  import opened Types
  import opened State
  import opened History
  import opened Network
  import opened Edits
  import opened Issuing
  import opened RestoreReach
  import Delivery
  import R = Restore
  import RP = RestorePlan
  import C = Counters

  /** Local edits extend the history; the document they started from stays a
      document of that history. */
  lemma {:induction false} ScriptExtends(reg: Registry, log: seq<Operation>, d: Doc, seen: set<OpId>, script: seq<Edit>)
      returns (log': seq<Operation>, seen': set<OpId>)
    requires Consistent(reg) && LogOk(reg, log) && NodeOk(log, d, seen)
    ensures LogOk(reg, log') && NodeOk(log', PerformAll(reg, d, script), seen') && CoreOk(log', d)
    decreases |script|
  {
    hide LogOk, CoreOk, Perform, NodeOk;
    NodeCore(log, d, seen);
    if |script| == 0 {
      log', seen' := log, seen;
    } else {
      var n := |script| - 1;
      var log1, seen1 := ScriptExtends(reg, log, d, seen, script[..n]);
      log', seen' := EditExtends(reg, log1, d, PerformAll(reg, d, script[..n]), seen1, script[n]);
    }
  }

  lemma NodeCore(log: seq<Operation>, d: Doc, seen: set<OpId>)
    requires NodeOk(log, d, seen)
    ensures CoreOk(log, d) && Settled(d) && d.self != 0 && d.nextCounter >= 1 && !d.retrying
  {
    hide CoreOk, Settled, Own;
  }

  lemma EditExtends(reg: Registry, log: seq<Operation>, d: Doc, d1: Doc, seen: set<OpId>, e: Edit)
      returns (log': seq<Operation>, seen': set<OpId>)
    requires Consistent(reg) && LogOk(reg, log) && NodeOk(log, d1, seen) && CoreOk(log, d)
    ensures LogOk(reg, log') && NodeOk(log', Perform(reg, d1, e).0, seen') && CoreOk(log', d)
  {
    CoreUnique(reg, log, d1, seen);
    hide LogOk, CoreOk, Perform, NodeOk, IssuedBy, Generate;
    NodeCore(log, d1, seen);
    var op := PerformIssues(reg, d1, e);
    if op.None? {
      log', seen' := log, seen;
    } else {
      var d2 := GenerateKeeps(reg, log, d1, seen, op.value);
      CoreExtends(reg, log, d, op.value);
      log', seen' := log + [op.value], seen + {op.value.id};
    }
  }

  lemma CoreUnique(reg: Registry, log: seq<Operation>, d: Doc, seen: set<OpId>)
    requires LogOk(reg, log) && NodeOk(log, d, seen)
    ensures Order.Unique(Skel(d.stream))
  {
    Delivery.UniqueStream(log, d);
  }

  /** Restoring the current document to what local edits made of it succeeds: the
      merge command's restore is never refused. */
  lemma EditedRestores(reg: Registry, log: seq<Operation>, d: Doc, seen: set<OpId>, script: seq<Edit>)
    requires Consistent(reg) && LogOk(reg, log) && NodeOk(log, d, seen)
    requires C.GapOf(d.summary, RP.RESTORE_REPLICA) == {} && NoneAwaited(d, R.Basis(d, PerformAll(reg, d, script)))
    requires var e := PerformAll(reg, d, script);
             R.InRange(R.Basis(d, e), |RP.Batch(d.stream, e.stream, R.Basis(d, e))|)
    ensures var e := PerformAll(reg, d, script);
            R.Restores(reg, d, e, RP.Batch(d.stream, e.stream, R.Basis(d, e)))
  {
    hide LogOk, CoreOk, NodeOk, R.SameHistory, R.InRange, R.Basis, RP.Batch, R.Restores, PerformAll,
         NoneAwaited, Settled;
    var log', seen' := ScriptExtends(reg, log, d, seen, script);
    NodeCore(log, d, seen);
    NodeCore(log', PerformAll(reg, d, script), seen');
    CoreSameHistory(reg, log', d, PerformAll(reg, d, script));
    R.ChecksNeverFire(reg, d, PerformAll(reg, d, script));
  }
}
