/** The pending buffer: retries never fail, lose nothing, and stop only when no
    buffered operation could be integrated. */
module Buffering {
  import opened Types
  import opened State
  import opened History
  import opened Delivery
  import C = Counters

  /** What stays fixed while operations are integrated: identity, allocation, and
      the set of operations delivered so far. */
  ghost predicate Carries(d: Doc, d': Doc) {
    && d'.self == d.self && d'.nextCounter == d.nextCounter && d'.retrying == d.retrying
    && d.applied <= d'.applied
    && d'.applied + PendingIds(d') == d.applied + PendingIds(d)
  }

  lemma CarriesTrans(a: Doc, b: Doc, c: Doc)
    requires Carries(a, b) && Carries(b, c)
    ensures Carries(a, c)
  {
  }

  /** Integrating records the operation and leaves buffer, identity and flag alone. */
  lemma IntegratedNotes(reg: Registry, d: Doc, op: Operation)
    requires EffectOf(reg, d, op).1.Integrated?
    ensures var d' := EffectOf(reg, d, op).0;
            && d'.applied == d.applied + {op.id} && d'.pending == d.pending
            && d'.self == d.self && d'.nextCounter == d.nextCounter && d'.retrying == d.retrying
  {
    hide Skel, CheckInsert, ItemOf, IndexOf, ApplyRegister, C.Note;
  }

  lemma StepAny(reg: Registry, log: seq<Operation>, d: Doc, k: int) returns (d': Doc)
    requires LogOk(reg, log) && CoreOk(log, d) && 0 <= k < |log|
    requires log[k].id !in d.applied && Ready(d, log[k])
    ensures EffectOf(reg, d, log[k]) == (d', Integrated) && CoreOk(log, d')
    ensures d'.applied == d.applied + {log[k].id} && d'.pending == d.pending
    ensures d'.self == d.self && d'.nextCounter == d.nextCounter && d'.retrying == d.retrying
  {
    hide EffectOf, LogOk, CoreOk, Ready;
    d' := EffectOf(reg, d, log[k]).0;
    match log[k] {
      case Insert(_, _, _, _, _, _, _) => StepInsert(reg, log, d, k);
      case Delete(_, _, _) => StepDelete(reg, log, d, k);
      case SetAttr(_, _, _, _, _) => StepSetAttr(reg, log, d, k);
    }
    IntegratedNotes(reg, d, log[k]);
  }

  /** Dropping a buffered operation changes nothing else. */
  lemma DropPending(log: seq<Operation>, d: Doc, i: int, d1: Doc)
    requires CoreOk(log, d) && 0 <= i < |d.pending| && d1 == d.(pending := Without(d.pending, i))
    ensures CoreOk(log, d1) && PendingIds(d) == PendingIds(d1) + {d.pending[i].id}
  {
    DropIds(d, i, d1);
    DropKnown(log, d, i, d1);
    OtherPending(log, d, d1);
  }

  lemma DropKnown(log: seq<Operation>, d: Doc, i: int, d1: Doc)
    requires CoreOk(log, d) && 0 <= i < |d.pending| && d1 == d.(pending := Without(d.pending, i))
    ensures PendingKnown(log, d1)
  {
    hide Known, Ordered, ItemsOk, Supported, ClockAbove, C.Exact;
  }

  lemma DropIds(d: Doc, i: int, d1: Doc)
    requires 0 <= i < |d.pending| && d1 == d.(pending := Without(d.pending, i))
    ensures PendingIds(d) == PendingIds(d1) + {d.pending[i].id}
  {
    forall id | id in PendingIds(d) ensures id in PendingIds(d1) + {d.pending[i].id} {
      var j :| 0 <= j < |d.pending| && d.pending[j].id == id;
      if j != i {
        assert d1.pending[if j < i then j else j - 1].id == id;
      }
    }
    forall id | id in PendingIds(d1) ensures id in PendingIds(d) {
      var j :| 0 <= j < |d1.pending| && d1.pending[j].id == id;
      assert d.pending[if j < i then j else j + 1].id == id;
    }
  }

  /** The history does not care about the buffer or the guard flag. */
  lemma OtherPending(log: seq<Operation>, d: Doc, d1: Doc)
    requires CoreOk(log, d) && PendingKnown(log, d1)
    requires d1 == d.(pending := d1.pending, retrying := d1.retrying)
    ensures CoreOk(log, d1)
  {
    assert Ordered(log, d1) by {
      assert forall id :: IndexOf(d1, id) == IndexOf(d, id);
    }
    assert Supported(log, d1) by {
      forall k | 0 <= k < |log| && log[k].id in d.applied ensures Ready(d1, log[k]) {
        ReadySame(d, d1, log[k]);
      }
    }
  }

  ghost predicate ScannedIdle(d: Doc, i: int) {
    forall j :: 0 <= j < i && j < |d.pending| ==> !Ready(d, d.pending[j])
  }

  lemma ScannedAfterDrop(d: Doc, i: int)
    requires 0 <= i < |d.pending| && ScannedIdle(d, i)
    ensures ScannedIdle(d.(pending := Without(d.pending, i)), i)
  {
    var d1 := d.(pending := Without(d.pending, i));
    forall j | 0 <= j < i && j < |d1.pending| ensures !Ready(d1, d1.pending[j]) {
      ReadySame(d, d1, d.pending[j]);
    }
  }

  /** Taking one ready operation out of the buffer and integrating it. */
  lemma TakeReady(reg: Registry, log: seq<Operation>, d: Doc, d1: Doc, i: nat) returns (d2: Doc)
    requires LogOk(reg, log) && CoreOk(log, d) && i < |d.pending|
    requires Ready(d, d.pending[i]) && d.pending[i].id !in d.applied
    requires d1 == d.(pending := Without(d.pending, i))
    ensures EffectOf(reg, d1, d.pending[i]) == (d2, Integrated)
    ensures CoreOk(log, d2) && Carries(d, d2) && |d2.pending| == |d.pending| - 1
  {
    hide EffectOf, Known, Ordered, ItemsOk, Supported, ClockAbove, LogOk;
    DropPending(log, d, i, d1);
    ReadySame(d, d1, d.pending[i]);
    var k :| 0 <= k < |log| && log[k] == d.pending[i];
    d2 := StepAny(reg, log, d1, k);
    assert PendingIds(d2) == PendingIds(d1);
  }

  lemma PassDrops(reg: Registry, d: Doc, i: nat, progress: bool)
    requires i < |d.pending| && Ready(d, d.pending[i]) && d.pending[i].id in d.applied
    ensures RetryPass(reg, d, i, progress) == RetryPass(reg, d.(pending := Without(d.pending, i)), i, progress)
  {
    hide EffectOf, Ready;
  }

  lemma PassTakes(reg: Registry, d: Doc, i: nat, progress: bool, d1: Doc, d2: Doc)
    requires i < |d.pending| && Ready(d, d.pending[i]) && d.pending[i].id !in d.applied
    requires d1 == d.(pending := Without(d.pending, i)) && EffectOf(reg, d1, d.pending[i]) == (d2, Integrated)
    requires |d2.pending| == |d.pending| - 1
    ensures RetryPass(reg, d, i, progress) == RetryPass(reg, d2, i, true)
  {
    hide EffectOf, Ready;
  }

  lemma PassEnds(reg: Registry, d: Doc, i: nat, progress: bool)
    requires i == |d.pending| && (!progress ==> ScannedIdle(d, i))
    ensures RetryPass(reg, d, i, progress) == Pass(d, progress, None) && (!progress ==> Settled(d)) && Carries(d, d)
  {
    hide Ready;
  }

  lemma ScannedNext(d: Doc, i: nat)
    requires i < |d.pending| && ScannedIdle(d, i) && !Ready(d, d.pending[i])
    ensures ScannedIdle(d, i + 1)
  {
    hide Ready;
  }

  /** A buffered duplicate is dropped. */
  lemma DropKeeps(log: seq<Operation>, d: Doc, i: nat, progress: bool, d1: Doc)
    requires CoreOk(log, d) && i < |d.pending| && d.pending[i].id in d.applied
    requires d1 == d.(pending := Without(d.pending, i)) && (!progress ==> ScannedIdle(d, i))
    ensures CoreOk(log, d1) && Carries(d, d1) && (!progress ==> ScannedIdle(d1, i))
  {
    hide Ready, CoreOk;
    DropPending(log, d, i, d1);
    if !progress { ScannedAfterDrop(d, i); }
  }

  /** One pass keeps the document determined by the history, meets no error, and,
      if it makes no progress, has found nothing ready. */
  lemma {:induction false} PassKeeps(reg: Registry, log: seq<Operation>, d: Doc, i: nat, progress: bool, p: Pass)
    requires LogOk(reg, log) && CoreOk(log, d) && i <= |d.pending|
    requires p == RetryPass(reg, d, i, progress)
    requires !progress ==> ScannedIdle(d, i)
    ensures p.error.None? && CoreOk(log, p.doc) && Carries(d, p.doc)
    ensures !p.progress ==> Settled(p.doc)
    decreases |d.pending| - i
  {
    hide LogOk, CoreOk, ScannedIdle, Ready, Settled, Carries, RetryPass;
    if i == |d.pending| {
      PassEnds(reg, d, i, progress);
    } else if !Ready(d, d.pending[i]) {
      PassSkips(reg, d, i, progress);
      if !progress { ScannedNext(d, i); }
      PassKeeps(reg, log, d, i + 1, progress, p);
    } else {
      var d1 := d.(pending := Without(d.pending, i));
      if d.pending[i].id in d.applied {
        PassDrops(reg, d, i, progress);
        DropKeeps(log, d, i, progress, d1);
        PassKeeps(reg, log, d1, i, progress, p);
        CarriesTrans(d, d1, p.doc);
      } else {
        var d2 := TakeReady(reg, log, d, d1, i);
        PassTakes(reg, d, i, progress, d1, d2);
        PassKeeps(reg, log, d2, i, true, p);
        CarriesTrans(d, d2, p.doc);
      }
    }
  }

  lemma {:induction false} LoopKeeps(reg: Registry, log: seq<Operation>, d: Doc, p: Pass)
    requires LogOk(reg, log) && CoreOk(log, d) && p == RetryLoop(reg, d)
    ensures p.error.None? && CoreOk(log, p.doc) && Carries(d, p.doc) && Settled(p.doc)
    decreases |d.pending|
  {
    var first := RetryPass(reg, d, 0, false);
    PassKeeps(reg, log, d, 0, false, first);
    if first.progress {
      LoopKeeps(reg, log, first.doc, p);
    }
  }

  lemma FlagFrame(log: seq<Operation>, d: Doc, up: bool)
    requires CoreOk(log, d)
    ensures CoreOk(log, d.(retrying := up))
    ensures Settled(d) ==> Settled(d.(retrying := up))
    ensures PendingIds(d.(retrying := up)) == PendingIds(d)
  {
    var d1 := d.(retrying := up);
    OtherPending(log, d, d1);
    assert forall op :: Ready(d1, op) == Ready(d, op);
  }

  lemma RetryKeeps(reg: Registry, log: seq<Operation>, d: Doc) returns (d': Doc)
    requires LogOk(reg, log) && CoreOk(log, d) && !d.retrying
    ensures Retry(reg, d) == (d', Ok(true))
    ensures CoreOk(log, d') && Carries(d, d') && Settled(d')
  {
    d' := Retry(reg, d).0;
    if |d.pending| > 0 {
      FlagFrame(log, d, true);
      var p := RetryLoop(reg, d.(retrying := true));
      LoopKeeps(reg, log, d.(retrying := true), p);
      FlagFrame(log, p.doc, false);
    }
  }

  /** Integrating a ready operation: it is applied, and afterwards nothing that is
      still buffered could be. */
  lemma IntegrateReady(reg: Registry, log: seq<Operation>, d: Doc, k: int) returns (d': Doc)
    requires LogOk(reg, log) && CoreOk(log, d) && !d.retrying && 0 <= k < |log|
    requires log[k].id !in d.applied && Ready(d, log[k])
    ensures IntegrateOp(reg, d, log[k]) == (d', Ok(true))
    ensures CoreOk(log, d') && Settled(d') && !d'.retrying
    ensures d'.self == d.self && d'.nextCounter == d.nextCounter
    ensures d.applied <= d'.applied && log[k].id in d'.applied
    ensures d'.applied + PendingIds(d') == d.applied + PendingIds(d) + {log[k].id}
  {
    hide EffectOf, IntegrateOp, Retry, CoreOk, LogOk, Settled, Ready;
    var d1 := StepAny(reg, log, d, k);
    assert PendingIds(d1) == PendingIds(d);
    d' := RetryKeeps(reg, log, d1);
    ThenRetry(reg, d, log[k], d1, d');
  }

  lemma ThenRetry(reg: Registry, d: Doc, op: Operation, d1: Doc, d2: Doc)
    requires EffectOf(reg, d, op) == (d1, Integrated) && Retry(reg, d1) == (d2, Ok(true))
    ensures IntegrateOp(reg, d, op) == (d2, Ok(true))
  {
    hide EffectOf, Retry;
  }

  /** A delivery the document is not ready for waits, unless the buffer is full. */
  lemma BufferKeeps(reg: Registry, log: seq<Operation>, d: Doc, k: int) returns (d': Doc)
    requires LogOk(reg, log) && CoreOk(log, d) && Settled(d) && 0 <= k < |log|
    requires log[k].id !in d.applied && !Ready(d, log[k])
    ensures IntegrateOp(reg, d, log[k]) ==
              if |d.pending| >= PENDING_LIMIT then (d, Err(PendingLimitExceeded)) else (d', Ok(true))
    ensures d' == d.(pending := d.pending + [log[k]]) && CoreOk(log, d') && Settled(d')
  {
    assert LegalAt(reg, log, k) && DependsBefore(log, k);
    assert EffectOf(reg, d, log[k]) == Buffer(d, log[k]);
    d' := d.(pending := d.pending + [log[k]]);
    OtherPending(log, d, d');
    forall i | 0 <= i < |d'.pending| ensures !Ready(d', d'.pending[i]) {
      ReadySame(d, d', d'.pending[i]);
    }
  }

  /** What a delivery does: the operation is applied or waits, duplicates change
      nothing, and a refusal for want of space leaves the document as it was. */
  ghost predicate DeliveredOk(d: Doc, op: Operation, d': Doc, r: Result<bool>) {
    && d'.self == d.self && d'.nextCounter == d.nextCounter && !d'.retrying && d.applied <= d'.applied
    && (r.Ok? ==> d'.applied + PendingIds(d') == d.applied + PendingIds(d) + {op.id})
    && (r.Err? ==> d' == d && |d.pending| >= PENDING_LIMIT)
  }

  lemma DeliverKeeps(reg: Registry, log: seq<Operation>, d: Doc, k: int) returns (d': Doc, r: Result<bool>)
    requires LogOk(reg, log) && CoreOk(log, d) && Settled(d) && !d.retrying && 0 <= k < |log|
    ensures ApplyRemote(reg, d, log[k]) == (d', r)
    ensures CoreOk(log, d') && Settled(d') && DeliveredOk(d, log[k], d', r)
  {
    hide LogOk, CoreOk, Settled, Ready, IntegrateOp;
    if log[k].id in d.applied {
      d', r := d, Ok(false);
    } else if Ready(d, log[k]) {
      d' := IntegrateReady(reg, log, d, k);
      r := Ok(true);
    } else {
      d' := BufferKeeps(reg, log, d, k);
      r := Ok(true);
      if |d.pending| >= PENDING_LIMIT {
        d', r := d, Err(PendingLimitExceeded);
      } else {
        PendingAppend(d, log[k]);
      }
    }
  }

  lemma PendingAppend(d: Doc, op: Operation)
    ensures PendingIds(d.(pending := d.pending + [op])) == PendingIds(d) + {op.id}
  {
    var d1 := d.(pending := d.pending + [op]);
    assert d1.pending[|d.pending|] == op;
    forall i | 0 <= i < |d.pending| ensures d.pending[i].id in PendingIds(d1) {
      assert d1.pending[i] == d.pending[i];
    }
  }
}
