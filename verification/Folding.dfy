/** Delivering a list of operations to one document. */
module Folding {
  import opened Types
  import opened Order
  import opened State
  import C = Counters

  /** Applying a batch in order, up to the first refusal. */
  function Fold(reg: Registry, d: Doc, ops: seq<Operation>): (Doc, Result<bool>) {
    if |ops| == 0 then (d, Ok(true))
    else
      var (d1, r) := Fold(reg, d, ops[..|ops| - 1]);
      if r.Err? then (d1, r) else ApplyRemote(reg, d1, ops[|ops| - 1])
  }

  lemma FoldOne(reg: Registry, d: Doc, ops: seq<Operation>, op: Operation)
    requires Fold(reg, d, ops).1.Ok?
    ensures Fold(reg, d, ops + [op]) == ApplyRemote(reg, Fold(reg, d, ops).0, op)
  {
    assert (ops + [op])[..|ops|] == ops;
  }

  lemma {:induction false} FoldMore(reg: Registry, d: Doc, ops: seq<Operation>, more: seq<Operation>)
    requires Fold(reg, d, ops).1.Ok?
    ensures Fold(reg, d, ops + more).0 == Fold(reg, Fold(reg, d, ops).0, more).0
    ensures Fold(reg, d, ops + more).1.Ok? == Fold(reg, Fold(reg, d, ops).0, more).1.Ok?
  {
    hide ApplyRemote;
    if |more| == 0 {
      assert ops + more == ops;
    } else {
      FoldMore(reg, d, ops, more[..|more| - 1]);
      assert (ops + more)[..|ops + more| - 1] == ops + more[..|more| - 1];
    }
  }

  lemma FoldNone(reg: Registry, d: Doc)
    ensures Fold(reg, d, []) == (d, Ok(true))
  {
  }

  // ------------------------------------------------------- identity plays no part

  /** The same document in another replica's hands. */
  function Renamed(d: Doc, self: nat): Doc {
    d.(self := self)
  }

  lemma IndexIs(d: Doc, self: nat, id: OpId)
    ensures IndexOf(Renamed(d, self), id) == IndexOf(d, id)
  {
  }

  lemma PresentIs(d: Doc, self: nat, a: Option<OpId>)
    ensures Present(Renamed(d, self), a) == Present(d, a)
  {
  }

  lemma InsertItemBlind(d: Doc, self: nat, op: Operation)
    requires op.Insert?
    ensures InsertItem(Renamed(d, self), op) == Renamed(InsertItem(d, op), self)
  {
    hide Skel, Boundary, ItemOf;
  }

  lemma InsertBlind(reg: Registry, d: Doc, self: nat, op: Operation)
    requires op.Insert?
    ensures EffectInsert(reg, Renamed(d, self), op)
            == (Renamed(EffectInsert(reg, d, op).0, self), EffectInsert(reg, d, op).1)
  {
    hide InsertItem, CheckInsert, IndexOf, Present, C.Note, Skel, Integrate;
    IndexIs(d, self, op.id);
    PresentIs(d, self, op.left);
    PresentIs(d, self, op.right);
    InsertItemBlind(d, self, op);
  }

  lemma SetAttrBlind(reg: Registry, d: Doc, self: nat, op: Operation)
    requires op.SetAttr?
    ensures EffectSetAttr(reg, Renamed(d, self), op)
            == (Renamed(EffectSetAttr(reg, d, op).0, self), EffectSetAttr(reg, d, op).1)
  {
    hide IndexOf, C.Note, ApplyRegister;
    if op.target.Some? { IndexIs(d, self, op.target.value); }
  }

  lemma DeleteBlind(d: Doc, self: nat, op: Operation)
    requires op.Delete?
    ensures EffectDelete(Renamed(d, self), op) == (Renamed(EffectDelete(d, op).0, self), EffectDelete(d, op).1)
  {
    hide IndexOf, C.Note;
    if op.target.Some? { IndexIs(d, self, op.target.value); }
  }

  lemma EffectBlind(reg: Registry, d: Doc, self: nat, op: Operation)
    ensures EffectOf(reg, Renamed(d, self), op) == (Renamed(EffectOf(reg, d, op).0, self), EffectOf(reg, d, op).1)
  {
    hide EffectInsert, EffectDelete, EffectSetAttr, Renamed;
    match op
    case Insert(_, _, _, _, _, _, _) => InsertBlind(reg, d, self, op);
    case Delete(_, _, _) => DeleteBlind(d, self, op);
    case SetAttr(_, _, _, _, _) => SetAttrBlind(reg, d, self, op);
  }

  lemma {:induction false} PassBlind(reg: Registry, d: Doc, self: nat, i: nat, progress: bool)
    requires i <= |d.pending|
    ensures var p := RetryPass(reg, d, i, progress);
            RetryPass(reg, Renamed(d, self), i, progress) == p.(doc := Renamed(p.doc, self))
    decreases |d.pending| - i
  {
    hide EffectOf, Ready;
    if i < |d.pending| {
      var op := d.pending[i];
      var d1 := d.(pending := Without(d.pending, i));
      EffectBlind(reg, d1, self, op);
      ReadySame(d, Renamed(d, self), op);
      ReadySame(d, d1, op);
      if !Ready(d, op) {
        PassBlind(reg, d, self, i + 1, progress);
      } else if op.id in d.applied {
        PassBlind(reg, d1, self, i, progress);
      } else {
        ReadyNotBuffered(reg, d1, op);
        var d2 := EffectOf(reg, d1, op).0;
        if !EffectOf(reg, d1, op).1.Refused? { PassBlind(reg, d2, self, i, true); }
      }
    }
  }

  lemma {:induction false} LoopBlind(reg: Registry, d: Doc, self: nat)
    ensures var p := RetryLoop(reg, d);
            RetryLoop(reg, Renamed(d, self)) == p.(doc := Renamed(p.doc, self))
    decreases |d.pending|
  {
    hide RetryPass;
    PassBlind(reg, d, self, 0, false);
    var p := RetryPass(reg, d, 0, false);
    if !p.error.Some? && p.progress { LoopBlind(reg, p.doc, self); }
  }

  /** Delivery does not look at the receiver's identity. */
  lemma ApplyBlind(reg: Registry, d: Doc, self: nat, op: Operation)
    ensures var r := ApplyRemote(reg, d, op);
            ApplyRemote(reg, Renamed(d, self), op) == (Renamed(r.0, self), r.1)
  {
    hide EffectOf, RetryLoop;
    EffectBlind(reg, d, self, op);
    var d1 := EffectOf(reg, d, op).0;
    LoopBlind(reg, d1.(retrying := true), self);
  }

  lemma {:induction false} FoldBlind(reg: Registry, d: Doc, self: nat, ops: seq<Operation>)
    ensures var r := Fold(reg, d, ops);
            Fold(reg, Renamed(d, self), ops) == (Renamed(r.0, self), r.1)
  {
    hide ApplyRemote, Renamed;
    if |ops| > 0 {
      FoldBlind(reg, d, self, ops[..|ops| - 1]);
      ApplyBlind(reg, Fold(reg, d, ops[..|ops| - 1]).0, self, ops[|ops| - 1]);
    }
  }
}
