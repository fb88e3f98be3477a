/** compute_restore_diff (cpp/worker/main.cpp): the batch that restores one
    document to another's visible content, and the checks behind it. */
module Restore {
  import opened Types
  import opened Order
  import opened State
  import opened Visible
  import opened LiveList
  import opened Names
  import opened Folding
  import opened RestorePlan
  import opened RestoreComplete
  import opened RestorePasses
  import opened Canonical
  import W = Wire
  import CIO = CanonicalIO
  import Codec
  import Batches
  import Frames
  import C = Counters

  /** The identity basis: above every restore counter either side has applied, and
      above every register clock. */
  function Basis(a: Doc, b: Doc): Stamp {
    Stamp(Max(C.At(a.summary, RESTORE_REPLICA), C.At(b.summary, RESTORE_REPLICA)),
          Max(TopItems(a.stream, 0), TopItems(b.stream, 0)))
  }

  // ---------------------------------------------------------- operations as written

  predicate InRange(t: Stamp, n: nat) {
    t.counter + n <= MAX_COUNTER && t.lamport + n <= MAX_LAMPORT
  }

  lemma StampFits(t: Stamp, n: nat, m: nat)
    requires InRange(t, n) && m <= n
    ensures W.Fits(IdOf(After(t, m))) && t.lamport + m < W.U64_END
  {
  }

  lemma LiveWired(s: seq<Item>, j: int)
    requires AllWired(s) && AllDiffable(s) && 0 <= j < |LiveItems(s)|
    ensures Wired(LiveItems(s)[j]) && Diffable(LiveItems(s)[j])
  {
    hide LiveItems, Wired, Diffable;
    var p := PositionOf(s, j);
  }

  lemma {:induction false} DeletesTyped(s: seq<Item>, keep: set<OpId>, t: Stamp, i: int)
    requires AllWired(s) && 0 <= i <= |s| && InRange(t, |Deletes(s[..i], keep, t)|)
    ensures Batches.AllTyped(Deletes(s[..i], keep, t))
    decreases i
  {
    hide Wired, W.Fits, Deletes;
    if i == 0 {
      assert s[..0] == [];
      DeletesNone(keep, t);
    } else {
      DeletesUpTo(s, keep, t, i);
      var ops := Deletes(s[..i - 1], keep, t);
      DeletesTyped(s, keep, t, i - 1);
      if !s[i - 1].tombstoned && s[i - 1].id !in keep {
        StampFits(t, |ops| + 1, |ops| + 1);
        WiredId(s[i - 1]);
      }
    }
  }

  lemma WiredId(x: Item)
    requires Wired(x)
    ensures W.Fits(x.id)
  {
  }

  lemma {:induction false} NextKeptFits(target: seq<Item>, kept: set<OpId>, j: nat)
    requires j <= |target| && forall i :: 0 <= i < |target| ==> W.Fits(target[i].id)
    ensures Codec.FitsOpt(NextKept(target, kept, j))
    decreases |target| - j
  {
    hide W.Fits;
    if j < |target| && target[j].id !in kept { NextKeptFits(target, kept, j + 1); }
  }

  lemma ContentTyped(x: Item)
    requires Wired(x) && Diffable(x)
    ensures Codec.ValidContent(x.kind, x.scalar)
  {
    hide WiredRegister, DiffableRegister;
  }

  lemma NewIdFits(target: seq<Item>, kept: set<OpId>, t: Stamp, j: nat, n: nat)
    requires j < |target| && Missing(target, kept, j) + 1 <= n && InRange(t, n) && W.Fits(target[j].id)
    ensures W.Fits(NewId(target, kept, t, j))
  {
    hide W.Fits, InRange;
    StampFits(t, n, Missing(target, kept, j) + 1);
  }

  lemma InsertTyped(target: seq<Item>, kept: set<OpId>, t: Stamp, j: nat, n: nat)
    requires j < |target| && Missing(target, kept, j) + 1 <= n && InRange(t, n)
    requires forall i :: 0 <= i < |target| ==> Wired(target[i]) && Diffable(target[i])
    ensures Codec.Typed(InsertOf(target, kept, t, j))
  {
    hide NextKept, InitialAttrs, W.Fits, InRange, After, IdOf, Wired, Diffable, NewId, Missing, Codec.ValidContent;
    forall i | 0 <= i < |target| ensures W.Fits(target[i].id) {
      WiredId(target[i]);
    }
    NextKeptFits(target, kept, j + 1);
    StampFits(t, n, Missing(target, kept, j) + 1);
    if j > 0 {
      MissingGrows(target, kept, j - 1, j);
      NewIdFits(target, kept, t, j - 1, n);
    }
    ContentTyped(target[j]);
  }

  lemma {:induction false} InsertsTyped(target: seq<Item>, kept: set<OpId>, t: Stamp, j: nat, n: nat)
    requires j <= |target| && Missing(target, kept, j) <= n && InRange(t, n)
    requires forall i :: 0 <= i < |target| ==> Wired(target[i]) && Diffable(target[i])
    ensures Batches.AllTyped(Inserts(target, kept, t, j))
    decreases j
  {
    hide Wired, Diffable, InRange, InsertOf, Codec.Typed, Missing;
    if j == 0 {
      InsertsNone(target, kept, t);
    } else {
      InsertsNext(target, kept, t, j - 1);
      InsertsTyped(target, kept, t, j - 1, n);
      if target[j - 1].id !in kept { InsertTyped(target, kept, t, j - 1, n); }
    }
  }

  lemma {:induction false} WritesTyped(x: AttrMap, y: AttrMap, id: OpId, names: seq<Bytes>, t: Stamp)
    requires W.Fits(id) && InRange(t, |Writes(x, y, id, names, t)|)
    ensures Batches.AllTyped(Writes(x, y, id, names, t))
    decreases |names|
  {
    hide ValueIn, W.Fits;
    if |names| > 0 {
      var ops := Writes(x, y, id, names[..|names| - 1], t);
      WritesTyped(x, y, id, names[..|names| - 1], t);
      if |ops| < |Writes(x, y, id, names, t)| { StampFits(t, |ops| + 1, |ops| + 1); }
    }
  }

  lemma {:induction false} SyncsTyped(current: seq<Item>, target: seq<Item>, kept: set<OpId>, t: Stamp, j: nat)
    requires j <= |target| && InRange(t, |Syncs(current, target, kept, t, j)|)
    requires forall i :: 0 <= i < |target| ==> W.Fits(target[i].id)
    ensures Batches.AllTyped(Syncs(current, target, kept, t, j))
    decreases j
  {
    hide Syncs, WritesFor, ItemWithId, W.Fits, Codec.Typed;
    if j == 0 {
      SyncsNone(current, target, kept, t);
    } else {
      SyncsNext(current, target, kept, t, j - 1);
      SyncsTyped(current, target, kept, t, j - 1);
      var x, y := ItemWithId(current, target[j - 1].id), target[j - 1];
      if y.id in kept && x.Some? {
        WritesForTyped(x.value.attrs, y.attrs, y.id, After(t, |Syncs(current, target, kept, t, j - 1)|));
      }
    }
  }

  lemma WritesForTyped(x: AttrMap, y: AttrMap, id: OpId, t: Stamp)
    requires W.Fits(id) && InRange(t, |WritesFor(x, y, id, t)|)
    ensures Batches.AllTyped(WritesFor(x, y, id, t))
  {
    WritesTyped(x, y, id, SortedNames(x.Keys + y.Keys), t);
  }

  /** Every operation of a batch within the clocks' range can be put on the wire. */
  lemma BatchTyped(a: seq<Item>, b: seq<Item>, t: Stamp)
    requires AllWired(a) && AllWired(b) && AllDiffable(a) && AllDiffable(b) && InRange(t, |Batch(a, b, t)|)
    ensures Batches.AllTyped(Batch(a, b, t))
  {
    hide Deletes, Inserts, Syncs, LiveItems, IdsOf, Wired, Diffable, Codec.Typed, Missing, W.Fits;
    var current, target := LiveItems(a), LiveItems(b);
    var kept := IdsOf(current) * IdsOf(target);
    var deletes := Deletes(a, IdsOf(target), t);
    var t1 := After(t, |deletes|);
    var inserts := Inserts(target, kept, t1, |target|);
    assert a[..|a|] == a;
    DeletesTyped(a, IdsOf(target), t, |a|);
    forall i | 0 <= i < |target| ensures Wired(target[i]) && Diffable(target[i]) && W.Fits(target[i].id) {
      LiveWired(b, i);
      WiredId(target[i]);
    }
    InsertsTyped(target, kept, t1, |target|, |inserts|);
    SyncsTyped(current, target, kept, After(t1, |inserts|), |target|);
  }

  // ------------------------------------------------------------------ the command

  datatype Outcome =
    | Internal
    | SizeExceeded
    | ClockExhausted(code: ErrorCode)
    | Rejected(code: ErrorCode)
    | Undrained
    | Diverged
    | Unserializable(code: ErrorCode)
    | Restored(ops: seq<Operation>, frame: Bytes)

  /** What a restore has to achieve: every operation accepted, nothing newly left
      pending, and the target's visible document shown. */
  ghost predicate Restores(reg: Registry, a: Doc, b: Doc, ops: seq<Operation>) {
    var (d, r) := Fold(reg, a, ops);
    r.Ok? && |d.pending| <= |a.pending| && VisibleDocument(d.stream) == VisibleDocument(b.stream)
  }

  /** All three passes. */
  method EmitBatch(a: seq<DiffItem>, b: seq<DiffItem>, t: Stamp, ghost s: seq<Item>, ghost u: seq<Item>)
      returns (r: Emission)
    requires a == DiffsOf(s) && b == DiffsOf(u) && Unique(Skel(s)) && Unique(Skel(u))
    ensures r.Emitted? ==> r.ops == Batch(s, u, t)
    ensures r.Emitted? <==> Room(t, |Batch(s, u, t)|)
  {
    hide LiveItems, Deletes, Inserts, Syncs, Alive, DistinctIds, Missing;
    ghost var current, target := LiveItems(s), LiveItems(u);
    ghost var kept := IdsOf(current) * IdsOf(target);
    var visibleA := BuildVisible(a, s);
    var visibleB := BuildVisible(b, u);
    var aIndex := BuildPositions(a, s);
    var deletes := EmitDeletes(a, visibleB, t, s, IdsOf(target));
    if !deletes.Emitted? {
      return deletes;
    }
    var t1 := After(t, |deletes.ops|);
    var order, pos := VisibleOrder(b, u);
    LivesDistinct(u);
    SeesKept(visibleA, current, target);
    var inserts := EmitInserts(b, order, pos, visibleA, t1, u, target, kept);
    if !inserts.Emitted? {
      return inserts;
    }
    var t2 := After(t1, |inserts.ops|);
    var syncs := EmitSyncs(a, aIndex, b, visibleA, t2, |deletes.ops| + |inserts.ops|, s, u, target, kept);
    if !syncs.Emitted? {
      return syncs;
    }
    var ops := deletes.ops + inserts.ops + syncs.ops;
    if |ops| > MAX_RESTORE_OPS {
      return TooMany;
    }
    return Emitted(ops);
  }

  lemma SeesKept(visibleA: map<OpId, bool>, current: seq<Item>, target: seq<Item>)
    requires forall id :: Alive(visibleA, id) <==> id in IdsOf(current)
    ensures Sees(visibleA, target, IdsOf(current) * IdsOf(target))
  {
    hide Alive;
  }

  /** The checks: fold the batch into the current document, then compare. */
  method CheckBatch(reg: Registry, a: Doc, b: Doc, ops: seq<Operation>) returns (r: Option<Outcome>)
    ensures r.None? <==> Restores(reg, a, b, ops)
    ensures r.Some? ==> r.value.Rejected? || r.value.Undrained? || r.value.Diverged?
  {
    hide ApplyRemote, VisibleDocument;
    var folded, k := a, 0;
    ghost var value := Ok(true);
    FoldNone(reg, a);
    while k < |ops|
      invariant 0 <= k <= |ops| && value.Ok?
      invariant Fold(reg, a, ops[..k]) == (folded, value)
    {
      assert ops[..k + 1] == ops[..k] + [ops[k]];
      FoldOne(reg, a, ops[..k], ops[k]);
      var (next, result) := ApplyRemote(reg, folded, ops[k]);
      if result.Err? {
        FoldStops(reg, a, ops, k + 1);
        return Some(Rejected(result.code));
      }
      folded, value, k := next, result, k + 1;
    }
    assert ops[..k] == ops;
    if |folded.pending| > |a.pending| {
      return Some(Undrained);
    }
    if VisibleDocument(folded.stream) != VisibleDocument(b.stream) {
      return Some(Diverged);
    }
    return None;
  }

  lemma {:induction false} FoldStops(reg: Registry, d: Doc, ops: seq<Operation>, k: int)
    requires 0 <= k <= |ops| && Fold(reg, d, ops[..k]).1.Err?
    ensures Fold(reg, d, ops).1.Err?
    decreases |ops|
  {
    hide ApplyRemote;
    if k == |ops| {
      assert ops[..k] == ops;
    } else {
      assert ops[..|ops| - 1][..k] == ops[..k];
      FoldStops(reg, d, ops[..|ops| - 1], k);
    }
  }

  lemma EmptyTyped(ops: seq<Operation>)
    requires |ops| == 0
    ensures Batches.AllTyped(ops)
  {
  }

  /** What the command answers, in full: it fails closed on a state outside the
      reader's limits, refuses for size or clock exactly when there is no room, and
      otherwise answers with the batch exactly when the batch restores the target
      and can be written. */
  method ComputeRestoreDiff(reg: Registry, a: Doc, b: Doc, idsA: seq<OpId>, rowsA: seq<OpId>, idsB: seq<OpId>,
                            rowsB: seq<OpId>)
    returns (r: Outcome)
    requires AllWired(a.stream) && AllWired(b.stream) && Unique(Skel(a.stream)) && Unique(Skel(b.stream))
    ensures r.Internal? <==> !(AllDiffable(a.stream) && AllDiffable(b.stream))
    ensures !r.Internal? ==>
              (r.SizeExceeded? || r.ClockExhausted? <==> !Room(Basis(a, b), |Batch(a.stream, b.stream, Basis(a, b))|))
    ensures r.Rejected? || r.Undrained? || r.Diverged? ==> !Restores(reg, a, b, Batch(a.stream, b.stream, Basis(a, b)))
    ensures r.Restored? || r.Unserializable? ==>
              Restores(reg, a, b, Batch(a.stream, b.stream, Basis(a, b)))
                && Batches.AllTyped(Batch(a.stream, b.stream, Basis(a, b)))
    ensures r.Restored? ==>
              r.ops == Batch(a.stream, b.stream, Basis(a, b)) && Batches.SerializeBatch(r.ops) == Ok(r.frame)
    ensures r.Unserializable? ==> Batches.SerializeBatch(Batch(a.stream, b.stream, Basis(a, b))) == Err(r.code)
  {
    hide *;
    WiredEncodable(a.stream);
    WiredEncodable(b.stream);
    var bytesA := CIO.CanonicalStateBytes(a.stream, idsA, rowsA);
    var bytesB := CIO.CanonicalStateBytes(b.stream, idsB, rowsB);
    DiffStateReads(a.stream, idsA, rowsA);
    DiffStateReads(b.stream, idsB, rowsB);
    var stateA := CIO.ParseCanonicalItems(bytesA);
    var stateB := CIO.ParseCanonicalItems(bytesB);
    if stateA.None? || stateB.None? {
      return Internal;
    }
    var t := Stamp(Max(C.At(a.summary, RESTORE_REPLICA), C.At(b.summary, RESTORE_REPLICA)),
                   Max(stateA.value.maxLamport, stateB.value.maxLamport));
    BasisIs(a, b, t);
    var emission := EmitBatch(stateA.value.items, stateB.value.items, t, a.stream, b.stream);
    match emission
    case TooMany => return SizeExceeded;
    case Exhausted(code) => return ClockExhausted(code);
    case Emitted(ops) =>
      var refusal := CheckBatch(reg, a, b, ops);
      if refusal.Some? {
        return refusal.value;
      }
      if |ops| == 0 {
        EmptyTyped(ops);
      } else {
        RoomInRange(t, |ops|);
        BatchTyped(a.stream, b.stream, t);
      }
      var frame := Frames.SerializeOperations(ops);
      match frame
      case Err(code) => return Unserializable(code);
      case Ok(bytes) => return Restored(ops, bytes);
  }

  lemma BasisIs(a: Doc, b: Doc, t: Stamp)
    requires t == Stamp(Max(C.At(a.summary, RESTORE_REPLICA), C.At(b.summary, RESTORE_REPLICA)),
                        Max(TopItems(a.stream, 0), TopItems(b.stream, 0)))
    ensures t == Basis(a, b)
  {
  }

  lemma RoomInRange(t: Stamp, n: nat)
    requires Room(t, n) && n > 0
    ensures InRange(t, n)
  {
  }

  // --------------------------------------------------------------- completeness

  /** Two documents of one history: items in both agree on kind and scalar and
      stand in one order, registers are admitted, what the current document has
      buffered goes on waiting, and its restore counters are a contiguous prefix. */
  ghost predicate SameHistory(reg: Registry, a: Doc, b: Doc) {
    var current, target := LiveItems(a.stream), LiveItems(b.stream);
    && Plain(a) && AllWait(a, Basis(a, b)) && Unique(Skel(b.stream))
    && C.Exact(a.summary, a.applied) && C.GapOf(a.summary, RESTORE_REPLICA) == {}
    && (forall i :: 0 <= i < |a.stream| ==> a.stream[i].id in a.applied)
    && (forall j :: 0 <= j < |target| ==> Insertable(reg, target[j]))
    && (forall i, j :: 0 <= i < |current| && 0 <= j < |target| && current[i].id == target[j].id ==>
          Agree(reg, current[i], target[j]))
    && SameOrder(current, target)
  }

  lemma BasisGood(a: Doc, b: Doc)
    requires Plain(a) && AllWait(a, Basis(a, b))
    requires C.Exact(a.summary, a.applied) && C.GapOf(a.summary, RESTORE_REPLICA) == {}
    requires forall i :: 0 <= i < |a.stream| ==> a.stream[i].id in a.applied
    ensures Good(a, Basis(a, b))
  {
    hide C.Exact, TopItems, Plain, AllWait;
    RestoreIdsBelow(a);
    TopItemsIs(a.stream, 0);
  }

  lemma RestoreIdsBelow(a: Doc)
    requires C.Exact(a.summary, a.applied) && C.GapOf(a.summary, RESTORE_REPLICA) == {}
    ensures forall id :: id in a.applied && id.replica == RESTORE_REPLICA ==>
              id.counter <= C.At(a.summary, RESTORE_REPLICA)
  {
    var n := C.At(a.summary, RESTORE_REPLICA);
    assert C.Row(a.applied, RESTORE_REPLICA, n, {});
    forall id | id in a.applied && id.replica == RESTORE_REPLICA ensures id.counter <= n {
      assert id == OpId(RESTORE_REPLICA, id.counter);
    }
  }

  /** The run-time checks never refuse a restore between two documents of one
      history, so long as the clocks have room. */
  lemma ChecksNeverFire(reg: Registry, a: Doc, b: Doc)
    requires SameHistory(reg, a, b) && InRange(Basis(a, b), |Batch(a.stream, b.stream, Basis(a, b))|)
    ensures Restores(reg, a, b, Batch(a.stream, b.stream, Basis(a, b)))
  {
    hide LiveItems, Good, Fold, Batch, VisibleDocument, SameOrder, Agree, Insertable, Basis, C.Exact, AllWait, Plain;
    BasisGood(a, b);
    RestoreCompletes(reg, a, b, Basis(a, b));
  }
}
