/** Arrivals that set off a cascade in the buffer: which buffered operations an
    arrival unlocks, and exactly when the retry ends in an error. */
module Cascade {
  import opened Types
  import opened Order
  import opened State
  import opened History
  import B = Buffering
  import C = Counters

  // ------------------------------------------------------------------- unlocking

  /** The anchor is there, or will be once the items of `u` are. */
  predicate Reached(d: Doc, u: set<OpId>, a: Option<OpId>) {
    Present(d, a) || a.value in u
  }

  /** A buffered insert that can follow the items of `u`. */
  predicate Follows(d: Doc, u: set<OpId>, p: Operation) {
    p.Insert? && p.id !in d.applied && Reached(d, u, p.left) && Reached(d, u, p.right)
  }

  function Grown(d: Doc, u: set<OpId>): set<OpId> {
    u + set i | 0 <= i < |d.pending| && Follows(d, u, d.pending[i]) :: d.pending[i].id
  }

  function Closure(d: Doc, u: set<OpId>): set<OpId>
    decreases PendingIds(d) - u
  {
    if Grown(d, u) == u then u
    else
      assert PendingIds(d) - Grown(d, u) < PendingIds(d) - u by { GrownWithin(d, u); }
      Closure(d, Grown(d, u))
  }

  lemma GrownWithin(d: Doc, u: set<OpId>)
    ensures u <= Grown(d, u) <= u + PendingIds(d)
    ensures Grown(d, u) != u ==> PendingIds(d) - Grown(d, u) < PendingIds(d) - u
  {
    if Grown(d, u) != u {
      var id :| id in Grown(d, u) && id !in u;
      assert id in PendingIds(d);
    }
  }

  /** The items an arrival brings into reach: its own, if it is an insert, and those of
      buffered inserts that can follow. */
  function Unlocked(d: Doc, op: Operation): set<OpId> {
    if op.Insert? then Closure(d, {op.id}) else {}
  }

  /** They are the least set of this kind. */
  lemma {:induction false} ClosureLeast(d: Doc, u: set<OpId>, v: set<OpId>)
    ensures u <= Closure(d, u) && Grown(d, Closure(d, u)) == Closure(d, u)
    ensures u <= v && Grown(d, v) == v ==> Closure(d, u) <= v
    decreases PendingIds(d) - u
  {
    hide Follows;
    GrownWithin(d, u);
    if Grown(d, u) != u {
      if u <= v && Grown(d, v) == v { GrownMonotone(d, u, v); }
      ClosureLeast(d, Grown(d, u), v);
    }
  }

  lemma GrownMonotone(d: Doc, u: set<OpId>, v: set<OpId>)
    requires u <= v
    ensures Grown(d, u) <= Grown(d, v)
  {
    forall i | 0 <= i < |d.pending| && Follows(d, u, d.pending[i]) ensures Follows(d, v, d.pending[i]) {}
  }

  // --------------------------------------------------------------- the condition

  function Sources(d: Doc, op: Operation): seq<Operation> {
    [op] + d.pending
  }

  /** One identity, one operation, among the arrival and the buffer. */
  ghost predicate Coherent(d: Doc, op: Operation) {
    var all := Sources(d, op);
    forall i, j :: 0 <= i < |all| && 0 <= j < |all| && all[i].id == all[j].id ==> all[i] == all[j]
  }

  /** Buffered inserts have passed the checks on inserts, as all have on their way in. */
  ghost predicate Checked(reg: Registry, d: Doc) {
    forall i :: 0 <= i < |d.pending| && d.pending[i].Insert? ==> CheckInsert(reg, d.pending[i]).None?
  }

  /** The arrival or a buffered insert brings this item, of this kind. */
  ghost predicate Brings(d: Doc, op: Operation, id: OpId, kind: ItemKind) {
    exists q :: 0 <= q < |Sources(d, op)|
      && Sources(d, op)[q].Insert? && Sources(d, op)[q].id == id && Sources(d, op)[q].kind == kind
  }

  /** A write to an unlocked item that the registry refuses for the item's kind. */
  ghost predicate Refusable(reg: Registry, d: Doc, op: Operation, w: Operation) {
    && w.SetAttr? && w.id !in d.applied && w.target.Some? && w.target.value in Unlocked(d, op)
    && exists kind :: Brings(d, op, w.target.value, kind) && !reg.Allows(kind, w.name, w.value)
  }

  ghost predicate RefusedWrite(reg: Registry, d: Doc, op: Operation) {
    exists i :: 0 <= i < |d.pending| && Refusable(reg, d, op, d.pending[i])
  }

  lemma OneKind(d: Doc, op: Operation, id: OpId, k1: ItemKind, k2: ItemKind)
    requires Coherent(d, op) && Brings(d, op, id, k1) && Brings(d, op, id, k2)
    ensures k1 == k2
  {
    var i :| 0 <= i < |Sources(d, op)| && Sources(d, op)[i].Insert? && Sources(d, op)[i].id == id
             && Sources(d, op)[i].kind == k1;
    var j :| 0 <= j < |Sources(d, op)| && Sources(d, op)[j].Insert? && Sources(d, op)[j].id == id
             && Sources(d, op)[j].kind == k2;
    assert Sources(d, op)[i] == Sources(d, op)[j];
  }

  lemma SameOperation(d: Doc, op: Operation, p: Operation, q: Operation)
    requires Coherent(d, op) && p in Sources(d, op) && q in Sources(d, op) && p.id == q.id
    ensures p == q
  {
  }

  // ------------------------------------------------------------------ one step

  /** What integrating one operation does to identities and kinds. */
  ghost predicate Took(e: Doc, p: Operation, e2: Doc) {
    && e2.applied == e.applied + {p.id} && e2.pending == e.pending
    && (forall id :: IndexOf(e2, id) >= 0 <==> IndexOf(e, id) >= 0 || (p.Insert? && id == p.id))
    && (forall i :: 0 <= i < |e2.stream| ==>
          || (p.Insert? && e2.stream[i].id == p.id && e2.stream[i].kind == p.kind)
          || Among(e.stream, e2.stream[i]))
  }

  /** An item of this identity and kind is listed. */
  ghost predicate Among(s: seq<Item>, x: Item) {
    exists j :: 0 <= j < |s| && s[j].id == x.id && s[j].kind == x.kind
  }

  lemma TookInsert(e: Doc, p: Operation)
    requires p.Insert?
    ensures Took(e, p, Note(InsertItem(e, p), p))
  {
    hide Boundary, ApplyInitial, C.Note, Find, Skel;
    var e2, k := Note(InsertItem(e, p), p), Boundary(Skel(e.stream), NodeOfOp(p)) + 1;
    assert e2.stream == InsertAt(e.stream, k, ItemOf(p)) && e2.stream[k] == ItemOf(p);
    forall i | 0 <= i < |e2.stream| && i != k ensures Among(e.stream, e2.stream[i]) {
      assert e2.stream[i] == e.stream[if i < k then i else i - 1];
    }
    forall id | IndexOf(e, id) >= 0 ensures IndexOf(e2, id) >= 0 {
      var j := IndexOf(e, id);
      assert e2.stream[if j < k then j else j + 1] == e.stream[j];
    }
  }

  /** A recorded insert is of an item that is there. */
  lemma TookNote(e: Doc, p: Operation)
    requires p.Insert? ==> IndexOf(e, p.id) >= 0
    ensures Took(e, p, Note(e, p))
  {
    hide C.Note, Skel, IndexOf;
    var e2 := Note(e, p);
    forall id ensures IndexOf(e2, id) >= 0 <==> IndexOf(e, id) >= 0 || (p.Insert? && id == p.id) {
      SameIndex(e, e2, id);
    }
    forall i | 0 <= i < |e2.stream| ensures Among(e.stream, e2.stream[i]) {}
  }

  lemma TookUpdate(e: Doc, p: Operation, i: int, x: Item)
    requires !p.Insert? && 0 <= i < |e.stream| && x.id == e.stream[i].id && x.left == e.stream[i].left
    requires x.right == e.stream[i].right && x.kind == e.stream[i].kind
    ensures Took(e, p, Note(e.(stream := e.stream[i := x]), p))
  {
    hide C.Note;
    var e2 := Note(e.(stream := e.stream[i := x]), p);
    assert Skel(e2.stream) == Skel(e.stream);
  }

  /** A ready operation is taken in unless it is a write the registry refuses, or an
      insert that fails its checks. */
  lemma ReadyEffect(reg: Registry, e: Doc, p: Operation)
    requires Ready(e, p) && (p.Insert? ==> CheckInsert(reg, p).None?)
    ensures var (e2, effect) := EffectOf(reg, e, p);
            && (effect.Integrated? || effect.Recorded? ==> Took(e, p, e2))
            && !effect.Buffered?
            && (effect.Refused? <==>
                p.SetAttr? && !reg.Allows(e.stream[IndexOf(e, p.target.value)].kind, p.name, p.value))
  {
    hide CheckInsert, ApplyRegister, C.Note, Took, InsertItem, IndexOf;
    match p
    case Insert(_, _, _, _, _, _, _) =>
      if IndexOf(e, p.id) >= 0 { TookNote(e, p); } else { TookInsert(e, p); }
    case Delete(_, _, _) =>
      var i := IndexOf(e, p.target.value);
      TookUpdate(e, p, i, e.stream[i].(tombstoned := true));
    case SetAttr(_, _, _, _, _) =>
      var i := IndexOf(e, p.target.value);
      TookUpdate(e, p, i, e.stream[i].(attrs :=
        ApplyRegister(e.stream[i].attrs, p.name, p.value, p.lamport, p.id.replica)));
  }

  // ------------------------------------------------------- while the buffer empties

  /** Every item that was not there before is unlocked and brought by its insert. */
  ghost predicate Supplied(d: Doc, op: Operation, e: Doc) {
    forall i :: 0 <= i < |e.stream| && IndexOf(d, e.stream[i].id) < 0 ==>
      e.stream[i].id in Unlocked(d, op) && Brings(d, op, e.stream[i].id, e.stream[i].kind)
  }

  /** Nothing is lost: what was buffered is still, or is applied, its item there. */
  ghost predicate Accounted(d: Doc, e: Doc) {
    && d.applied <= e.applied
    && (forall id :: IndexOf(d, id) >= 0 ==> IndexOf(e, id) >= 0)
    && (forall i :: 0 <= i < |e.pending| ==> e.pending[i] in d.pending)
    && (forall i :: 0 <= i < |d.pending| ==> d.pending[i] in e.pending || d.pending[i].id in e.applied)
    && (forall i :: 0 <= i < |d.pending| && d.pending[i].Insert? && d.pending[i].id in e.applied - d.applied ==>
          IndexOf(e, d.pending[i].id) >= 0)
  }

  ghost predicate NoneRefusable(reg: Registry, d: Doc, op: Operation, e: Doc) {
    forall i :: 0 <= i < |d.pending| && Refusable(reg, d, op, d.pending[i]) ==> d.pending[i].id !in e.applied
  }

  /** The retry is under way. */
  ghost predicate Midway(reg: Registry, d: Doc, op: Operation, e: Doc) {
    && Supplied(d, op, e) && Accounted(d, e) && NoneRefusable(reg, d, op, e)
    && (op.Insert? ==> IndexOf(e, op.id) >= 0)
  }

  /** The document and the arrival from which the retry starts. */
  ghost predicate Starts(reg: Registry, d: Doc, op: Operation) {
    Settled(d) && Coherent(d, op) && Checked(reg, d) && Ready(d, op) && op.id !in d.applied
  }

  /** An anchor that is there now is reached. */
  lemma PresentReached(d: Doc, op: Operation, e: Doc, a: Option<OpId>)
    requires Supplied(d, op, e) && Present(e, a)
    ensures Reached(d, Unlocked(d, op), a)
  {
    hide Unlocked, Brings;
    if a.Some? && IndexOf(d, a.value) < 0 { assert e.stream[IndexOf(e, a.value)].id == a.value; }
  }

  /** A buffered insert taken in is one that was unlocked. */
  lemma TakenUnlocked(d: Doc, op: Operation, e: Doc, p: Operation)
    requires Supplied(d, op, e) && Ready(e, p) && p.Insert? && p in d.pending && p.id !in d.applied
    requires Settled(d)
    ensures p.id in Unlocked(d, op)
  {
    hide Brings, Closure;
    BufferedWaits(d, p);
    PresentReached(d, op, e, p.left);
    PresentReached(d, op, e, p.right);
    var i :| 0 <= i < |d.pending| && d.pending[i] == p;
    if op.Insert? {
      ClosureLeast(d, {op.id}, {});
      assert Follows(d, Unlocked(d, op), d.pending[i]);
    }
  }

  lemma BufferedWaits(d: Doc, p: Operation)
    requires Settled(d) && p in d.pending
    ensures !Ready(d, p)
  {
  }

  lemma PendingBrings(d: Doc, op: Operation, p: Operation)
    requires p in d.pending && p.Insert?
    ensures Brings(d, op, p.id, p.kind)
  {
    var i :| 0 <= i < |d.pending| && d.pending[i] == p;
    assert Sources(d, op)[i + 1] == p;
  }

  lemma SuppliedOn(d: Doc, op: Operation, e: Doc, p: Operation, e2: Doc)
    requires Supplied(d, op, e) && Took(e, p, e2)
    requires p.Insert? ==> p.id in Unlocked(d, op) && Brings(d, op, p.id, p.kind)
    ensures Supplied(d, op, e2)
  {
    hide Unlocked, Brings, IndexOf;
  }

  lemma AccountedOn(d: Doc, op: Operation, e: Doc, p: Operation, e2: Doc)
    requires Accounted(d, e) && Took(e, p, e2) && Coherent(d, op) && p in Sources(d, op)
    ensures Accounted(d, e2)
  {
    hide IndexOf, Coherent;
    forall i | 0 <= i < |d.pending| && d.pending[i].Insert? && d.pending[i].id in e2.applied - d.applied
      ensures IndexOf(e2, d.pending[i].id) >= 0
    {
      if d.pending[i].id == p.id {
        assert Sources(d, op)[i + 1] == d.pending[i];
        SameOperation(d, op, p, d.pending[i]);
      }
    }
  }

  /** The write taken from the buffer is to an unlocked item, by its kind. */
  lemma WriteTarget(reg: Registry, d: Doc, op: Operation, e: Doc, p: Operation) returns (kind: ItemKind)
    requires Supplied(d, op, e) && Settled(d) && Ready(e, p) && p.SetAttr? && p in d.pending
    ensures kind == e.stream[IndexOf(e, p.target.value)].kind
    ensures p.target.value in Unlocked(d, op) && Brings(d, op, p.target.value, kind)
  {
    hide Unlocked, Brings;
    BufferedWaits(d, p);
    kind := e.stream[IndexOf(e, p.target.value)].kind;
  }

  lemma NoneRefusableOn(reg: Registry, d: Doc, op: Operation, e: Doc, p: Operation, e2: Doc)
    requires NoneRefusable(reg, d, op, e) && Took(e, p, e2) && Coherent(d, op) && p in Sources(d, op)
    requires p in d.pending ==> !Refusable(reg, d, op, p)
    ensures NoneRefusable(reg, d, op, e2)
  {
    hide IndexOf, Coherent, Refusable;
    forall i | 0 <= i < |d.pending| && Refusable(reg, d, op, d.pending[i]) ensures d.pending[i].id !in e2.applied {
      if d.pending[i].id == p.id {
        assert Sources(d, op)[i + 1] == d.pending[i];
        SameOperation(d, op, p, d.pending[i]);
      }
    }
  }

  /** An admitted write is not refusable: one identity brings one kind. */
  lemma AdmittedWrite(reg: Registry, d: Doc, op: Operation, p: Operation, kind: ItemKind)
    requires Coherent(d, op) && p.SetAttr? && p.target.Some? && Brings(d, op, p.target.value, kind)
    requires reg.Allows(kind, p.name, p.value)
    ensures !Refusable(reg, d, op, p)
  {
    hide Unlocked, Brings, Coherent;
    if Refusable(reg, d, op, p) {
      var k :| Brings(d, op, p.target.value, k) && !reg.Allows(k, p.name, p.value);
      OneKind(d, op, p.target.value, kind, k);
    }
  }

  lemma Sourced(d: Doc, op: Operation, p: Operation)
    requires p == op || p in d.pending
    ensures p in Sources(d, op)
  {
  }

  /** The identity of a buffered operation that is not applied yet was not at first. */
  lemma NotYetApplied(d: Doc, e: Doc, p: Operation)
    requires Accounted(d, e) && p in e.pending && p.id !in e.applied
    ensures p in d.pending && p.id !in d.applied
  {
  }

  /** Without a ready operation that is not taken in. */
  lemma DropMidway(reg: Registry, d: Doc, op: Operation, e: Doc, i: nat)
    requires Midway(reg, d, op, e) && i < |e.pending| && e.pending[i].id in e.applied
    ensures Midway(reg, d, op, e.(pending := Without(e.pending, i)))
  {
    var e1 := e.(pending := Without(e.pending, i));
    hide Refusable, Unlocked, Brings;
    PendingLess(e, i);
    forall id ensures IndexOf(e1, id) == IndexOf(e, id) { SameIndex(e, e1, id); }
    hide IndexOf;
    assert Accounted(d, e1);
  }

  lemma PendingLess(e: Doc, i: nat)
    requires i < |e.pending|
    ensures forall p :: p in Without(e.pending, i) ==> p in e.pending
    ensures forall p :: p in e.pending && p != e.pending[i] ==> p in Without(e.pending, i)
  {
    var w := Without(e.pending, i);
    forall p | p in e.pending && p != e.pending[i] ensures p in w {
      var j :| 0 <= j < |e.pending| && e.pending[j] == p;
      assert w[if j < i then j else j - 1] == p;
    }
    forall p | p in w ensures p in e.pending {
      var j :| 0 <= j < |w| && w[j] == p;
      assert e.pending[if j < i then j else j + 1] == p;
    }
  }

  /** The buffer is as if the operation were applied before it leaves the buffer. */
  lemma TakeMidway(reg: Registry, d: Doc, op: Operation, e: Doc, p: Operation, e2: Doc)
    requires Midway(reg, d, op, e) && Settled(d) && Coherent(d, op) && Took(e, p, e2)
    requires Ready(e, p) && p in d.pending && p.id !in d.applied
    requires p.SetAttr? ==> reg.Allows(e.stream[IndexOf(e, p.target.value)].kind, p.name, p.value)
    ensures Midway(reg, d, op, e2)
  {
    hide Refusable, Unlocked, Brings, Coherent, Took, Supplied, Accounted, NoneRefusable, Settled, Ready;
    Sourced(d, op, p);
    if p.Insert? {
      TakenUnlocked(d, op, e, p);
      PendingBrings(d, op, p);
    }
    SuppliedOn(d, op, e, p, e2);
    AccountedOn(d, op, e, p, e2);
    if p.SetAttr? {
      var kind := WriteTarget(reg, d, op, e, p);
      ReadyTarget(e, p);
      AdmittedWrite(reg, d, op, p, kind);
    } else {
      assert !Refusable(reg, d, op, p) by { OnlyWrites(reg, d, op, p); }
    }
    NoneRefusableOn(reg, d, op, e, p, e2);
    TookKeeps(e, p, e2, op);
  }

  lemma ReadyTarget(e: Doc, p: Operation)
    requires Ready(e, p) && p.SetAttr?
    ensures p.target.Some?
  {
  }

  lemma OnlyWrites(reg: Registry, d: Doc, op: Operation, p: Operation)
    requires !p.SetAttr?
    ensures !Refusable(reg, d, op, p)
  {
  }

  lemma TookKeeps(e: Doc, p: Operation, e2: Doc, op: Operation)
    requires Took(e, p, e2) && (op.Insert? ==> IndexOf(e, op.id) >= 0)
    ensures op.Insert? ==> IndexOf(e2, op.id) >= 0
  {
    hide IndexOf;
  }

  /** A refused write in the buffer is one of those the condition speaks of. */
  lemma RefusedFound(reg: Registry, d: Doc, op: Operation, e: Doc, p: Operation)
    requires Supplied(d, op, e) && Settled(d) && Ready(e, p) && p.SetAttr? && p in d.pending && p.id !in d.applied
    requires !reg.Allows(e.stream[IndexOf(e, p.target.value)].kind, p.name, p.value)
    ensures RefusedWrite(reg, d, op)
  {
    hide Unlocked, Brings, Supplied, Settled;
    var kind := WriteTarget(reg, d, op, e, p);
    ReadyTarget(e, p);
    assert Refusable(reg, d, op, p);
    var i :| 0 <= i < |d.pending| && d.pending[i] == p;
  }

  // ------------------------------------------------------------------- the retry

  /** How the pass goes on at a ready operation that is not applied. */
  lemma PassReady(reg: Registry, e: Doc, i: nat, progress: bool)
    requires i < |e.pending| && Ready(e, e.pending[i]) && e.pending[i].id !in e.applied
    requires e.pending[i].Insert? ==> CheckInsert(reg, e.pending[i]).None?
    ensures var p, e1 := e.pending[i], e.(pending := Without(e.pending, i));
            var (e2, effect) := EffectOf(reg, e1, p);
            && Ready(e1, p)
            && (effect.Refused? <==>
                p.SetAttr? && !reg.Allows(e1.stream[IndexOf(e1, p.target.value)].kind, p.name, p.value))
            && (effect.Refused? ==> RetryPass(reg, e, i, progress).error.Some?)
            && (!effect.Refused? ==> Took(e1, p, e2) && RetryPass(reg, e, i, progress) == RetryPass(reg, e2, i, true))
  {
    hide EffectOf, Ready, CheckInsert, Took, IndexOf;
    var p, e1 := e.pending[i], e.(pending := Without(e.pending, i));
    ReadySame(e, e1, p);
    ReadyEffect(reg, e1, p);
    ReadyNotBuffered(reg, e1, p);
  }

  /** Taken in and out of the buffer. */
  lemma TakenMidway(reg: Registry, d: Doc, op: Operation, e: Doc, i: nat, e2: Doc)
    requires Midway(reg, d, op, e) && Settled(d) && Coherent(d, op) && i < |e.pending|
    requires Ready(e, e.pending[i]) && e.pending[i].id !in e.applied
    requires Took(e.(pending := Without(e.pending, i)), e.pending[i], e2)
    requires e.pending[i].SetAttr? ==>
               reg.Allows(e.stream[IndexOf(e, e.pending[i].target.value)].kind, e.pending[i].name, e.pending[i].value)
    ensures Midway(reg, d, op, e2)
  {
    var p, e3 := e.pending[i], e2.(pending := e.pending);
    assert p in d.pending && p.id !in d.applied by { NotYetApplied(d, e, p); }
    TookFull(e, i, e2);
    hide Midway, Coherent, Settled, Ready, IndexOf;
    TakeMidway(reg, d, op, e, p, e3);
    DropMidway(reg, d, op, e3, i);
    assert e3.(pending := Without(e3.pending, i)) == e2;
  }

  lemma TookFull(e: Doc, i: nat, e2: Doc)
    requires i < |e.pending| && Took(e.(pending := Without(e.pending, i)), e.pending[i], e2)
    ensures Took(e, e.pending[i], e2.(pending := e.pending)) && e2.pending == Without(e.pending, i)
    ensures e.pending[i].id in e2.applied
  {
    hide IndexOf;
    var e1, e3 := e.(pending := Without(e.pending, i)), e2.(pending := e.pending);
    forall id ensures IndexOf(e1, id) == IndexOf(e, id) && IndexOf(e3, id) == IndexOf(e2, id) {
      SameIndex(e, e1, id);
      SameIndex(e2, e3, id);
    }
  }

  lemma BufferedChecked(reg: Registry, d: Doc, p: Operation)
    requires Checked(reg, d) && p in d.pending && p.Insert?
    ensures CheckInsert(reg, p).None?
  {
  }

  /** What stays fixed while the buffer is worked through. */
  ghost predicate Fixed(reg: Registry, d: Doc, op: Operation) {
    Settled(d) && Coherent(d, op) && Checked(reg, d)
  }

  /** A buffered operation that is ready is taken, or it is a refused write. */
  lemma TakeOrRefuse(reg: Registry, d: Doc, op: Operation, e: Doc, i: nat, progress: bool) returns (e2: Doc)
    requires Midway(reg, d, op, e) && Fixed(reg, d, op)
    requires i < |e.pending| && Ready(e, e.pending[i]) && e.pending[i].id !in e.applied
    ensures |e2.pending| == |e.pending| - 1
    ensures || (RetryPass(reg, e, i, progress).error.Some? && RefusedWrite(reg, d, op))
            || (RetryPass(reg, e, i, progress) == RetryPass(reg, e2, i, true) && Midway(reg, d, op, e2))
  {
    var p, e1 := e.pending[i], e.(pending := Without(e.pending, i));
    NotYetApplied(d, e, p);
    if p.Insert? { BufferedChecked(reg, d, p); }
    assert p.SetAttr? ==> p.target.Some?;
    hide Coherent, Checked, Took, Supplied, Accounted, NoneRefusable, Settled, Ready, RefusedWrite, EffectOf, RetryPass,
         CheckInsert, IndexOf;
    PassReady(reg, e, i, progress);
    if p.SetAttr? { SameIndex(e, e1, p.target.value); }
    if EffectOf(reg, e1, p).1.Refused? {
      RefusedFound(reg, d, op, e, p);
      e2 := e1;
    } else {
      e2 := EffectOf(reg, e1, p).0;
      TookFull(e, i, e2);
      TakenMidway(reg, d, op, e, i, e2);
    }
  }

  /** One pass ends on a refused write or stays under way; if it makes no progress,
      nothing in the buffer is ready. */
  lemma {:induction false} PassMidway(reg: Registry, d: Doc, op: Operation, e: Doc, i: nat, progress: bool, p: Pass)
    requires Midway(reg, d, op, e) && Fixed(reg, d, op) && i <= |e.pending| && p == RetryPass(reg, e, i, progress)
    requires !progress ==> B.ScannedIdle(e, i)
    ensures p.error.Some? ==> RefusedWrite(reg, d, op)
    ensures p.error.None? ==> Midway(reg, d, op, p.doc) && (!p.progress ==> Settled(p.doc))
    decreases |e.pending| - i
  {
    hide Midway, Fixed, B.ScannedIdle, Ready, Settled, RetryPass, RefusedWrite;
    if i == |e.pending| {
      B.PassEnds(reg, e, i, progress);
    } else if !Ready(e, e.pending[i]) {
      PassSkips(reg, e, i, progress);
      if !progress { B.ScannedNext(e, i); }
      PassMidway(reg, d, op, e, i + 1, progress, p);
    } else if e.pending[i].id in e.applied {
      B.PassDrops(reg, e, i, progress);
      DropMidway(reg, d, op, e, i);
      if !progress { B.ScannedAfterDrop(e, i); }
      PassMidway(reg, d, op, e.(pending := Without(e.pending, i)), i, progress, p);
    } else {
      var e2 := TakeOrRefuse(reg, d, op, e, i, progress);
      if p.error.None? || !RefusedWrite(reg, d, op) {
        PassMidway(reg, d, op, e2, i, true, p);
      }
    }
  }

  lemma {:induction false} LoopMidway(reg: Registry, d: Doc, op: Operation, e: Doc, p: Pass)
    requires Midway(reg, d, op, e) && Fixed(reg, d, op) && p == RetryLoop(reg, e)
    ensures p.error.Some? ==> RefusedWrite(reg, d, op)
    ensures p.error.None? ==> Midway(reg, d, op, p.doc) && Settled(p.doc)
    decreases |e.pending|
  {
    hide Midway, Fixed, Settled, RefusedWrite;
    var first := RetryPass(reg, e, 0, false);
    PassMidway(reg, d, op, e, 0, false, first);
    if first.error.None? && first.progress { LoopMidway(reg, d, op, first.doc, p); }
  }

  // --------------------------------------------------------------- the beginning

  lemma StartMidway(reg: Registry, d: Doc, op: Operation, e: Doc)
    requires Fixed(reg, d, op) && Ready(d, op) && op.id !in d.applied && Took(d, op, e)
    ensures Midway(reg, d, op, e)
  {
    hide Checked, IndexOf, Ready;
    assert op in Sources(d, op);
    forall i | 0 <= i < |d.pending| ensures d.pending[i].id != op.id {
      BufferedWaits(d, d.pending[i]);
      Sourced(d, op, d.pending[i]);
      OtherIdentity(d, op, d.pending[i]);
    }
    hide Coherent, Settled;
    if op.Insert? { ArrivalUnlocked(d, op); }
    hide Unlocked, Brings;
    assert Supplied(d, op, e);
    assert NoneRefusable(reg, d, op, e);
  }

  lemma OtherIdentity(d: Doc, op: Operation, p: Operation)
    requires Coherent(d, op) && p in Sources(d, op) && p != op
    ensures p.id != op.id
  {
    assert Sources(d, op)[0] == op;
  }

  lemma ArrivalUnlocked(d: Doc, op: Operation)
    requires op.Insert?
    ensures op.id in Unlocked(d, op) && Brings(d, op, op.id, op.kind)
  {
    ClosureLeast(d, {op.id}, {});
    assert Sources(d, op)[0] == op;
  }

  // --------------------------------------------------------------------- the end

  /** A settled end has every unlocked item ... */
  lemma AllArrived(reg: Registry, d: Doc, op: Operation, e: Doc)
    requires Midway(reg, d, op, e) && Settled(e)
    ensures forall id :: id in Unlocked(d, op) ==> IndexOf(e, id) >= 0
  {
    if op.Insert? {
      var u := Unlocked(d, op);
      var v := set id | id in u && IndexOf(e, id) >= 0;
      ClosureLeast(d, {op.id}, v);
      GrownMonotone(d, v, u);
      hide IndexOf, Closure, Supplied, NoneRefusable;
      forall i | 0 <= i < |d.pending| && Follows(d, v, d.pending[i]) ensures d.pending[i].id in v {
        FollowerArrived(d, e, v, i);
        assert d.pending[i].id in Grown(d, v);
      }
      assert Grown(d, v) == v;
    }
  }

  lemma FollowerArrived(d: Doc, e: Doc, v: set<OpId>, i: int)
    requires Accounted(d, e) && Settled(e) && 0 <= i < |d.pending| && Follows(d, v, d.pending[i])
    requires forall id :: id in v ==> IndexOf(e, id) >= 0
    ensures IndexOf(e, d.pending[i].id) >= 0
  {
    hide IndexOf;
    assert Ready(e, d.pending[i]);
    if d.pending[i] in e.pending { BufferedWaits(e, d.pending[i]); }
  }

  /** ... and so no write to one was refusable. */
  lemma NoneRefused(reg: Registry, d: Doc, op: Operation, e: Doc)
    requires Midway(reg, d, op, e) && Settled(e)
    ensures !RefusedWrite(reg, d, op)
  {
    AllArrived(reg, d, op, e);
    hide IndexOf, Unlocked, Supplied, Brings;
    if RefusedWrite(reg, d, op) {
      var i :| 0 <= i < |d.pending| && Refusable(reg, d, op, d.pending[i]);
      WaitingWrite(d, e, d.pending[i]);
    }
  }

  lemma WaitingWrite(d: Doc, e: Doc, w: Operation)
    requires Accounted(d, e) && Settled(e) && w in d.pending && w.SetAttr? && w.target.Some?
    requires IndexOf(e, w.target.value) >= 0
    ensures w.id in e.applied
  {
    hide IndexOf;
    assert Ready(e, w);
    if w in e.pending { BufferedWaits(e, w); }
  }

  // ------------------------------------------------------------------ the result

  /** The retry after an arrival ends in an error if and only if the arrival unlocks
      an item that some buffered write would write to against the registry. */
  lemma RetryFails(reg: Registry, d: Doc, op: Operation, e: Doc)
    requires Fixed(reg, d, op) && Ready(d, op) && op.id !in d.applied && Took(d, op, e)
    ensures RetryLoop(reg, e).error.Some? <==> RefusedWrite(reg, d, op)
  {
    hide Fixed, Ready, Took, Midway, RefusedWrite, Settled, RetryLoop;
    StartMidway(reg, d, op, e);
    var p := RetryLoop(reg, e);
    LoopMidway(reg, d, op, e, p);
    if p.error.None? { NoneRefused(reg, d, op, p.doc); }
  }

  lemma IntegratedReady(reg: Registry, d: Doc, op: Operation)
    requires EffectOf(reg, d, op).1.Integrated?
    ensures Ready(d, op) && (op.Insert? ==> CheckInsert(reg, op).None?)
  {
    hide CheckInsert, IndexOf, InsertItem, ApplyRegister, C.Note;
  }

  lemma TookFlag(d: Doc, op: Operation, d1: Doc)
    requires Took(d, op, d1)
    ensures Took(d, op, d1.(retrying := true))
  {
    var e := d1.(retrying := true);
    forall id ensures IndexOf(e, id) == IndexOf(d1, id) { SameIndex(d1, e, id); }
    hide IndexOf;
  }

  lemma DeliveryOutcome(reg: Registry, d: Doc, op: Operation, d1: Doc)
    requires op.id !in d.applied && EffectOf(reg, d, op) == (d1, Integrated) && !d1.retrying
    ensures ApplyRemote(reg, d, op).1.Err? <==> |d1.pending| > 0 && RetryLoop(reg, d1.(retrying := true)).error.Some?
  {
    hide EffectOf, RetryLoop;
  }

  lemma FlagKept(reg: Registry, d: Doc, op: Operation)
    ensures EffectOf(reg, d, op).0.retrying == d.retrying
  {
    hide CheckInsert, IndexOf, ApplyRegister, C.Note, Boundary;
  }

  /** A delivery that integrates its operation still fails if and only if it unlocks
      an item that some buffered write would write to against the registry. */
  lemma ArrivalFails(reg: Registry, d: Doc, op: Operation)
    requires Fixed(reg, d, op) && !d.retrying && op.id !in d.applied && EffectOf(reg, d, op).1.Integrated?
    ensures ApplyRemote(reg, d, op).1.Err? <==> RefusedWrite(reg, d, op)
  {
    hide Fixed, Ready, Took, EffectOf, CheckInsert, Refusable, ApplyRemote, RetryLoop;
    var d1 := EffectOf(reg, d, op).0;
    IntegratedReady(reg, d, op);
    ReadyEffect(reg, d, op);
    FlagKept(reg, d, op);
    DeliveryOutcome(reg, d, op, d1);
    TookFlag(d, op, d1);
    RetryFails(reg, d, op, d1.(retrying := true));
    assert d1.pending == d.pending by { TookBuffer(d, op, d1); }
  }

  lemma TookBuffer(e: Doc, p: Operation, e2: Doc)
    requires Took(e, p, e2)
    ensures e2.pending == e.pending
  {
  }

  /** Deletes and writes unlock nothing, and so never fail this way. */
  lemma OnlyInsertsUnlock(reg: Registry, d: Doc, op: Operation)
    requires !op.Insert?
    ensures !RefusedWrite(reg, d, op)
  {
  }
}
