/** Restores that separate replicas, from runs of two of them: an insert that passes,
    and two inserts that tie. */
module RestoreDivergence {
  import opened Types
  import opened Order
  import opened State
  import opened Network
  import opened LiveList
  import opened RestorePlan
  import opened Folding
  import opened Visible
  import opened RestoreComplete
  import opened Restore
  import Canonical
  import Replay
  import C = Counters

  // --------------------------------------------------------- bringing one item back

  lemma {:induction false} NothingDeleted(s: seq<Item>, keep: set<OpId>, t: Stamp)
    requires forall i :: 0 <= i < |s| && !s[i].tombstoned ==> s[i].id in keep
    ensures Deletes(s, keep, t) == []
  {
    if |s| > 0 { NothingDeleted(s[..|s| - 1], keep, t); }
  }

  /** All but target item `p` are kept. */
  lemma {:induction false} OneInserted(target: seq<Item>, kept: set<OpId>, t: Stamp, p: nat, j: nat)
    requires p < |target| && j <= |target| && forall i :: 0 <= i < |target| ==> (target[i].id in kept <==> i != p)
    ensures Inserts(target, kept, t, j) == if j <= p then [] else [InsertOf(target, kept, t, p)]
    ensures Missing(target, kept, j) == if j <= p then 0 else 1
    decreases j
  {
    hide InsertOf;
    if j > 0 { OneInserted(target, kept, t, p, j - 1); }
  }

  lemma BareWrites(id: OpId, t: Stamp)
    ensures WritesFor(map[], map[], id, t) == []
  {
  }

  lemma {:induction false} BareItem(items: seq<Item>, id: OpId)
    requires forall i :: 0 <= i < |items| ==> items[i].attrs == map[]
    ensures ItemWithId(items, id).Some? ==> ItemWithId(items, id).value.attrs == map[]
  {
    if |items| > 0 { BareItem(items[1..], id); }
  }

  lemma {:induction false} NothingSynced(current: seq<Item>, target: seq<Item>, kept: set<OpId>, t: Stamp, j: nat)
    requires j <= |target| && (forall i :: 0 <= i < |current| ==> current[i].attrs == map[])
    requires forall i :: 0 <= i < |target| ==> target[i].attrs == map[]
    ensures Syncs(current, target, kept, t, j) == []
    decreases j
  {
    hide WritesFor, ItemWithId;
    if j > 0 {
      NothingSynced(current, target, kept, t, j - 1);
      BareItem(current, target[j - 1].id);
      BareWrites(target[j - 1].id, After(t, 0));
    }
  }

  /** The batch that brings back the only item missing, behind another. */
  lemma BatchOfOne(a: seq<Item>, b: seq<Item>, t: Stamp, p: nat)
    requires var current, target := LiveItems(a), LiveItems(b);
             && 0 < p < |target| && current == target[..p] + target[p + 1..] && DistinctIds(target)
             && (forall i :: 0 <= i < |target| ==> target[i].attrs == map[])
             && (forall i :: 0 <= i < |a| && !a[i].tombstoned ==> a[i].id in IdsOf(target))
    ensures var target := LiveItems(b);
            Batch(a, b, t) == [Insert(OpId(RESTORE_REPLICA, t.counter + 1), t.lamport + 1, Some(target[p - 1].id),
                                      if p + 1 < |target| then Some(target[p + 1].id) else None,
                                      target[p].kind, target[p].scalar, [])]
  {
    var current, target := LiveItems(a), LiveItems(b);
    var kept := IdsOf(current) * IdsOf(target);
    KeptAllBut(current, target, kept, p);
    BareCurrent(current, target);
    hide LiveItems, Deletes, Inserts, Syncs, IdsOf, DistinctIds, InsertOf;
    NothingDeleted(a, IdsOf(target), t);
    assert After(t, 0) == t;
    OneInserted(target, kept, t, p, |target|);
    BroughtBack(target, kept, t, p);
    NothingSynced(current, target, kept, After(t, 1), |target|);
  }

  lemma BareCurrent(current: seq<Item>, target: seq<Item>)
    requires forall i :: 0 <= i < |current| ==> current[i] in target
    requires forall i :: 0 <= i < |target| ==> target[i].attrs == map[]
    ensures forall i :: 0 <= i < |current| ==> current[i].attrs == map[]
  {
  }

  lemma BroughtBack(target: seq<Item>, kept: set<OpId>, t: Stamp, p: nat)
    requires 0 < p < |target| && target[p].attrs == map[]
    requires forall i :: 0 <= i < |target| ==> (target[i].id in kept <==> i != p)
    ensures InsertOf(target, kept, t, p) ==
            Insert(OpId(RESTORE_REPLICA, t.counter + 1), t.lamport + 1, Some(target[p - 1].id),
                   if p + 1 < |target| then Some(target[p + 1].id) else None, target[p].kind, target[p].scalar, [])
  {
    OneInserted(target, kept, t, p, p);
    assert InitialAttrs(map[]) == [];
  }

  lemma KeptAllBut(current: seq<Item>, target: seq<Item>, kept: set<OpId>, p: nat)
    requires p < |target| && current == target[..p] + target[p + 1..] && DistinctIds(target)
    requires kept == IdsOf(current) * IdsOf(target)
    ensures forall i :: 0 <= i < |target| ==> (target[i].id in kept <==> i != p)
    ensures forall i :: 0 <= i < |current| ==> current[i] in target
  {
    forall i | 0 <= i < |target| ensures target[i].id in kept <==> i != p {
      if i < p { assert current[i] == target[i]; }
      if i > p { assert current[i - 1] == target[i]; }
    }
  }

  // ------------------------------------------------------------------- plain steps

  /** A document of text items without registers, written out. */
  ghost predicate Is(d: Doc, self: nat, next: nat, clock: nat, stream: seq<Item>, applied: set<OpId>) {
    && d.self == self && d.nextCounter == next && d.lamport == clock && d.stream == stream && d.applied == applied
    && d.pending == [] && !d.retrying && C.Exact(d.summary, d.applied)
  }

  function Glyph(id: OpId, left: Option<OpId>, right: Option<OpId>, scalar: nat, tombstoned: bool): Item {
    Item(id, left, right, Text, scalar, tombstoned, map[])
  }

  function TextOp(id: OpId, lamport: nat, left: Option<OpId>, right: Option<OpId>, scalar: nat): Operation {
    Insert(id, lamport, left, right, Text, scalar, [])
  }

  lemma GlyphOf(id: OpId, lamport: nat, left: Option<OpId>, right: Option<OpId>, scalar: nat)
    ensures ItemOf(TextOp(id, lamport, left, right, scalar)) == Glyph(id, left, right, scalar, false)
  {
  }

  /** A fresh text item that goes to a known place. */
  lemma Lands(reg: Registry, d: Doc, op: Operation, k: nat, item: Item)
    requires d.pending == [] && !d.retrying && op.Insert? && op.attrs == [] && op.kind == Text && ValidScalar(op.scalar)
    requires op.id.Valid() && op.id !in d.applied && IndexOf(d, op.id) < 0 && Present(d, op.left)
             && Present(d, op.right)
    requires Boundary(Skel(d.stream), NodeOfOp(op)) + 1 == k
             && item == Glyph(op.id, op.left, op.right, op.scalar, false)
    ensures k <= |d.stream|
    ensures IntegrateOp(reg, d, op) == (Note(d.(stream := InsertAt(d.stream, k, item)), op), Ok(true))
    ensures ApplyRemote(reg, d, op) == IntegrateOp(reg, d, op)
  {
    hide IndexOf, Present, Boundary, Skel, C.Note;
    GlyphOf(op.id, op.lamport, op.left, op.right, op.scalar);
  }

  function Later(a: nat, b: nat): nat {
    if a < b then b else a
  }

  /** A text item from elsewhere arrives and goes to place `k`. */
  lemma Arrives(reg: Registry, d: Doc, self: nat, next: nat, clock: nat, s: seq<Item>, applied: set<OpId>,
                op: Operation, k: nat) returns (d': Doc)
    requires Is(d, self, next, clock, s, applied) && op.Insert? && op.attrs == [] && op.kind == Text
    requires ValidScalar(op.scalar) && op.id.Valid() && op.id !in applied && Find(Skel(s), op.id) < 0
    requires Has(Skel(s), op.left) && Has(Skel(s), op.right) && Boundary(Skel(s), NodeOfOp(op)) + 1 == k
    ensures k <= |s| && ApplyRemote(reg, d, op) == (d', Ok(true))
    ensures Is(d', self, next, Later(clock, op.lamport),
               InsertAt(s, k, Glyph(op.id, op.left, op.right, op.scalar, false)),
               applied + {op.id})
  {
    hide Find, Boundary, Skel, C.Note, C.Exact;
    C.NoteExact(d.summary, d.applied, op.id);
    var item := Glyph(op.id, op.left, op.right, op.scalar, false);
    Lands(reg, d, op, k, item);
    d' := Note(d.(stream := InsertAt(d.stream, k, item)), op);
  }

  /** Behind the last item there is nothing to scan. */
  lemma EndBoundary(s: seq<Node>, n: Node)
    requires n.right.None? && n.left == (if |s| == 0 then None else Some(s[|s| - 1].id))
    ensures Boundary(s, n) == |s| - 1 && Has(s, n.left)
  {
  }

  lemma AtEnd<T>(s: seq<T>, x: T)
    ensures InsertAt(s, |s|, x) == s + [x]
  {
    assert s[..|s|] == s;
  }

  function LastId(s: seq<Item>): Option<OpId> {
    if |s| == 0 then None else Some(s[|s| - 1].id)
  }

  /** An item arrives that was typed at the end. */
  lemma ArrivesLast(reg: Registry, d: Doc, self: nat, next: nat, clock: nat, s: seq<Item>, applied: set<OpId>,
                    op: Operation) returns (d': Doc)
    requires Is(d, self, next, clock, s, applied) && op.id.Valid() && op.id !in applied && Find(Skel(s), op.id) < 0
    requires op.Insert? && op == TextOp(op.id, op.lamport, LastId(s), None, op.scalar) && ValidScalar(op.scalar)
    ensures ApplyRemote(reg, d, op) == (d', Ok(true))
    ensures Is(d', self, next, Later(clock, op.lamport), s + [Glyph(op.id, LastId(s), None, op.scalar, false)],
               applied + {op.id})
  {
    EndBoundary(Skel(s), NodeOfOp(op));
    AtEnd(s, Glyph(op.id, op.left, op.right, op.scalar, false));
    hide Find, Boundary, Skel, Is;
    d' := Arrives(reg, d, self, next, clock, s, applied, op, |s|);
  }

  /** Typing at the end. */
  lemma TypesLast(reg: Registry, d: Doc, self: nat, next: nat, clock: nat, s: seq<Item>, applied: set<OpId>,
                  scalar: nat) returns (d': Doc)
    requires Is(d, self, next, clock, s, applied) && self != 0 && 1 <= next < MAX_COUNTER && ValidScalar(scalar)
    requires OpId(self, next) !in applied && Find(Skel(s), OpId(self, next)) < 0
    ensures var op := TextOp(OpId(self, next), clock + 1, LastId(s), None, scalar);
            Perform(reg, d, TypeText(|s|, scalar)) == (d', Ok(Some(op)))
    ensures Is(d', self, next + 1, clock + 1, s + [Glyph(OpId(self, next), LastId(s), None, scalar, false)],
               applied + {OpId(self, next)})
  {
    var op := TextOp(OpId(self, next), clock + 1, LastId(s), None, scalar);
    var d1 := d.(nextCounter := d.nextCounter + 1, lamport := d.lamport + 1);
    assert Is(d1, self, next + 1, clock + 1, s, applied);
    assert InsertOpAt(d, |s|, Text, scalar, []) == op;
    EndBoundary(Skel(s), NodeOfOp(op));
    AtEnd(s, Glyph(op.id, op.left, op.right, op.scalar, false));
    hide Find, Boundary, Skel, C.Note, C.Exact, IntegrateOp;
    d' := Arrives(reg, d1, self, next + 1, clock + 1, s, applied, op, |s|);
    assert ApplyRemote(reg, d1, op) == IntegrateOp(reg, d1, op);
  }

  /** Deleting a live item. */
  lemma Erases(reg: Registry, d: Doc, self: nat, next: nat, clock: nat, s: seq<Item>, applied: set<OpId>,
               i: nat) returns (d': Doc)
    requires Is(d, self, next, clock, s, applied) && self != 0 && 1 <= next < MAX_COUNTER
    requires i < |s| && !s[i].tombstoned && Find(Skel(s), s[i].id) == i
    ensures var op := Delete(OpId(self, next), clock + 1, Some(s[i].id));
            Perform(reg, d, Erase(i)) == (d', Ok(Some(op)))
    ensures Is(d', self, next + 1, clock + 1, s[i := s[i].(tombstoned := true)], applied + {OpId(self, next)})
  {
    hide Find, Skel, C.Note, C.Exact;
    C.NoteExact(d.summary, d.applied, OpId(self, next));
    var d1 := d.(nextCounter := d.nextCounter + 1, lamport := d.lamport + 1);
    assert IndexOf(d1, s[i].id) == i;
    d' := Note(d1.(stream := s[i := s[i].(tombstoned := true)]), Delete(OpId(self, next), clock + 1, Some(s[i].id)));
  }

  // ----------------------------------------------------------------------- the run

  /** Two replicas' documents and the history between them. */
  ghost predicate Holds(net: Net, log: seq<Operation>, d1: Doc, d2: Doc) {
    net.docs.Keys == {1, 2} && net.seen.Keys == {1, 2} && net.log == log && net.docs[1] == d1 && net.docs[2] == d2
  }

  lemma Blank(reg: Registry)
    ensures Holds(Run(reg, {1, 2}, []), [], Empty(1), Empty(2))
    ensures Is(Empty(1), 1, 1, 0, [], {}) && Is(Empty(2), 2, 1, 0, [], {})
  {
  }

  lemma Next(reg: Registry, events: seq<Event>, e: Event)
    ensures Run(reg, {1, 2}, events + [e]) == Step(reg, Run(reg, {1, 2}, events), e)
  {
    assert Replay.Front(events + [e]) == events && Replay.Last(events + [e]) == e;
  }

  /** An edit at replica `r`. */
  lemma EditAt(reg: Registry, events: seq<Event>, log: seq<Operation>, d1: Doc, d2: Doc, r: nat, edit: Edit, d: Doc,
               op: Operation)
    requires Holds(Run(reg, {1, 2}, events), log, d1, d2) && (r == 1 || r == 2)
    requires Perform(reg, if r == 1 then d1 else d2, edit) == (d, Ok(Some(op)))
    ensures Holds(Run(reg, {1, 2}, events + [Local(r, edit)]), log + [op], if r == 1 then d else d1,
                  if r == 2 then d else d2)
  {
    hide Run, Perform;
    Next(reg, events, Local(r, edit));
  }

  /** A delivery to replica 2. */
  lemma DeliverAt(reg: Registry, events: seq<Event>, log: seq<Operation>, d1: Doc, d2: Doc, k: nat, d: Doc)
    requires Holds(Run(reg, {1, 2}, events), log, d1, d2) && k < |log|
    requires ApplyRemote(reg, d2, log[k]) == (d, Ok(true))
    ensures Holds(Run(reg, {1, 2}, events + [Deliver(2, k)]), log, d1, d)
  {
    hide Run, ApplyRemote;
    Next(reg, events, Deliver(2, k));
  }

  // ------------------------------------------------------------------- the witnesses

  const A := OpId(1, 1)
  const T := OpId(1, 2)
  const R := OpId(1, 3)
  const Y := OpId(2, 1)
  const X := OpId(RESTORE_REPLICA, 1)
  const Z := OpId(RESTORE_REPLICA, 2)

  /** Replica 1 types "ab". */
  const TWO: seq<Event> := [] + [Local(1, TypeText(0, 97))] + [Local(1, TypeText(1, 98))]

  /** Replica 2 receives it and types "c" behind; replica 1 types "d" behind. */
  const FOUR: seq<Event> :=
    TWO + [Deliver(2, 0)] + [Deliver(2, 1)] + [Local(2, TypeText(2, 99))] + [Local(1, TypeText(2, 100))]

  const OP_A := TextOp(A, 1, None, None, 97)
  const OP_T := TextOp(T, 2, Some(A), None, 98)
  const OP_Y := TextOp(Y, 3, Some(T), None, 99)
  const OP_R := TextOp(R, 3, Some(T), None, 100)

  const ITEM_A := Glyph(A, None, None, 97, false)
  const ITEM_T := Glyph(T, Some(A), None, 98, false)
  const ITEM_Y := Glyph(Y, Some(T), None, 99, false)
  const ITEM_R := Glyph(R, Some(T), None, 100, false)

  lemma Absent(s: seq<Item>, id: OpId)
    requires forall i :: 0 <= i < |s| ==> s[i].id != id
    ensures Find(Skel(s), id) < 0
  {
  }

  lemma TwoTyped(reg: Registry) returns (d: Doc)
    ensures Holds(Run(reg, {1, 2}, TWO), [OP_A, OP_T], d, Empty(2))
    ensures Is(d, 1, 3, 2, [ITEM_A, ITEM_T], {A, T})
  {
    hide Run, Perform, Skel, Find, C.Exact;
    Blank(reg);
    Absent([], A);
    var d1 := TypesLast(reg, Empty(1), 1, 1, 0, [], {}, 97);
    EditAt(reg, [], [], Empty(1), Empty(2), 1, TypeText(0, 97), d1, OP_A);
    assert [] + [ITEM_A] == [ITEM_A] && [] + [OP_A] == [OP_A] && {} + {A} == {A};
    Absent([ITEM_A], T);
    d := TypesLast(reg, d1, 1, 2, 1, [ITEM_A], {A}, 98);
    EditAt(reg, [] + [Local(1, TypeText(0, 97))], [OP_A], d1, Empty(2), 1, TypeText(1, 98), d, OP_T);
    assert [ITEM_A] + [ITEM_T] == [ITEM_A, ITEM_T] && [OP_A] + [OP_T] == [OP_A, OP_T] && {A} + {T} == {A, T};
  }

  /** Replica 2 receives both. */
  lemma BothReceived(reg: Registry) returns (d: Doc, e: Doc)
    ensures Holds(Run(reg, {1, 2}, TWO + [Deliver(2, 0)] + [Deliver(2, 1)]), [OP_A, OP_T], d, e)
    ensures Is(d, 1, 3, 2, [ITEM_A, ITEM_T], {A, T}) && Is(e, 2, 1, 2, [ITEM_A, ITEM_T], {A, T})
  {
    hide Run, ApplyRemote, Skel, Find, C.Exact;
    d := TwoTyped(reg);
    Blank(reg);
    Absent([], A);
    var e1 := ArrivesLast(reg, Empty(2), 2, 1, 0, [], {}, OP_A);
    assert [] + [ITEM_A] == [ITEM_A] && {} + {A} == {A};
    DeliverAt(reg, TWO, [OP_A, OP_T], d, Empty(2), 0, e1);
    Absent([ITEM_A], T);
    e := ArrivesLast(reg, e1, 2, 1, 1, [ITEM_A], {A}, OP_T);
    assert [ITEM_A] + [ITEM_T] == [ITEM_A, ITEM_T] && {A} + {T} == {A, T};
    DeliverAt(reg, TWO + [Deliver(2, 0)], [OP_A, OP_T], d, e1, 1, e);
  }

  lemma AllTyped(reg: Registry) returns (d: Doc, e: Doc)
    ensures Holds(Run(reg, {1, 2}, FOUR), [OP_A, OP_T, OP_Y, OP_R], d, e)
    ensures Is(d, 1, 4, 3, [ITEM_A, ITEM_T, ITEM_R], {A, T, R})
  {
    hide Run, Perform, Skel, Find, C.Exact;
    var d1, e1 := BothReceived(reg);
    var events := TWO + [Deliver(2, 0)] + [Deliver(2, 1)];
    Absent([ITEM_A, ITEM_T], Y);
    e := TypesLast(reg, e1, 2, 1, 2, [ITEM_A, ITEM_T], {A, T}, 99);
    EditAt(reg, events, [OP_A, OP_T], d1, e1, 2, TypeText(2, 99), e, OP_Y);
    assert [OP_A, OP_T] + [OP_Y] == [OP_A, OP_T, OP_Y] && [OP_A, OP_T, OP_Y] + [OP_R] == [OP_A, OP_T, OP_Y, OP_R];
    Absent([ITEM_A, ITEM_T], R);
    d := TypesLast(reg, d1, 1, 3, 2, [ITEM_A, ITEM_T], {A, T}, 100);
    EditAt(reg, events + [Local(2, TypeText(2, 99))], [OP_A, OP_T, OP_Y], d1, e, 1, TypeText(2, 100), d, OP_R);
    assert [ITEM_A, ITEM_T] + [ITEM_R] == [ITEM_A, ITEM_T, ITEM_R] && {A, T} + {R} == {A, T, R};
  }

  // ------------------------------------------------------------- the passing insert

  const HIDDEN_T := Glyph(T, Some(A), None, 98, true)
  const OP_X := TextOp(X, 1, Some(A), Some(R), 98)
  const ITEM_X := Glyph(X, Some(A), Some(R), 98, false)

  /** Replica 1 deletes "b". */
  lemma Erased(reg: Registry) returns (before: Doc, d: Doc, e: Doc)
    ensures Holds(Run(reg, {1, 2}, FOUR), [OP_A, OP_T, OP_Y, OP_R], before, e)
    ensures Run(reg, {1, 2}, FOUR + [Local(1, Erase(1))]).docs.Keys == {1, 2}
            && Run(reg, {1, 2}, FOUR + [Local(1, Erase(1))]).docs[1] == d
    ensures OP_Y in Run(reg, {1, 2}, FOUR + [Local(1, Erase(1))]).log
    ensures Is(before, 1, 4, 3, [ITEM_A, ITEM_T, ITEM_R], {A, T, R})
    ensures Is(d, 1, 5, 4, [ITEM_A, HIDDEN_T, ITEM_R], {A, T, R, OpId(1, 4)})
  {
    hide Run, Perform, C.Exact;
    before, e := AllTyped(reg);
    var s := [ITEM_A, ITEM_T, ITEM_R];
    FoundIn(s, 1);
    hide Skel, Find;
    d := Erases(reg, before, 1, 4, 3, s, {A, T, R}, 1);
    assert s[1 := s[1].(tombstoned := true)] == [ITEM_A, HIDDEN_T, ITEM_R];
    assert {A, T, R} + {OpId(1, 4)} == {A, T, R, OpId(1, 4)};
    EditAt(reg, FOUR, [OP_A, OP_T, OP_Y, OP_R], before, e, 1, Erase(1), d, Delete(OpId(1, 4), 4, Some(T)));
    assert ([OP_A, OP_T, OP_Y, OP_R] + [Delete(OpId(1, 4), 4, Some(T))])[2] == OP_Y;
  }

  lemma FoundIn(s: seq<Item>, i: int)
    requires 0 <= i < |s| && forall j, k :: 0 <= j < k < |s| ==> s[j].id != s[k].id
    ensures Find(Skel(s), s[i].id) == i
  {
    FindAt(Skel(s), i);
  }

  /** The basis of a restore between two plain documents. */
  lemma PlainBasis(a: Doc, b: Doc, n: nat)
    requires C.Exact(a.summary, a.applied) && C.Exact(b.summary, b.applied)
    requires forall c: nat :: OpId(RESTORE_REPLICA, c) in a.applied <==> 1 <= c <= n
    requires forall c: nat :: OpId(RESTORE_REPLICA, c) !in b.applied
    requires forall i :: 0 <= i < |a.stream| ==> a.stream[i].attrs == map[]
    requires forall i :: 0 <= i < |b.stream| ==> b.stream[i].attrs == map[]
    ensures Basis(a, b) == Stamp(n, 0) && C.GapOf(a.summary, RESTORE_REPLICA) == {}
  {
    RestoreCount(a.summary, a.applied, n);
    RestoreCount(b.summary, b.applied, 0);
    hide C.Exact;
    Canonical.TopItemsIs(a.stream, 0);
    Canonical.TopItemsIs(b.stream, 0);
  }

  lemma RestoreCount(s: C.Summary, applied: set<OpId>, n: nat)
    requires C.Exact(s, applied) && forall c: nat :: OpId(RESTORE_REPLICA, c) in applied <==> 1 <= c <= n
    ensures C.At(s, RESTORE_REPLICA) == n && C.GapOf(s, RESTORE_REPLICA) == {}
  {
    assert C.Row(applied, RESTORE_REPLICA, C.At(s, RESTORE_REPLICA), C.GapOf(s, RESTORE_REPLICA));
    assert OpId(RESTORE_REPLICA, n + 1) !in applied;
    assert OpId(RESTORE_REPLICA, C.At(s, RESTORE_REPLICA) + 1) !in applied;
  }

  /** The restore of what stood before is one insert between "a" and "d". */
  lemma UndoBatch(before: Doc, d: Doc)
    requires Is(before, 1, 4, 3, [ITEM_A, ITEM_T, ITEM_R], {A, T, R})
    requires Is(d, 1, 5, 4, [ITEM_A, HIDDEN_T, ITEM_R], {A, T, R, OpId(1, 4)})
    ensures Batch(d.stream, before.stream, Basis(d, before)) == [OP_X]
  {
    PlainBasis(d, before, 0);
    hide Is, C.Exact, Basis, Batch;
    ThreeLive(ITEM_A, ITEM_T, ITEM_R);
    var target := [ITEM_A, ITEM_T, ITEM_R];
    assert target[0].id in IdsOf(target) && target[1].id in IdsOf(target) && target[2].id in IdsOf(target);
    assert target[..1] + target[2..] == [ITEM_A, ITEM_R];
    BatchOfOne(d.stream, before.stream, Stamp(0, 0), 1);
  }

  lemma ThreeLive(x: Item, y: Item, z: Item)
    requires !x.tombstoned && !y.tombstoned && !z.tombstoned
    ensures LiveItems([x, y, z]) == [x, y, z] && LiveItems([x, y.(tombstoned := true), z]) == [x, z]
  {
    OneLive(x);
    TwoLive(x, y);
    assert [x, y, z][..2] == [x, y];
    assert [x, y.(tombstoned := true), z][..2] == [x, y.(tombstoned := true)];
  }

  lemma OneLive(x: Item)
    ensures LiveItems([x]) == if x.tombstoned then [] else [x]
  {
    assert [x][..0] == [];
  }

  lemma TwoLive(x: Item, y: Item)
    requires !x.tombstoned && !y.tombstoned
    ensures LiveItems([x, y]) == [x, y] && LiveItems([x, y.(tombstoned := true)]) == [x]
  {
    OneLive(x);
    assert [x, y][..1] == [x] && [x, y.(tombstoned := true)][..1] == [x];
  }

  /** Where the two inserts go, in either order. */
  lemma FirstPlaces()
    ensures var s := Skel([ITEM_A, HIDDEN_T, ITEM_R]);
            Boundary(s, NodeOfOp(OP_X)) == 1 && Boundary(s, NodeOfOp(OP_Y)) == 2
  {
    var s := Skel([ITEM_A, HIDDEN_T, ITEM_R]);
    FoundIn([ITEM_A, HIDDEN_T, ITEM_R], 0);
    FoundIn([ITEM_A, HIDDEN_T, ITEM_R], 1);
    FoundIn([ITEM_A, HIDDEN_T, ITEM_R], 2);
    assert Scan(s, NodeOfOp(OP_X), 2, 1) == 1;
    assert Scan(s, NodeOfOp(OP_Y), 3, 2) == 2;
  }

  lemma SecondPlaces()
    ensures Boundary(Skel([ITEM_A, HIDDEN_T, ITEM_X, ITEM_R]), NodeOfOp(OP_Y)) == 1
    ensures Boundary(Skel([ITEM_A, HIDDEN_T, ITEM_R, ITEM_Y]), NodeOfOp(OP_X)) == 1
  {
    var s, t := [ITEM_A, HIDDEN_T, ITEM_X, ITEM_R], [ITEM_A, HIDDEN_T, ITEM_R, ITEM_Y];
    FoundIn(s, 0);
    FoundIn(s, 1);
    FoundIn(t, 0);
    FoundIn(t, 1);
    FoundIn(t, 2);
    assert Scan(Skel(s), NodeOfOp(OP_Y), 2, 1) == 1;
    assert Scan(Skel(t), NodeOfOp(OP_X), 2, 1) == 1;
  }

  lemma BroughtBackShows()
    ensures var x, y := LiveItems([ITEM_A, HIDDEN_T, ITEM_X, ITEM_R]), LiveItems([ITEM_A, ITEM_T, ITEM_R]);
            |x| == |y| && forall i :: 0 <= i < |x| ==> LiveOf(x[i]) == LiveOf(y[i])
  {
    ThreeLive(ITEM_A, ITEM_T, ITEM_R);
    TwoLive(ITEM_A, ITEM_T);
    assert [ITEM_A, HIDDEN_T, ITEM_X][..2] == [ITEM_A, HIDDEN_T];
    assert [ITEM_A, HIDDEN_T, ITEM_X, ITEM_R][..3] == [ITEM_A, HIDDEN_T, ITEM_X];
  }

  /** One leg: two arrivals at known places. */
  lemma TwoArrive(reg: Registry, d: Doc, next: nat, clock: nat, s: seq<Item>, applied: set<OpId>, p: Operation, i: nat,
                  q: Operation, j: nat, s1: seq<Item>, s2: seq<Item>) returns (d1: Doc, d2: Doc)
    requires Is(d, 1, next, clock, s, applied) && PlainText(p) && PlainText(q) && p.id != q.id
    requires p.id !in applied && q.id !in applied && Find(Skel(s), p.id) < 0 && Find(Skel(s1), q.id) < 0
    requires Has(Skel(s), p.left) && Has(Skel(s), p.right) && Boundary(Skel(s), NodeOfOp(p)) + 1 == i
    requires i <= |s| && s1 == InsertAt(s, i, Glyph(p.id, p.left, p.right, p.scalar, false))
    requires Has(Skel(s1), q.left) && Has(Skel(s1), q.right) && Boundary(Skel(s1), NodeOfOp(q)) + 1 == j
    requires j <= |s1| && s2 == InsertAt(s1, j, Glyph(q.id, q.left, q.right, q.scalar, false))
    ensures ApplyRemote(reg, d, p) == (d1, Ok(true)) && ApplyRemote(reg, d1, q) == (d2, Ok(true))
    ensures d1.stream == s1 && d2.stream == s2 && d1.pending == [] && d2.pending == []
  {
    hide Find, Boundary, Skel, C.Exact, InsertAt, ApplyRemote;
    d1 := Arrives(reg, d, 1, next, clock, s, applied, p, i);
    d2 := Arrives(reg, d1, 1, next, Later(clock, p.lamport), s1, applied + {p.id}, q, j);
  }

  /** The restore passes the command's checks. */
  lemma OneRestores(reg: Registry, before: Doc, d: Doc, dx: Doc, op: Operation)
    requires ApplyRemote(reg, d, op) == (dx, Ok(true)) && dx.pending == d.pending
    requires |LiveItems(dx.stream)| == |LiveItems(before.stream)|
    requires forall i :: 0 <= i < |LiveItems(dx.stream)| ==>
               LiveOf(LiveItems(dx.stream)[i]) == LiveOf(LiveItems(before.stream)[i])
    ensures Restores(reg, d, before, [op])
  {
    hide ApplyRemote, LiveItems, LiveOf, VisibleDocument;
    FoldNone(reg, d);
    FoldOne(reg, d, [], op);
    assert [] + [op] == [op];
    ShownAlike(dx.stream, before.stream);
  }

  predicate PlainText(op: Operation) {
    op.Insert? && op.attrs == [] && op.kind == Text && ValidScalar(op.scalar) && op.id.Valid()
  }

  /** A restore to what stood before a deletion: the batch is one insert, which brings
      "b" back between "a" and "d"; replica 2's "c" and the insert do not commute. */
  lemma RestoreDiverges(reg: Registry) returns (before: Doc, d: Doc, dx: Doc, dxy: Doc, dy: Doc, dyx: Doc)
    ensures Run(reg, {1, 2}, FOUR).docs.Keys == {1, 2} && Run(reg, {1, 2}, FOUR).docs[1] == before
    ensures var net := Run(reg, {1, 2}, FOUR + [Local(1, Erase(1))]);
            net.docs.Keys == {1, 2} && net.docs[1] == d && OP_Y in net.log && OP_Y.id !in d.applied
    ensures Batch(d.stream, before.stream, Basis(d, before)) == [OP_X] && Restores(reg, d, before, [OP_X])
    ensures ApplyRemote(reg, d, OP_X) == (dx, Ok(true)) && ApplyRemote(reg, dx, OP_Y) == (dxy, Ok(true))
    ensures ApplyRemote(reg, d, OP_Y) == (dy, Ok(true)) && ApplyRemote(reg, dy, OP_X) == (dyx, Ok(true))
    ensures dxy.stream == [ITEM_A, HIDDEN_T, ITEM_Y, ITEM_X, ITEM_R]
    ensures dyx.stream == [ITEM_A, HIDDEN_T, ITEM_X, ITEM_R, ITEM_Y]
  {
    hide Run, C.Exact, Batch, Basis, ApplyRemote, Is;
    var e;
    before, d, e := Erased(reg);
    UndoBatch(before, d);
    dx, dxy, dy, dyx := BothOrders(reg, d);
    IsPlain(before, 1, 4, 3, [ITEM_A, ITEM_T, ITEM_R], {A, T, R});
    IsPlain(d, 1, 5, 4, [ITEM_A, HIDDEN_T, ITEM_R], {A, T, R, OpId(1, 4)});
    BroughtBackShows();
    OneRestores(reg, before, d, dx, OP_X);
  }

  lemma IsPlain(d: Doc, self: nat, next: nat, clock: nat, stream: seq<Item>, applied: set<OpId>)
    requires Is(d, self, next, clock, stream, applied)
    ensures d.stream == stream && d.applied == applied && d.pending == []
  {
  }

  lemma BothOrders(reg: Registry, d: Doc) returns (dx: Doc, dxy: Doc, dy: Doc, dyx: Doc)
    requires Is(d, 1, 5, 4, [ITEM_A, HIDDEN_T, ITEM_R], {A, T, R, OpId(1, 4)})
    ensures ApplyRemote(reg, d, OP_X) == (dx, Ok(true)) && ApplyRemote(reg, dx, OP_Y) == (dxy, Ok(true))
    ensures ApplyRemote(reg, d, OP_Y) == (dy, Ok(true)) && ApplyRemote(reg, dy, OP_X) == (dyx, Ok(true))
    ensures dx.stream == [ITEM_A, HIDDEN_T, ITEM_X, ITEM_R] && dx.pending == []
    ensures dxy.stream == [ITEM_A, HIDDEN_T, ITEM_Y, ITEM_X, ITEM_R]
    ensures dyx.stream == [ITEM_A, HIDDEN_T, ITEM_X, ITEM_R, ITEM_Y]
  {
    hide C.Exact, ApplyRemote, Boundary, Find, Is, Skel;
    var s, sx, sy := [ITEM_A, HIDDEN_T, ITEM_R], [ITEM_A, HIDDEN_T, ITEM_X, ITEM_R], [ITEM_A, HIDDEN_T, ITEM_R, ITEM_Y];
    FirstPlaces();
    SecondPlaces();
    FoundIn(s, 0);
    FoundIn(s, 1);
    FoundIn(s, 2);
    FoundIn(sx, 1);
    FoundIn(sy, 0);
    FoundIn(sy, 2);
    Absent(s, X);
    Absent(s, Y);
    Absent(sx, Y);
    Absent(sy, X);
    dx, dxy := TwoArrive(reg, d, 5, 4, s, {A, T, R, OpId(1, 4)}, OP_X, 2, OP_Y, 2, sx,
                         [ITEM_A, HIDDEN_T, ITEM_Y, ITEM_X, ITEM_R]);
    dy, dyx := TwoArrive(reg, d, 5, 4, s, {A, T, R, OpId(1, 4)}, OP_Y, 3, OP_X, 2, sy,
                         [ITEM_A, HIDDEN_T, ITEM_X, ITEM_R, ITEM_Y]);
  }

  // ------------------------------------------------------------------- the tie

  const OP_B := TextOp(X, 1, Some(A), None, 98)
  const OP_C := TextOp(Z, 1, Some(A), None, 98)
  const ITEM_B := Glyph(X, Some(A), None, 98, false)
  const ITEM_C := Glyph(Z, Some(A), None, 98, false)
  const HIDDEN_B := Glyph(X, Some(A), None, 98, true)

  lemma PairTarget(x: Item, y: Item)
    requires !x.tombstoned && !y.tombstoned && x.attrs == y.attrs == map[] && x.id != y.id
    ensures var target := LiveItems([x, y]);
            && target == [x, y] && DistinctIds(target) && target[..1] + target[2..] == [x]
            && x.id in IdsOf(target) && y.id in IdsOf(target)
  {
    TwoLive(x, y);
    var target := [x, y];
    assert target[0].id in IdsOf(target) && target[1].id in IdsOf(target);
    assert target[..1] + target[2..] == [x];
  }

  /** "b" deleted at the end. */
  lemma FirstBatch(before: Doc, d: Doc)
    requires Is(before, 1, 3, 2, [ITEM_A, ITEM_T], {A, T})
    requires Is(d, 1, 4, 3, [ITEM_A, HIDDEN_T], {A, T, OpId(1, 3)})
    ensures Batch(d.stream, before.stream, Basis(d, before)) == [OP_B]
  {
    PlainBasis(d, before, 0);
    hide Is, C.Exact, Basis, Batch, LiveItems, IdsOf;
    PairTarget(ITEM_A, ITEM_T);
    TwoLive(ITEM_A, ITEM_T);
    BatchOfOne(d.stream, before.stream, Stamp(0, 0), 1);
  }

  /** "b" put back and deleted once more. */
  lemma SecondBatch(before: Doc, d: Doc)
    requires Is(before, 1, 3, 2, [ITEM_A, ITEM_T], {A, T})
    requires Is(d, 1, 5, 4, [ITEM_A, HIDDEN_T, HIDDEN_B], {A, T, OpId(1, 3), X, OpId(1, 4)})
    ensures Batch(d.stream, before.stream, Basis(d, before)) == [OP_C]
  {
    PlainBasis(d, before, 1);
    TwoLive(ITEM_A, ITEM_T);
    assert [ITEM_A, HIDDEN_T, HIDDEN_B][..2] == [ITEM_A, HIDDEN_T];
    assert LiveItems([ITEM_A, HIDDEN_T, HIDDEN_B]) == [ITEM_A];
    hide Is, C.Exact, Basis, Batch, LiveItems, IdsOf;
    PairTarget(ITEM_A, ITEM_T);
    BatchOfOne(d.stream, before.stream, Stamp(1, 0), 1);
  }

  lemma TiePlaces()
    ensures Boundary(Skel([ITEM_A, HIDDEN_T]), NodeOfOp(OP_B)) == 1
    ensures Boundary(Skel([ITEM_A, HIDDEN_T]), NodeOfOp(OP_C)) == 1
    ensures Boundary(Skel([ITEM_A, HIDDEN_T, ITEM_B]), NodeOfOp(OP_C)) == 1
    ensures Boundary(Skel([ITEM_A, HIDDEN_T, ITEM_C]), NodeOfOp(OP_B)) == 1
  {
    var s, t, u := [ITEM_A, HIDDEN_T], [ITEM_A, HIDDEN_T, ITEM_B], [ITEM_A, HIDDEN_T, ITEM_C];
    FoundIn(s, 0);
    FoundIn(t, 0);
    FoundIn(u, 0);
    assert Scan(Skel(s), NodeOfOp(OP_B), 2, 1) == 1 && Scan(Skel(s), NodeOfOp(OP_C), 2, 1) == 1;
    assert Scan(Skel(t), NodeOfOp(OP_C), 3, 1) == 1 && Scan(Skel(u), NodeOfOp(OP_B), 3, 1) == 1;
    assert Scan(Skel(t), NodeOfOp(OP_C), 2, 1) == 1 && Scan(Skel(u), NodeOfOp(OP_B), 2, 1) == 1;
  }

  /** Replica 1 deletes "b", restores what stood before, deletes "b" once more and
      restores it once more.  Each batch is one insert, and the two do not commute. */
  lemma RestoresTie(reg: Registry)
      returns (before: Doc, d: Doc, d1: Doc, d2: Doc, dbc: Doc, dc: Doc, dcb: Doc)
    ensures Run(reg, {1, 2}, TWO).docs.Keys == {1, 2} && Run(reg, {1, 2}, TWO).docs[1] == before
    ensures var net := Run(reg, {1, 2}, TWO + [Local(1, Erase(1))]); net.docs.Keys == {1, 2} && net.docs[1] == d
    ensures Batch(d.stream, before.stream, Basis(d, before)) == [OP_B] && ApplyRemote(reg, d, OP_B) == (d1, Ok(true))
    ensures Perform(reg, d1, Erase(2)).0 == d2 && Batch(d2.stream, before.stream, Basis(d2, before)) == [OP_C]
    ensures ApplyRemote(reg, d1, OP_C) == (dbc, Ok(true))
    ensures ApplyRemote(reg, d, OP_C) == (dc, Ok(true)) && ApplyRemote(reg, dc, OP_B) == (dcb, Ok(true))
    ensures dbc.stream == [ITEM_A, HIDDEN_T, ITEM_C, ITEM_B] && dcb.stream == [ITEM_A, HIDDEN_T, ITEM_B, ITEM_C]
  {
    hide Run, C.Exact, Batch, Basis, ApplyRemote, Perform, Find, Is;
    before := TwoTyped(reg);
    var s0 := [ITEM_A, ITEM_T];
    FoundIn(s0, 1);
    hide Skel;
    d := Erases(reg, before, 1, 3, 2, s0, {A, T}, 1);
    assert s0[1 := s0[1].(tombstoned := true)] == [ITEM_A, HIDDEN_T] && {A, T} + {OpId(1, 3)} == {A, T, OpId(1, 3)};
    EditAt(reg, TWO, [OP_A, OP_T], before, Empty(2), 1, Erase(1), d, Delete(OpId(1, 3), 3, Some(T)));
    d1, d2, dbc, dc, dcb := TieOrders(reg, d);
    FirstBatch(before, d);
    SecondBatch(before, d2);
  }

  lemma TieOrders(reg: Registry, d: Doc) returns (d1: Doc, d2: Doc, dbc: Doc, dc: Doc, dcb: Doc)
    requires Is(d, 1, 4, 3, [ITEM_A, HIDDEN_T], {A, T, OpId(1, 3)})
    ensures ApplyRemote(reg, d, OP_B) == (d1, Ok(true)) && Perform(reg, d1, Erase(2)).0 == d2
    ensures Is(d2, 1, 5, 4, [ITEM_A, HIDDEN_T, HIDDEN_B], {A, T, OpId(1, 3), X, OpId(1, 4)})
    ensures ApplyRemote(reg, d1, OP_C) == (dbc, Ok(true))
    ensures ApplyRemote(reg, d, OP_C) == (dc, Ok(true)) && ApplyRemote(reg, dc, OP_B) == (dcb, Ok(true))
    ensures dbc.stream == [ITEM_A, HIDDEN_T, ITEM_C, ITEM_B] && dcb.stream == [ITEM_A, HIDDEN_T, ITEM_B, ITEM_C]
  {
    hide C.Exact, ApplyRemote, Perform, Boundary, Find, Is, Skel;
    var s, sb, sc := [ITEM_A, HIDDEN_T], [ITEM_A, HIDDEN_T, ITEM_B], [ITEM_A, HIDDEN_T, ITEM_C];
    FoundIn(s, 0);
    FoundIn(sb, 0);
    FoundIn(sb, 2);
    FoundIn(sc, 0);
    Absent(s, X);
    Absent(s, Z);
    Absent(sb, Z);
    Absent(sc, X);
    TiePlaces();
    var applied := {A, T, OpId(1, 3)};
    d1, dbc := TwoArrive(reg, d, 4, 3, s, applied, OP_B, 2, OP_C, 2, sb, [ITEM_A, HIDDEN_T, ITEM_C, ITEM_B]);
    dc, dcb := TwoArrive(reg, d, 4, 3, s, applied, OP_C, 2, OP_B, 2, sc, [ITEM_A, HIDDEN_T, ITEM_B, ITEM_C]);
    var e := Arrives(reg, d, 1, 4, 3, s, applied, OP_B, 2);
    d2 := Erases(reg, e, 1, 4, 3, sb, applied + {X}, 2);
    assert sb[2 := sb[2].(tombstoned := true)] == [ITEM_A, HIDDEN_T, HIDDEN_B];
    assert applied + {X} + {OpId(1, 4)} == {A, T, OpId(1, 3), X, OpId(1, 4)};
  }
}
