/** Every integration of an issued operation keeps a document determined by the
    history: the steps of the convergence argument. */
module Delivery {
  import opened Types
  import opened Order
  import opened Replay
  import opened State
  import opened History
  import C = Counters
  import P = Positions

  // ------------------------------------------------------------------ registers

  lemma {:induction false} InitialExact(initial: seq<InitialAttr>, lamport: nat, writer: nat, name: Bytes)
    ensures var a := ApplyInitial(map[], initial, lamport, writer);
            && (name in a <==> FirstInitial(initial, name).Some?)
            && (name in a ==> a[name] == Register(FirstInitial(initial, name).value, lamport, writer))
  {
    if |initial| > 0 {
      var n := |initial| - 1;
      InitialExact(initial[..n], lamport, writer, name);
      InitialExact(initial[..n], lamport, writer, initial[n].name);
    }
  }

  /** Application of an operation that does not write the register leaves it right. */
  lemma RegisterElse(log: seq<Operation>, applied: set<OpId>, k: int, id: OpId, attrs: AttrMap, name: Bytes)
    requires UniqueIds(log) && 0 <= k < |log| && WriteOf(log[k], id, name).None?
    requires RegisterOk(log, applied, id, attrs, name)
    ensures RegisterOk(log, applied + {log[k].id}, id, attrs, name)
  {
    var now := applied + {log[k].id};
    forall j ensures Wrote(log, now, j, id, name) <==> Wrote(log, applied, j, id, name) {
      if 0 <= j < |log| && log[j].id == log[k].id { IdAt(log, j, k); }
    }
    if name in attrs {
      var w :| Wins(log, applied, w, id, name, attrs[name]);
      assert Wins(log, now, w, id, name, attrs[name]);
    }
  }

  /** Application of an operation that writes the register: the greater write stays. */
  lemma RegisterWrite(log: seq<Operation>, applied: set<OpId>, k: int, id: OpId, attrs: AttrMap, name: Bytes)
    requires UniqueIds(log) && 0 <= k < |log| && WriteOf(log[k], id, name).Some?
    requires RegisterOk(log, applied, id, attrs, name)
    ensures RegisterOk(log, applied + {log[k].id}, id,
              ApplyRegister(attrs, name, WriteOf(log[k], id, name).value, log[k].lamport, log[k].id.replica), name)
  {
    var now, op := applied + {log[k].id}, log[k];
    forall j ensures Wrote(log, now, j, id, name) <==> j == k || Wrote(log, applied, j, id, name) {
      if 0 <= j < |log| && log[j].id == log[k].id { IdAt(log, j, k); }
    }
    if name in attrs {
      var w :| Wins(log, applied, w, id, name, attrs[name]);
      if WriteBelow(attrs[name].lamport, attrs[name].writer, op.lamport, op.id.replica) {
        assert Wins(log, now, k, id, name, Register(WriteOf(op, id, name).value, op.lamport, op.id.replica));
      } else {
        assert Wins(log, now, w, id, name, attrs[name]);
      }
    } else {
      assert Wins(log, now, k, id, name, Register(WriteOf(op, id, name).value, op.lamport, op.id.replica));
    }
  }

  /** A register depends only on its own name's entry. */
  lemma RegisterFrame(log: seq<Operation>, applied: set<OpId>, id: OpId, a: AttrMap, b: AttrMap, name: Bytes)
    requires RegisterOk(log, applied, id, a, name)
    requires (name in a <==> name in b) && (name in a ==> a[name] == b[name])
    ensures RegisterOk(log, applied, id, b, name)
  {
  }

  // ---------------------------------------------------------------------- items

  /** An operation that neither erases nor writes an item leaves the item right. */
  lemma ItemElse(log: seq<Operation>, applied: set<OpId>, k: int, item: Item)
    requires UniqueIds(log) && 0 <= k < |log| && ItemOk(log, applied, item)
    requires !(log[k].Delete? && log[k].target == Some(item.id))
    requires forall name :: WriteOf(log[k], item.id, name).None?
    ensures ItemOk(log, applied + {log[k].id}, item)
  {
    var now := applied + {log[k].id};
    forall j ensures Erased(log, now, j, item.id) <==> Erased(log, applied, j, item.id) {
      if 0 <= j < |log| && log[j].id == log[k].id { IdAt(log, j, k); }
    }
    forall name ensures RegisterOk(log, now, item.id, item.attrs, name) {
      RegisterElse(log, applied, k, item.id, item.attrs, name);
    }
  }

  lemma ItemErased(log: seq<Operation>, applied: set<OpId>, k: int, item: Item)
    requires UniqueIds(log) && 0 <= k < |log| && ItemOk(log, applied, item)
    requires log[k].Delete? && log[k].target == Some(item.id)
    ensures ItemOk(log, applied + {log[k].id}, item.(tombstoned := true))
  {
    var now, item' := applied + {log[k].id}, item.(tombstoned := true);
    assert Erased(log, now, k, item.id);
    var c :| Content(log, c, item);
    assert Content(log, c, item');
    forall name ensures RegisterOk(log, now, item.id, item.attrs, name) {
      RegisterElse(log, applied, k, item.id, item.attrs, name);
    }
  }

  lemma ItemWritten(log: seq<Operation>, applied: set<OpId>, k: int, item: Item)
    requires UniqueIds(log) && 0 <= k < |log| && ItemOk(log, applied, item)
    requires log[k].SetAttr? && log[k].target == Some(item.id)
    ensures ItemOk(log, applied + {log[k].id},
              item.(attrs := ApplyRegister(item.attrs, log[k].name, log[k].value, log[k].lamport, log[k].id.replica)))
  {
    var now, op := applied + {log[k].id}, log[k];
    var attrs := ApplyRegister(item.attrs, op.name, op.value, op.lamport, op.id.replica);
    var item' := item.(attrs := attrs);
    var c :| Content(log, c, item);
    assert Content(log, c, item');
    forall j ensures Erased(log, now, j, item.id) <==> Erased(log, applied, j, item.id) {
      if 0 <= j < |log| && log[j].id == log[k].id { IdAt(log, j, k); }
    }
    forall name ensures RegisterOk(log, now, item.id, attrs, name) {
      if name == op.name {
        RegisterWrite(log, applied, k, item.id, item.attrs, name);
      } else {
        RegisterElse(log, applied, k, item.id, item.attrs, name);
        RegisterFrame(log, now, item.id, item.attrs, attrs, name);
      }
    }
  }

  /** No applied operation targets an item that is not there. */
  lemma Untouched(log: seq<Operation>, d: Doc, j: int, id: OpId)
    requires Supported(log, d) && IndexOf(d, id) < 0
    requires 0 <= j < |log| && log[j].id in d.applied && !log[j].Insert?
    ensures log[j].target != Some(id)
  {
  }

  lemma ItemFresh(log: seq<Operation>, d: Doc, k: int)
    requires UniqueIds(log) && Supported(log, d) && 0 <= k < |log| && log[k].Insert? && IndexOf(d, log[k].id) < 0
    requires log[k].id !in d.applied
    ensures ItemOk(log, d.applied + {log[k].id}, ItemOf(log[k]))
  {
    var now, op, item := d.applied + {log[k].id}, log[k], ItemOf(log[k]);
    assert Content(log, k, item);
    forall j ensures !Erased(log, now, j, op.id) {
      if Erased(log, now, j, op.id) { Untouched(log, d, j, op.id); }
    }
    forall name ensures RegisterOk(log, now, op.id, item.attrs, name) {
      InitialExact(op.attrs, op.lamport, op.id.replica, name);
      forall j ensures Wrote(log, now, j, op.id, name) ==> j == k {
        if Wrote(log, now, j, op.id, name) && j != k {
          if log[j].Insert? { IdAt(log, j, k); } else { Untouched(log, d, j, op.id); }
        }
      }
      if name in item.attrs {
        assert Wins(log, now, k, op.id, name, item.attrs[name]);
      }
    }
  }

  // --------------------------------------------------------------------- stream

  lemma IndexAfterInsert(d: Doc, op: Operation, id: OpId)
    requires op.Insert?
    ensures IndexOf(InsertItem(d, op), id) >= 0 <==> IndexOf(d, id) >= 0 || id == op.id
  {
    var d' := InsertItem(d, op);
    var k := Boundary(Skel(d.stream), NodeOfOp(op)) + 1;
    assert d'.stream[k].id == op.id;
    if IndexOf(d, id) >= 0 {
      var i := IndexOf(d, id);
      assert d'.stream[if i < k then i else i + 1].id == id;
    }
    if IndexOf(d', id) >= 0 && id != op.id {
      var i := IndexOf(d', id);
      assert d.stream[if i < k then i else i - 1].id == id;
    }
  }

  /** Presence, and with it readiness, survives an insertion. */
  lemma ReadyAfterInsert(d: Doc, op: Operation, other: Operation)
    requires op.Insert? && Ready(d, other)
    ensures Ready(InsertItem(d, op), other)
  {
    match other
    case Insert(_, _, left, right, _, _, _) =>
      if left.Some? { IndexAfterInsert(d, op, left.value); }
      if right.Some? { IndexAfterInsert(d, op, right.value); }
    case Delete(_, _, target) => IndexAfterInsert(d, op, target.value);
    case SetAttr(_, _, target, _, _) => IndexAfterInsert(d, op, target.value);
  }

  /** An issued insert goes where the observer has it. */
  lemma InsertPlaced(log: seq<Operation>, d: Doc, k: int)
    requires CanonHolds(log) && Tree(Canon(log)) && Strict(Canon(log)) && Ordered(log, d)
    requires 0 <= k < |log| && log[k].Insert? && IndexOf(d, log[k].id) < 0 && Ready(d, log[k])
    ensures var s := Skel(InsertItem(d, log[k]).stream);
            Closed(s) && exists m :: Part(s, Canon(log), m)
  {
    var g, t, n := Canon(log), Skel(d.stream), NodeOfOp(log[k]);
    assert n in g;
    var x :| 0 <= x < |g| && g[x] == n;
    var m :| Part(t, g, m);
    forall i | 0 <= i < |m| ensures m[i] != x {
      assert d.stream[i].id != n.id;
      assert t[i] == g[m[i]];
    }
    var m' := PlaceStrict(t, g, m, x);
  }

  lemma PlaceStrict(t: seq<Node>, g: seq<Node>, m: seq<int>, x: int) returns (m': seq<int>)
    requires Tree(g) && Strict(g) && Part(t, g, m) && Closed(t)
    requires 0 <= x < |g| && Has(t, g[x].left) && Has(t, g[x].right)
    requires forall i :: 0 <= i < |m| ==> m[i] != x
    ensures Part(Integrate(t, g[x]), g, m') && Closed(Integrate(t, g[x]))
  {
    StrictIsSorted(g);
    forall i | 0 <= i < |m| && P.Rivals(ShapeOf(g), m[i], x) ensures ShapeOf(g).rep[m[i]] < ShapeOf(g).rep[x] {
      assert Rivals(g, m[i], x);
    }
    var p := Project(t, g, m, x);
    m' := InsertAt(m, p, x);
  }

  lemma PresenceInsert(log: seq<Operation>, d: Doc, k: int, j: int)
    requires Ordered(log, d) && UniqueIds(log) && 0 <= k < |log| && log[k].Insert? && 0 <= j < |log| && log[j].Insert?
    ensures var d' := Note(InsertItem(d, log[k]), log[k]);
            log[j].id in d'.applied <==> IndexOf(d', log[j].id) >= 0
  {
    IndexAfterInsert(d, log[k], log[j].id);
    SameIndex(InsertItem(d, log[k]), Note(InsertItem(d, log[k]), log[k]), log[j].id);
    hide InsertItem, IndexOf, Part, Closed, Canon;
  }

  lemma OrderedInsert(log: seq<Operation>, d: Doc, k: int)
    requires CanonHolds(log) && Tree(Canon(log)) && Strict(Canon(log)) && Ordered(log, d) && UniqueIds(log)
    requires 0 <= k < |log| && log[k].Insert? && IndexOf(d, log[k].id) < 0 && Ready(d, log[k])
    ensures Ordered(log, Note(InsertItem(d, log[k]), log[k]))
  {
    hide InsertItem, CanonHolds, Tree, Strict, UniqueIds, Part, Closed, IndexOf, Ready, Canon, Note, Skel;
    InsertPlaced(log, d, k);
    var d' := Note(InsertItem(d, log[k]), log[k]);
    forall j | 0 <= j < |log| && log[j].Insert? ensures log[j].id in d'.applied <==> IndexOf(d', log[j].id) >= 0 {
      PresenceInsert(log, d, k, j);
    }
    NoteStream(InsertItem(d, log[k]), log[k]);
  }

  lemma NoteStream(d: Doc, op: Operation)
    ensures Note(d, op).stream == d.stream
  {
  }

  /** An update in place of one item's mutable part leaves the order alone. */
  lemma OrderedUpdate(log: seq<Operation>, d: Doc, k: int, i: int, item: Item)
    requires Ordered(log, d) && UniqueIds(log) && 0 <= k < |log| && !log[k].Insert?
    requires 0 <= i < |d.stream| && NodeOf(item) == NodeOf(d.stream[i])
    ensures Ordered(log, Note(d.(stream := d.stream[i := item]), log[k]))
    ensures Skel(d.stream[i := item]) == Skel(d.stream)
  {
    assert Skel(d.stream[i := item]) == Skel(d.stream);
    forall j | 0 <= j < |log| && log[j].id == log[k].id ensures j == k {
      IdAt(log, j, k);
    }
  }

  // --------------------------------------------------------- one integration step

  lemma KnownStep(log: seq<Operation>, applied: set<OpId>, k: int)
    requires Known(log, applied) && 0 <= k < |log|
    ensures Known(log, applied + {log[k].id})
  {
    assert InHistory(log, log[k].id);
  }

  lemma ClockStep(log: seq<Operation>, d: Doc, d1: Doc, k: int)
    requires UniqueIds(log) && ClockAbove(log, d) && 0 <= k < |log|
    requires d1.applied == d.applied && d1.lamport == d.lamport
    ensures ClockAbove(log, Note(d1, log[k]))
  {
    forall j | 0 <= j < |log| && log[j].id == log[k].id ensures j == k {
      IdAt(log, j, k);
    }
  }

  lemma ItemsInsert(log: seq<Operation>, d: Doc, k: int)
    requires UniqueIds(log) && Supported(log, d) && ItemsOk(log, d)
    requires 0 <= k < |log| && log[k].Insert? && IndexOf(d, log[k].id) < 0 && log[k].id !in d.applied
    ensures ItemsOk(log, Note(InsertItem(d, log[k]), log[k]))
  {
    var d' := Note(InsertItem(d, log[k]), log[k]);
    var at := Boundary(Skel(d.stream), NodeOfOp(log[k])) + 1;
    forall i | 0 <= i < |d'.stream| ensures ItemOk(log, d'.applied, d'.stream[i]) {
      if i == at {
        ItemFresh(log, d, k);
      } else {
        ItemElse(log, d.applied, k, d.stream[if i < at then i else i - 1]);
      }
    }
  }

  lemma SupportedInsert(log: seq<Operation>, d: Doc, k: int)
    requires UniqueIds(log) && Supported(log, d)
    requires 0 <= k < |log| && log[k].Insert? && Ready(d, log[k])
    ensures Supported(log, Note(InsertItem(d, log[k]), log[k]))
  {
    var d1 := InsertItem(d, log[k]);
    forall j | 0 <= j < |log| && log[j].id in d.applied + {log[k].id} ensures Ready(Note(d1, log[k]), log[j]) {
      if log[j].id == log[k].id { IdAt(log, j, k); }
      ReadyAfterInsert(d, log[k], log[j]);
      ReadySame(d1, Note(d1, log[k]), log[j]);
    }
  }

  lemma SupportedSame(log: seq<Operation>, d: Doc, d': Doc, k: int)
    requires UniqueIds(log) && Supported(log, d) && 0 <= k < |log| && Ready(d, log[k])
    requires Skel(d.stream) == Skel(d'.stream) && d'.applied == d.applied + {log[k].id}
    ensures Supported(log, d')
  {
    forall j | 0 <= j < |log| && log[j].id in d'.applied ensures Ready(d', log[j]) {
      if log[j].id == log[k].id { IdAt(log, j, k); }
      ReadySame(d, d', log[j]);
    }
  }

  lemma StepInsert(reg: Registry, log: seq<Operation>, d: Doc, k: int)
    requires LogOk(reg, log) && CoreOk(log, d) && 0 <= k < |log| && log[k].Insert?
    requires log[k].id !in d.applied && Ready(d, log[k])
    ensures EffectOf(reg, d, log[k]) == (Note(InsertItem(d, log[k]), log[k]), Integrated)
    ensures CoreOk(log, Note(InsertItem(d, log[k]), log[k]))
  {
    assert LegalAt(reg, log, k);
    KnownStep(log, d.applied, k);
    OrderedInsert(log, d, k);
    ItemsInsert(log, d, k);
    SupportedInsert(log, d, k);
    ClockStep(log, d, InsertItem(d, log[k]), k);
    C.NoteExact(d.summary, d.applied, log[k].id);
  }

  /** The document after a delete, with its target at position `i`. */
  function Tombstoned(d: Doc, i: int): Doc
    requires 0 <= i < |d.stream|
  {
    d.(stream := d.stream[i := d.stream[i].(tombstoned := true)])
  }

  lemma ItemsDelete(log: seq<Operation>, d: Doc, k: int, i: int)
    requires UniqueIds(log) && ItemsOk(log, d) && Unique(Skel(d.stream))
    requires 0 <= k < |log| && log[k].Delete? && 0 <= i < |d.stream| && log[k].target == Some(d.stream[i].id)
    ensures ItemsOk(log, Note(Tombstoned(d, i), log[k]))
  {
    var d' := Note(Tombstoned(d, i), log[k]);
    var s := Skel(d.stream);
    forall j | 0 <= j < |d.stream| ensures ItemOk(log, d'.applied, d'.stream[j]) {
      if j == i {
        ItemErased(log, d.applied, k, d.stream[i]);
      } else {
        assert s[i].id != s[j].id;
        ItemElse(log, d.applied, k, d.stream[j]);
      }
    }
  }

  lemma UniqueStream(log: seq<Operation>, d: Doc)
    requires Tree(Canon(log)) && Ordered(log, d)
    ensures Unique(Skel(d.stream)) && Tree(Skel(d.stream))
  {
    var m :| Part(Skel(d.stream), Canon(log), m);
    PartTree(Skel(d.stream), Canon(log), m);
  }

  lemma StepDelete(reg: Registry, log: seq<Operation>, d: Doc, k: int)
    requires LogOk(reg, log) && CoreOk(log, d) && 0 <= k < |log| && log[k].Delete?
    requires log[k].id !in d.applied && Ready(d, log[k])
    ensures EffectOf(reg, d, log[k]).1 == Integrated
    ensures CoreOk(log, EffectOf(reg, d, log[k]).0)
  {
    var i := IndexOf(d, log[k].target.value);
    var d' := Note(Tombstoned(d, i), log[k]);
    UniqueStream(log, d);
    KnownStep(log, d.applied, k);
    OrderedUpdate(log, d, k, i, d.stream[i].(tombstoned := true));
    ItemsDelete(log, d, k, i);
    SupportedSame(log, d, d', k);
    ClockStep(log, d, Tombstoned(d, i), k);
    C.NoteExact(d.summary, d.applied, log[k].id);
  }

  /** The document after an attribute write, with its target at position `i`. */
  function Written(d: Doc, i: int, op: Operation): Doc
    requires 0 <= i < |d.stream| && op.SetAttr?
  {
    var attrs := ApplyRegister(d.stream[i].attrs, op.name, op.value, op.lamport, op.id.replica);
    d.(stream := d.stream[i := d.stream[i].(attrs := attrs)])
  }

  lemma ItemsSetAttr(log: seq<Operation>, d: Doc, k: int, i: int)
    requires UniqueIds(log) && ItemsOk(log, d) && Unique(Skel(d.stream))
    requires 0 <= k < |log| && log[k].SetAttr? && 0 <= i < |d.stream| && log[k].target == Some(d.stream[i].id)
    ensures ItemsOk(log, Note(Written(d, i, log[k]), log[k]))
  {
    var d' := Note(Written(d, i, log[k]), log[k]);
    var s := Skel(d.stream);
    forall j | 0 <= j < |d.stream| ensures ItemOk(log, d'.applied, d'.stream[j]) {
      if j == i {
        ItemWritten(log, d.applied, k, d.stream[i]);
      } else {
        assert s[i].id != s[j].id;
        ItemElse(log, d.applied, k, d.stream[j]);
      }
    }
  }

  /** An issued write is admitted by the kind of its target wherever it arrives. */
  lemma WriteAllowed(reg: Registry, log: seq<Operation>, d: Doc, k: int, i: int)
    requires Legal(reg, log) && ItemsOk(log, d)
    requires 0 <= k < |log| && log[k].SetAttr? && 0 <= i < |d.stream| && log[k].target == Some(d.stream[i].id)
    ensures reg.Allows(d.stream[i].kind, log[k].name, log[k].value)
  {
    assert LegalAt(reg, log, k);
    var c :| Content(log, c, d.stream[i]);
  }

  lemma StepSetAttr(reg: Registry, log: seq<Operation>, d: Doc, k: int)
    requires LogOk(reg, log) && CoreOk(log, d) && 0 <= k < |log| && log[k].SetAttr?
    requires log[k].id !in d.applied && Ready(d, log[k])
    ensures EffectOf(reg, d, log[k]).1 == Integrated
    ensures CoreOk(log, EffectOf(reg, d, log[k]).0)
  {
    var i := IndexOf(d, log[k].target.value);
    var d' := Note(Written(d, i, log[k]), log[k]);
    UniqueStream(log, d);
    WriteAllowed(reg, log, d, k, i);
    KnownStep(log, d.applied, k);
    OrderedUpdate(log, d, k, i, Written(d, i, log[k]).stream[i]);
    ItemsSetAttr(log, d, k, i);
    SupportedSame(log, d, d', k);
    ClockStep(log, d, Written(d, i, log[k]), k);
    C.NoteExact(d.summary, d.applied, log[k].id);
  }
}
