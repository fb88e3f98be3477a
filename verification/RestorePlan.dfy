/** The restore batch in closed form, and its effect: which operations turn the
    visible content of one document into another's (cpp/worker/main.cpp). */
module RestorePlan {
  import opened Types
  import opened Order
  import opened State
  import opened Visible
  import opened LiveList
  import opened Names
  import opened Folding
  import H = History
  import D = Delivery
  import Counters

  // "REST": the identity band of restore operations.
  const RESTORE_REPLICA: nat := 0x52455354

  /** The identity counter and the lamport clock, advanced together. */
  datatype Stamp = Stamp(counter: nat, lamport: nat)

  function After(t: Stamp, n: nat): Stamp {
    Stamp(t.counter + n, t.lamport + n)
  }

  function IdOf(t: Stamp): OpId {
    OpId(RESTORE_REPLICA, t.counter)
  }

  // ------------------------------------------------------------------ the batch

  /** Live items of the current document that the target does not show. */
  function Deletes(s: seq<Item>, keep: set<OpId>, t: Stamp): seq<Operation> {
    if |s| == 0 then []
    else
      var x, ops := s[|s| - 1], Deletes(s[..|s| - 1], keep, t);
      if x.tombstoned || x.id in keep then ops
      else ops + [Delete(IdOf(After(t, |ops| + 1)), t.lamport + |ops| + 1, Some(x.id))]
  }

  /** How many of the first `j` target items have to be created again. */
  function Missing(target: seq<Item>, kept: set<OpId>, j: nat): (n: nat)
    requires j <= |target|
    ensures n <= j
  {
    if j == 0 then 0 else Missing(target, kept, j - 1) + (if target[j - 1].id in kept then 0 else 1)
  }

  /** The identity under which target item `j` stands in the restored document. */
  function NewId(target: seq<Item>, kept: set<OpId>, t: Stamp, j: nat): OpId
    requires j < |target|
  {
    if target[j].id in kept then target[j].id else IdOf(After(t, Missing(target, kept, j) + 1))
  }

  /** The next target item from `j` on that the current document already shows. */
  function NextKept(target: seq<Item>, kept: set<OpId>, j: nat): Option<OpId>
    requires j <= |target|
    decreases |target| - j
  {
    if j == |target| then None
    else if target[j].id in kept then Some(target[j].id)
    else NextKept(target, kept, j + 1)
  }

  function InitialFrom(attrs: AttrMap, names: seq<Bytes>): seq<InitialAttr>
    requires forall i :: 0 <= i < |names| ==> names[i] in attrs
  {
    seq(|names|, i requires 0 <= i < |names| => InitialAttr(names[i], attrs[names[i]].value))
  }

  /** All registers of an item as initial attributes, in name order. */
  function InitialAttrs(attrs: AttrMap): seq<InitialAttr> {
    var names := SortedNames(attrs.Keys);
    assert forall i :: 0 <= i < |names| ==> names[i] in names;
    InitialFrom(attrs, names)
  }

  /** Every register is carried, once and by name, a cleared one as cleared. */
  lemma InitialAttrsExact(attrs: AttrMap)
    ensures var initial := InitialAttrs(attrs);
            && |initial| == |attrs|
            && (forall i, j :: 0 <= i < j < |initial| ==> initial[i].name != initial[j].name)
            && forall name, value ::
                 InitialAttr(name, value) in initial <==> name in attrs && attrs[name].value == value
  {
    var names, initial := SortedNames(attrs.Keys), InitialAttrs(attrs);
    SortedNamesDistinct(names);
    forall name, value | name in attrs && attrs[name].value == value ensures InitialAttr(name, value) in initial {
      assert name in names;
      var i :| 0 <= i < |names| && names[i] == name;
      assert initial[i] == InitialAttr(name, value);
    }
    assert forall i :: 0 <= i < |names| ==> names[i] in names;
  }

  lemma SortedNamesDistinct(names: seq<Bytes>)
    requires Ascending(names)
    ensures forall i, j :: 0 <= i < j < |names| ==> names[i] != names[j]
  {
    hide Less;
    forall i, j | 0 <= i < j < |names| ensures names[i] != names[j] {
      assert Less(names[i], names[j]);
      LessAntisymmetric(names[i], names[j]);
    }
  }

  /** A re-inserted item has exactly the registers of the target item, cleared ones
      included, all with the stamp of the insert. */
  lemma InsertCarries(y: Item, op: Operation)
    requires op.Insert? && op.attrs == InitialAttrs(y.attrs)
    ensures ItemOf(op).attrs == map name | name in y.attrs :: Register(y.attrs[name].value, op.lamport, op.id.replica)
  {
    hide InitialAttrs;
    InitialAttrsExact(y.attrs);
    var attrs := ItemOf(op).attrs;
    forall name
      ensures name in attrs <==> name in y.attrs
      ensures name in attrs ==> attrs[name] == Register(y.attrs[name].value, op.lamport, op.id.replica)
    {
      D.InitialExact(op.attrs, op.lamport, op.id.replica, name);
      FirstFound(op.attrs, name);
      if name in y.attrs { assert InitialAttr(name, y.attrs[name].value) in op.attrs; }
    }
  }

  lemma {:induction false} FirstFound(initial: seq<InitialAttr>, name: Bytes)
    ensures H.FirstInitial(initial, name).Some? ==> InitialAttr(name, H.FirstInitial(initial, name).value) in initial
    ensures H.FirstInitial(initial, name).None? ==> forall value :: InitialAttr(name, value) !in initial
  {
    if |initial| > 0 {
      var n := |initial| - 1;
      FirstFound(initial[..n], name);
      assert initial == initial[..n] + [initial[n]];
    }
  }

  function InsertOf(target: seq<Item>, kept: set<OpId>, t: Stamp, j: nat): Operation
    requires j < |target|
  {
    var n := Missing(target, kept, j) + 1;
    Insert(IdOf(After(t, n)), t.lamport + n,
           if j == 0 then None else Some(NewId(target, kept, t, j - 1)),
           NextKept(target, kept, j + 1),
           target[j].kind, target[j].scalar, InitialAttrs(target[j].attrs))
  }

  /** Inserts for the missing ones among the first `j` target items. */
  function Inserts(target: seq<Item>, kept: set<OpId>, t: Stamp, j: nat): (ops: seq<Operation>)
    requires j <= |target|
    ensures |ops| == Missing(target, kept, j)
  {
    if j == 0 then []
    else
      var ops := Inserts(target, kept, t, j - 1);
      if target[j - 1].id in kept then ops else ops + [InsertOf(target, kept, t, j - 1)]
  }

  function ValueIn(attrs: AttrMap, name: Bytes): Option<Bytes> {
    if name in attrs then attrs[name].value else None
  }

  /** Writes giving the named registers of `x` the values they have in `y`. */
  function Writes(x: AttrMap, y: AttrMap, id: OpId, names: seq<Bytes>, t: Stamp): seq<Operation> {
    if |names| == 0 then []
    else
      var name, ops := names[|names| - 1], Writes(x, y, id, names[..|names| - 1], t);
      if ValueIn(x, name) == ValueIn(y, name) then ops
      else ops + [SetAttr(IdOf(After(t, |ops| + 1)), t.lamport + |ops| + 1, Some(id), name, ValueIn(y, name))]
  }

  function ItemWithId(items: seq<Item>, id: OpId): Option<Item> {
    if |items| == 0 then None
    else if items[0].id == id then Some(items[0])
    else ItemWithId(items[1..], id)
  }

  function WritesFor(x: AttrMap, y: AttrMap, id: OpId, t: Stamp): seq<Operation> {
    Writes(x, y, id, SortedNames(x.Keys + y.Keys), t)
  }

  /** Writes for the kept ones among the first `j` target items. */
  function Syncs(current: seq<Item>, target: seq<Item>, kept: set<OpId>, t: Stamp, j: nat): seq<Operation>
    requires j <= |target|
  {
    if j == 0 then []
    else
      var y, ops := target[j - 1], Syncs(current, target, kept, t, j - 1);
      var x := ItemWithId(current, y.id);
      if y.id !in kept || x.None? then ops
      else ops + WritesFor(x.value.attrs, y.attrs, y.id, After(t, |ops|))
  }

  function IdsOf(items: seq<Item>): set<OpId> {
    set i | 0 <= i < |items| :: items[i].id
  }

  /** The whole batch: deletes, then inserts, then attribute writes. */
  function Batch(a: seq<Item>, b: seq<Item>, t: Stamp): seq<Operation> {
    var current, target := LiveItems(a), LiveItems(b);
    var kept := IdsOf(current) * IdsOf(target);
    var deletes := Deletes(a, IdsOf(target), t);
    var t1 := After(t, |deletes|);
    var inserts := Inserts(target, kept, t1, |target|);
    var t2 := After(t1, |inserts|);
    deletes + inserts + Syncs(current, target, kept, t2, |target|)
  }

  // ------------------------------------------------------- single stamped steps

  /** The named item is absent, and no batch after `t` will bring it. */
  predicate Missed(d: Doc, t: Stamp, a: Option<OpId>) {
    && a.Some? && IndexOf(d, a.value) < 0
    && !(a.value.replica == RESTORE_REPLICA && a.value.counter > t.counter)
  }

  /** A buffered operation that goes on waiting whatever a batch after `t` does. */
  predicate Waits(d: Doc, t: Stamp, op: Operation) {
    match op
    case Insert(_, _, left, right, _, _, _) => Missed(d, t, left) || Missed(d, t, right)
    case Delete(_, _, target) => target.None? || Missed(d, t, target)
    case SetAttr(_, _, target, _, _) => target.None? || Missed(d, t, target)
  }

  ghost predicate AllWait(d: Doc, t: Stamp) {
    forall i :: 0 <= i < |d.pending| ==> Waits(d, t, d.pending[i])
  }

  lemma WaitsNotReady(d: Doc, t: Stamp, op: Operation)
    requires Waits(d, t, op)
    ensures !Ready(d, op)
  {
  }

  /** Waiting goes on where no item arrives but one with the next identity. */
  lemma WaitsOn(d: Doc, t: Stamp, d': Doc, op: Operation)
    requires Waits(d, t, op)
    requires forall id :: IndexOf(d', id) >= 0 ==> IndexOf(d, id) >= 0 || id == IdOf(After(t, 1))
    ensures Waits(d', After(t, 1), op)
  {
    hide IndexOf;
  }

  lemma AllWaitOn(d: Doc, t: Stamp, d': Doc)
    requires AllWait(d, t) && d'.pending == d.pending
    requires forall id :: IndexOf(d', id) >= 0 ==> IndexOf(d, id) >= 0 || id == IdOf(After(t, 1))
    ensures AllWait(d', After(t, 1)) && H.Settled(d')
  {
    hide Waits, Ready, IndexOf;
    forall i | 0 <= i < |d'.pending| ensures Waits(d', After(t, 1), d'.pending[i]) && !Ready(d', d'.pending[i]) {
      WaitsOn(d, t, d', d.pending[i]);
      WaitsNotReady(d', After(t, 1), d.pending[i]);
    }
  }

  lemma SameArrivals(d: Doc, d': Doc)
    requires Skel(d'.stream) == Skel(d.stream)
    ensures forall id :: IndexOf(d', id) >= 0 ==> IndexOf(d, id) >= 0
  {
  }

  lemma OneArrival(d: Doc, op: Operation)
    requires op.Insert?
    ensures forall id :: IndexOf(Note(InsertItem(d, op), op), id) >= 0 ==> IndexOf(d, id) >= 0 || id == op.id
  {
    hide Boundary, ItemOf, Find, Counters.Note;
    var d' := Note(InsertItem(d, op), op);
    var k := Boundary(Skel(d.stream), NodeOfOp(op)) + 1;
    assert d'.stream == InsertAt(d.stream, k, ItemOf(op));
    assert ItemOf(op).id == op.id by { ItemOfId(op); }
    forall id | IndexOf(d', id) >= 0 ensures IndexOf(d, id) >= 0 || id == op.id {
      var i := IndexOf(d', id);
      if i != k {
        assert d'.stream[i] == d.stream[if i < k then i else i - 1];
      }
    }
  }

  lemma ItemOfId(op: Operation)
    requires op.Insert?
    ensures ItemOf(op).id == op.id
  {
  }

  /** A document ready for the operation stamped next: no identity of the restore
      band beyond the stamp, no register above its clock. */
  ghost predicate Good(d: Doc, t: Stamp) {
    && Plain(d) && AllWait(d, t)
    && (forall id :: id in d.applied && id.replica == RESTORE_REPLICA ==> id.counter <= t.counter)
    && (forall i :: 0 <= i < |d.stream| && d.stream[i].id.replica == RESTORE_REPLICA ==>
          d.stream[i].id.counter <= t.counter)
    && (forall i :: 0 <= i < |d.stream| ==> RegistersBelow(d.stream[i].attrs, t.lamport))
  }

  ghost predicate RegistersBelow(attrs: AttrMap, clock: nat) {
    forall name :: name in attrs ==> attrs[name].lamport <= clock
  }

  lemma GoodDelete(reg: Registry, d: Doc, t: Stamp, p: int, op: Operation) returns (d': Doc)
    requires Good(d, t) && 0 <= p < |d.stream|
    requires op == Delete(IdOf(After(t, 1)), t.lamport + 1, Some(d.stream[p].id))
    ensures ApplyRemote(reg, d, op) == (d', Ok(true)) && Good(d', After(t, 1))
    ensures d'.stream == d.stream[p := d.stream[p].(tombstoned := true)] && d'.pending == d.pending
  {
    hide ApplyRemote, Ready, Waits, AllWait, H.Settled;
    d' := DeleteAt(reg, d, p, op);
    assert Skel(d'.stream) == Skel(d.stream);
    SameArrivals(d, d');
    AllWaitOn(d, t, d');
  }

  lemma FreshRegisters(op: Operation)
    requires op.Insert?
    ensures RegistersBelow(ItemOf(op).attrs, op.lamport)
  {
    forall name | name in ItemOf(op).attrs ensures ItemOf(op).attrs[name].lamport <= op.lamport {
      D.InitialExact(op.attrs, op.lamport, op.id.replica, name);
    }
  }

  lemma GoodAfterInsert(d: Doc, t: Stamp, op: Operation, d': Doc)
    requires Good(d, t) && op.Insert? && op.id == IdOf(After(t, 1)) && op.lamport == t.lamport + 1
    requires Plain(d') && AllWait(d', After(t, 1)) && d' == Note(InsertItem(d, op), op)
    ensures Good(d', After(t, 1))
  {
    hide ApplyRemote, ItemOf, Boundary, Plain, Counters.Note, AllWait;
    FreshRegisters(op);
    var k := Boundary(Skel(d.stream), NodeOfOp(op)) + 1;
    assert d'.stream == InsertAt(d.stream, k, ItemOf(op));
    assert ItemOf(op).id == op.id;
    forall i | 0 <= i < |d'.stream|
      ensures d'.stream[i].id.replica == RESTORE_REPLICA ==> d'.stream[i].id.counter <= t.counter + 1
      ensures RegistersBelow(d'.stream[i].attrs, t.lamport + 1)
    {
      if i != k {
        var x := d.stream[if i < k then i else i - 1];
        assert d'.stream[i] == x && RegistersBelow(x.attrs, t.lamport);
      }
    }
  }

  lemma GoodInsert(reg: Registry, d: Doc, t: Stamp, j: int, op: Operation) returns (d': Doc)
    requires Good(d, t) && op.Insert? && op.id == IdOf(After(t, 1)) && op.lamport == t.lamport + 1
    requires CheckInsert(reg, op).None? && 0 <= j <= |LiveItems(d.stream)|
    requires op.left == LeftId(LiveItems(d.stream), j) && op.right == RightId(LiveItems(d.stream), j)
    ensures ApplyRemote(reg, d, op) == (d', Ok(true)) && Good(d', After(t, 1))
    ensures LiveItems(d'.stream) == LiveItems(d.stream)[..j] + [ItemOf(op)] + LiveItems(d.stream)[j..]
    ensures d'.pending == d.pending
  {
    hide ApplyRemote, LiveItems, CheckInsert, Boundary, ItemOf, LeftId, RightId, Waits, AllWait, H.Settled;
    OneArrival(d, op);
    AllWaitOn(d, t, Note(InsertItem(d, op), op));
    d' := InsertBetween(reg, d, j, op);
    GoodAfterInsert(d, t, op, d');
  }

  lemma GoodWrite(reg: Registry, d: Doc, t: Stamp, j: int, op: Operation) returns (d': Doc)
    requires Good(d, t) && 0 <= j < |LiveItems(d.stream)|
    requires op.SetAttr? && op.id == IdOf(After(t, 1)) && op.lamport == t.lamport + 1
    requires var x := LiveItems(d.stream)[j]; op.target == Some(x.id) && reg.Allows(x.kind, op.name, op.value)
    ensures ApplyRemote(reg, d, op) == (d', Ok(true)) && Good(d', After(t, 1))
    ensures var x := LiveItems(d.stream)[j];
            LiveItems(d'.stream) == LiveItems(d.stream)[j :=
              x.(attrs := x.attrs[op.name := Register(op.value, op.lamport, op.id.replica)])]
    ensures d'.pending == d.pending
  {
    hide ApplyRemote, LiveItems, Waits, AllWait, H.Settled;
    var p := PositionOf(d.stream, j);
    assert RegistersBelow(d.stream[p].attrs, t.lamport);
    d' := WriteAt(reg, d, j, op);
    SameArrivals(d, d');
    AllWaitOn(d, t, d');
    forall i | 0 <= i < |d'.stream| ensures d'.stream[i].id == d.stream[i].id {
      assert Skel(d'.stream)[i] == Skel(d.stream)[i];
    }
  }

  // ----------------------------------------------------------- folding the deletes

  function Within(items: seq<Item>, ids: set<OpId>): seq<Item> {
    if |items| == 0 then []
    else
      var x := items[|items| - 1];
      Within(items[..|items| - 1], ids) + (if x.id in ids then [x] else [])
  }

  /** The stream with those of its first `i` items tombstoned that are not kept. */
  function Buried(s: seq<Item>, i: nat, keep: set<OpId>): (r: seq<Item>)
    ensures |r| == |s|
  {
    seq(|s|, k requires 0 <= k < |s| =>
      if k < i && s[k].id !in keep then s[k].(tombstoned := true) else s[k])
  }

  lemma {:induction false} BuriedLives(s: seq<Item>, keep: set<OpId>)
    ensures LiveItems(Buried(s, |s|, keep)) == Within(LiveItems(s), keep)
  {
    if |s| > 0 {
      var n := |s| - 1;
      BuriedLives(s[..n], keep);
      assert Buried(s, |s|, keep)[..n] == Buried(s[..n], n, keep);
      var lives := LiveItems(s[..n]);
      if !s[n].tombstoned {
        assert (lives + [s[n]])[..|lives|] == lives;
      } else {
        assert lives + [] == lives;
      }
    }
  }

  lemma DeletesUpTo(s: seq<Item>, keep: set<OpId>, t: Stamp, i: int)
    requires 0 <= i <= |s|
    ensures i == 0 ==> Deletes(s[..i], keep, t) == []
    ensures i > 0 ==>
              var ops, x := Deletes(s[..i - 1], keep, t), s[i - 1];
              Deletes(s[..i], keep, t) ==
              if x.tombstoned || x.id in keep then ops
              else ops + [Delete(IdOf(After(t, |ops| + 1)), t.lamport + |ops| + 1, Some(x.id))]
  {
    if i > 0 { assert s[..i][..i - 1] == s[..i - 1]; }
  }

  lemma {:induction false} DeletesFold(reg: Registry, a: Doc, keep: set<OpId>, t: Stamp, i: int) returns (d: Doc)
    requires Good(a, t) && 0 <= i <= |a.stream|
    ensures Fold(reg, a, Deletes(a.stream[..i], keep, t)).1.Ok?
    ensures Fold(reg, a, Deletes(a.stream[..i], keep, t)).0 == d
    ensures Good(d, After(t, |Deletes(a.stream[..i], keep, t)|))
    ensures d.stream == Buried(a.stream, i, keep) && d.pending == a.pending
    decreases i
  {
    hide ApplyRemote, Good, Fold, Deletes;
    DeletesUpTo(a.stream, keep, t, i);
    if i == 0 {
      d := a;
      FoldNone(reg, a);
      assert Buried(a.stream, 0, keep) == a.stream;
    } else {
      var d0 := DeletesFold(reg, a, keep, t, i - 1);
      var ops, x := Deletes(a.stream[..i - 1], keep, t), a.stream[i - 1];
      if x.tombstoned || x.id in keep {
        d := d0;
      } else {
        var op := Delete(IdOf(After(t, |ops| + 1)), t.lamport + |ops| + 1, Some(x.id));
        d := GoodDelete(reg, d0, After(t, |ops|), i - 1, op);
        FoldOne(reg, a, ops, op);
      }
      assert d.stream == Buried(a.stream, i, keep);
    }
  }

  // ----------------------------------------------------------- folding the inserts

  function KeptBefore(target: seq<Item>, kept: set<OpId>, j: nat): nat
    requires j <= |target|
  {
    j - Missing(target, kept, j)
  }

  /** The kept items of both documents are the same ones in the same order. */
  ghost predicate Aligned(q: seq<Item>, target: seq<Item>, kept: set<OpId>) {
    && |q| == KeptBefore(target, kept, |target|)
    && (forall i {:trigger target[i]} :: 0 <= i < |target| && target[i].id in kept ==>
          KeptBefore(target, kept, i) < |q| && q[KeptBefore(target, kept, i)].id == target[i].id)
  }

  lemma {:induction false} NextKeptIs(q: seq<Item>, target: seq<Item>, kept: set<OpId>, j: nat)
    requires Aligned(q, target, kept) && j <= |target|
    ensures KeptBefore(target, kept, j) <= |q|
    ensures NextKept(target, kept, j) ==
            if KeptBefore(target, kept, j) == |q| then None else Some(q[KeptBefore(target, kept, j)].id)
    decreases |target| - j
  {
    if j < |target| {
      NextKeptIs(q, target, kept, j + 1);
    }
  }

  /** A target item that a fresh insert can reproduce. */
  predicate Insertable(reg: Registry, y: Item) {
    && (if y.kind == Text then ValidScalar(y.scalar) else y.scalar == 0)
    && (forall name :: name in y.attrs ==> reg.Allows(y.kind, name, y.attrs[name].value))
  }

  lemma SetValuesEqual(x: AttrMap, y: AttrMap)
    requires forall name :: ValueIn(x, name) == ValueIn(y, name)
    ensures SetValues(x) == SetValues(y)
  {
    forall name ensures name in SetValues(x) <==> name in SetValues(y) {
      assert ValueIn(x, name) == ValueIn(y, name);
    }
    forall name | name in SetValues(x) ensures SetValues(x)[name] == SetValues(y)[name] {
      assert ValueIn(x, name) == ValueIn(y, name);
    }
  }

  lemma {:induction false} InitialFound(attrs: AttrMap, names: seq<Bytes>, name: Bytes)
    requires forall i :: 0 <= i < |names| ==> names[i] in attrs
    ensures H.FirstInitial(InitialFrom(attrs, names), name) ==
            if name in names then Some(attrs[name].value) else None
  {
    if |names| > 0 {
      var n := |names| - 1;
      InitialFound(attrs, names[..n], name);
      assert InitialFrom(attrs, names)[..n] == InitialFrom(attrs, names[..n]);
      assert name in names <==> name in names[..n] || name == names[n];
    }
  }

  lemma InsertShows(y: Item, op: Operation)
    requires y.kind == Delimiter ==> y.scalar == 0
    requires op.Insert? && op.kind == y.kind && op.scalar == y.scalar && op.attrs == InitialAttrs(y.attrs)
    ensures LiveOf(ItemOf(op)) == LiveOf(y)
  {
    var names := SortedNames(y.attrs.Keys);
    var made := ItemOf(op).attrs;
    forall name ensures ValueIn(made, name) == ValueIn(y.attrs, name) {
      InitialFound(y.attrs, names, name);
      D.InitialExact(op.attrs, op.lamport, op.id.replica, name);
    }
    SetValuesEqual(made, y.attrs);
  }

  lemma InsertAdmitted(reg: Registry, y: Item, op: Operation)
    requires Insertable(reg, y) && op.id.Valid()
    requires op.Insert? && op.kind == y.kind && op.scalar == y.scalar && op.attrs == InitialAttrs(y.attrs)
    ensures CheckInsert(reg, op).None?
  {
    var names := SortedNames(y.attrs.Keys);
    forall i | 0 <= i < |op.attrs| ensures reg.Allows(op.kind, op.attrs[i].name, op.attrs[i].value) {
      assert names[i] in names;
    }
  }

  /** The live items while the inserts are being applied: the first `j` target
      items stand, each under its new identity; the kept items follow. */
  ghost predicate Merged(live: seq<Item>, q: seq<Item>, target: seq<Item>, kept: set<OpId>, t: Stamp, j: nat)
    requires j <= |target|
  {
    var k := KeptBefore(target, kept, j);
    && k <= |q| && |live| == j + |q| - k
    && (forall i :: 0 <= i < j ==> Placed(live[i], q, target, kept, t, i))
    && live[j..] == q[k..]
  }

  ghost predicate Placed(x: Item, q: seq<Item>, target: seq<Item>, kept: set<OpId>, t: Stamp, i: nat)
    requires i < |target|
  {
    && x.id == NewId(target, kept, t, i)
    && (if target[i].id in kept then
          KeptBefore(target, kept, i) < |q| && x == q[KeptBefore(target, kept, i)]
        else LiveOf(x) == LiveOf(target[i]))
  }

  lemma MergedKept(live: seq<Item>, q: seq<Item>, target: seq<Item>, kept: set<OpId>, t: Stamp, j: nat)
    requires Aligned(q, target, kept) && j < |target| && target[j].id in kept
    requires Merged(live, q, target, kept, t, j)
    ensures Merged(live, q, target, kept, t, j + 1)
  {
    var k := KeptBefore(target, kept, j);
    assert live[j..][0] == q[k..][0];
    assert live[j..][1..] == live[j + 1..] && q[k..][1..] == q[k + 1..];
  }

  lemma MergedInsert(live: seq<Item>, q: seq<Item>, target: seq<Item>, kept: set<OpId>, t: Stamp, j: nat, x: Item)
    requires j < |target| && target[j].id !in kept
    requires Merged(live, q, target, kept, t, j) && Placed(x, q, target, kept, t, j)
    ensures j <= |live| && Merged(live[..j] + [x] + live[j..], q, target, kept, t, j + 1)
  {
    hide Placed;
    var live' := live[..j] + [x] + live[j..];
    forall i | 0 <= i < j + 1 ensures Placed(live'[i], q, target, kept, t, i) {
      if i < j { assert live'[i] == live[i]; }
    }
    assert live'[j + 1..] == live[j..];
  }

  lemma MergedAnchors(live: seq<Item>, q: seq<Item>, target: seq<Item>, kept: set<OpId>, t: Stamp, j: nat)
    requires Aligned(q, target, kept) && j < |target| && target[j].id !in kept
    requires Merged(live, q, target, kept, t, j)
    ensures j <= |live|
    ensures InsertOf(target, kept, t, j).left == LeftId(live, j)
    ensures InsertOf(target, kept, t, j).right == RightId(live, j)
  {
    NextKeptIs(q, target, kept, j + 1);
    if j > 0 { assert Placed(live[j - 1], q, target, kept, t, j - 1); }
    var k := KeptBefore(target, kept, j);
    if j < |live| { assert live[j..][0] == q[k..][0]; }
  }

  lemma {:induction false} InsertsFold(reg: Registry, d0: Doc, q: seq<Item>, target: seq<Item>, kept: set<OpId>,
                                       t: Stamp, j: nat) returns (d: Doc)
    requires Good(d0, t) && LiveItems(d0.stream) == q && Aligned(q, target, kept) && j <= |target|
    requires forall i :: 0 <= i < |target| ==> Insertable(reg, target[i])
    requires t.counter + Missing(target, kept, j) <= MAX_COUNTER
    ensures Fold(reg, d0, Inserts(target, kept, t, j)).1.Ok?
    ensures Fold(reg, d0, Inserts(target, kept, t, j)).0 == d
    ensures Good(d, After(t, Missing(target, kept, j)))
    ensures Merged(LiveItems(d.stream), q, target, kept, t, j) && d.pending == d0.pending
    decreases j
  {
    hide ApplyRemote, Good, Aligned, Merged, Insertable, InsertOf, LiveItems, KeptBefore, Fold;
    if j == 0 {
      d := d0;
      FoldNone(reg, d0);
      MergedStart(q, target, kept, t);
    } else {
      var e := InsertsFold(reg, d0, q, target, kept, t, j - 1);
      if target[j - 1].id in kept {
        d := e;
        MergedKept(LiveItems(d.stream), q, target, kept, t, j - 1);
      } else {
        d := InsertStep(reg, e, q, target, kept, t, j - 1);
        FoldOne(reg, d0, Inserts(target, kept, t, j - 1), InsertOf(target, kept, t, j - 1));
      }
    }
  }

  lemma MergedStart(q: seq<Item>, target: seq<Item>, kept: set<OpId>, t: Stamp)
    ensures Merged(q, q, target, kept, t, 0)
  {
  }

  lemma InsertStep(reg: Registry, e: Doc, q: seq<Item>, target: seq<Item>, kept: set<OpId>,
                   t: Stamp, j: nat) returns (d: Doc)
    requires j < |target| && target[j].id !in kept && Insertable(reg, target[j]) && Aligned(q, target, kept)
    requires t.counter + Missing(target, kept, j) + 1 <= MAX_COUNTER
    requires Good(e, After(t, Missing(target, kept, j))) && Merged(LiveItems(e.stream), q, target, kept, t, j)
    ensures ApplyRemote(reg, e, InsertOf(target, kept, t, j)) == (d, Ok(true))
    ensures Good(d, After(t, Missing(target, kept, j) + 1))
    ensures Merged(LiveItems(d.stream), q, target, kept, t, j + 1) && d.pending == e.pending
  {
    hide ApplyRemote, Good, Aligned, LiveItems, Merged, Insertable, CheckInsert, ItemOf, LiveOf, InitialAttrs, NextKept;
    var op, live := InsertOf(target, kept, t, j), LiveItems(e.stream);
    MergedAnchors(live, q, target, kept, t, j);
    InsertAdmitted(reg, target[j], op);
    d := GoodInsert(reg, e, After(t, Missing(target, kept, j)), j, op);
    InsertPlaced(reg, q, target, kept, t, j, op);
    MergedInsert(live, q, target, kept, t, j, ItemOf(op));
  }

  lemma InsertPlaced(reg: Registry, q: seq<Item>, target: seq<Item>, kept: set<OpId>, t: Stamp, j: nat, op: Operation)
    requires j < |target| && target[j].id !in kept && Insertable(reg, target[j])
    requires op == InsertOf(target, kept, t, j)
    ensures Placed(ItemOf(op), q, target, kept, t, j)
  {
    hide LiveOf, InitialAttrs, NextKept;
    InsertShows(target[j], op);
  }

  // ------------------------------------------------------ folding attribute writes

  /** `attrs` holds y's values for the given names and x's for all others. */
  ghost predicate Blend(attrs: AttrMap, x: AttrMap, y: AttrMap, names: seq<Bytes>) {
    forall name :: ValueIn(attrs, name) == if name in names then ValueIn(y, name) else ValueIn(x, name)
  }

  lemma BlendSkip(attrs: AttrMap, x: AttrMap, y: AttrMap, names: seq<Bytes>)
    requires |names| > 0 && Blend(attrs, x, y, names[..|names| - 1])
    requires ValueIn(x, names[|names| - 1]) == ValueIn(y, names[|names| - 1])
    ensures Blend(attrs, x, y, names)
  {
    var n := |names| - 1;
    assert names == names[..n] + [names[n]];
  }

  lemma BlendWrite(attrs: AttrMap, x: AttrMap, y: AttrMap, names: seq<Bytes>, lamport: nat, writer: nat)
    requires |names| > 0 && Blend(attrs, x, y, names[..|names| - 1])
    ensures Blend(attrs[names[|names| - 1] := Register(ValueIn(y, names[|names| - 1]), lamport, writer)], x, y, names)
  {
    var n := |names| - 1;
    assert names == names[..n] + [names[n]];
  }

  /** An item kept by the restore: both versions agree but for their registers,
      and each register may be given the target's value. */
  ghost predicate Agree(reg: Registry, x: Item, y: Item) {
    && x.id == y.id && x.kind == y.kind && x.scalar == y.scalar
    && (forall name :: name in x.attrs ==> reg.names(x.kind, name))
    && (forall name :: name in y.attrs ==> reg.Allows(y.kind, name, y.attrs[name].value))
  }

  lemma WriteAdmitted(reg: Registry, x: Item, y: Item, name: Bytes)
    requires Agree(reg, x, y) && ValueIn(x.attrs, name) != ValueIn(y.attrs, name)
    ensures reg.Allows(x.kind, name, ValueIn(y.attrs, name))
  {
  }

  lemma {:induction false} WritesFold(reg: Registry, d0: Doc, t: Stamp, j: int, x: Item, y: Item, names: seq<Bytes>)
      returns (d: Doc, attrs: AttrMap)
    requires Good(d0, t) && 0 <= j < |LiveItems(d0.stream)| && LiveItems(d0.stream)[j] == x && Agree(reg, x, y)
    ensures Fold(reg, d0, Writes(x.attrs, y.attrs, y.id, names, t)).1.Ok?
    ensures Fold(reg, d0, Writes(x.attrs, y.attrs, y.id, names, t)).0 == d
    ensures Good(d, After(t, |Writes(x.attrs, y.attrs, y.id, names, t)|))
    ensures Blend(attrs, x.attrs, y.attrs, names)
    ensures LiveItems(d.stream) == LiveItems(d0.stream)[j := x.(attrs := attrs)] && d.pending == d0.pending
    decreases |names|
  {
    hide ApplyRemote, Good, LiveItems, Blend, ValueIn, Agree;
    if |names| == 0 {
      d, attrs := d0, x.attrs;
      BlendNone(x.attrs, y.attrs);
      assert x.(attrs := x.attrs) == x;
    } else {
      var n := |names| - 1;
      var e, before := WritesFold(reg, d0, t, j, x, y, names[..n]);
      var ops := Writes(x.attrs, y.attrs, y.id, names[..n], t);
      if ValueIn(x.attrs, names[n]) == ValueIn(y.attrs, names[n]) {
        d, attrs := e, before;
        BlendSkip(attrs, x.attrs, y.attrs, names);
      } else {
        d, attrs := WriteStep(reg, d0, e, t, j, x, y, before, names[n], |ops|);
        BlendWrite(before, x.attrs, y.attrs, names, t.lamport + |ops| + 1, RESTORE_REPLICA);
        FoldOne(reg, d0, ops, SetAttr(IdOf(After(t, |ops| + 1)), t.lamport + |ops| + 1, Some(y.id), names[n],
                                      ValueIn(y.attrs, names[n])));
      }
    }
  }

  lemma BlendNone(x: AttrMap, y: AttrMap)
    ensures Blend(x, x, y, [])
  {
  }

  lemma WriteStep(reg: Registry, d0: Doc, e: Doc, t: Stamp, j: int, x: Item, y: Item, before: AttrMap,
                  name: Bytes, n: nat) returns (d: Doc, attrs: AttrMap)
    requires 0 <= j < |LiveItems(d0.stream)| && LiveItems(d0.stream)[j] == x && Agree(reg, x, y)
    requires ValueIn(x.attrs, name) != ValueIn(y.attrs, name)
    requires Good(e, After(t, n)) && LiveItems(e.stream) == LiveItems(d0.stream)[j := x.(attrs := before)]
    ensures attrs == before[name := Register(ValueIn(y.attrs, name), t.lamport + n + 1, RESTORE_REPLICA)]
    ensures ApplyRemote(reg, e,
                        SetAttr(IdOf(After(t, n + 1)), t.lamport + n + 1, Some(y.id), name, ValueIn(y.attrs, name)))
            == (d, Ok(true))
    ensures Good(d, After(t, n + 1))
    ensures LiveItems(d.stream) == LiveItems(d0.stream)[j := x.(attrs := attrs)] && d.pending == e.pending
  {
    hide ApplyRemote, Good, LiveItems, ValueIn;
    WriteAdmitted(reg, x, y, name);
    var op := SetAttr(IdOf(After(t, n + 1)), t.lamport + n + 1, Some(y.id), name, ValueIn(y.attrs, name));
    d := GoodWrite(reg, e, After(t, n), j, op);
    attrs := before[name := Register(op.value, op.lamport, op.id.replica)];
  }

  lemma BlendAll(attrs: AttrMap, x: AttrMap, y: AttrMap)
    requires Blend(attrs, x, y, SortedNames(x.Keys + y.Keys))
    ensures SetValues(attrs) == SetValues(y)
  {
    forall name ensures ValueIn(attrs, name) == ValueIn(y, name) {
      assert name in SortedNames(x.Keys + y.Keys) <==> name in x || name in y;
    }
    SetValuesEqual(attrs, y);
  }

  /** The live items while the attribute writes are being applied: the first `j`
      show what the target shows, the others are as the inserts left them. */
  ghost predicate Synced(live: seq<Item>, start: seq<Item>, target: seq<Item>, j: nat) {
    && |live| == |start| == |target|
    && (forall i :: 0 <= i < j <= |live| ==> LiveOf(live[i]) == LiveOf(target[i]))
    && (forall i :: 0 <= i && j <= i < |live| ==> live[i] == start[i])
  }

  /** What the current and the merged document say about kept target item `i`. */
  ghost predicate KeptAs(reg: Registry, current: seq<Item>, start: seq<Item>, target: seq<Item>, kept: set<OpId>,
                         i: int)
    requires 0 <= i < |target| && |start| == |target|
  {
    if target[i].id in kept then
      ItemWithId(current, target[i].id) == Some(start[i]) && Agree(reg, start[i], target[i])
    else LiveOf(start[i]) == LiveOf(target[i])
  }

  lemma SyncsStep(reg: Registry, e: Doc, t: Stamp, current: seq<Item>, start: seq<Item>, target: seq<Item>,
                  kept: set<OpId>, j: nat) returns (d: Doc)
    requires j < |target| && Good(e, t) && Synced(LiveItems(e.stream), start, target, j)
    requires KeptAs(reg, current, start, target, kept, j) && target[j].id in kept
    ensures var ops := WritesFor(start[j].attrs, target[j].attrs, target[j].id, t);
            Fold(reg, e, ops).1.Ok? && Fold(reg, e, ops).0 == d && Good(d, After(t, |ops|))
    ensures Synced(LiveItems(d.stream), start, target, j + 1) && d.pending == e.pending
  {
    hide ApplyRemote, Good, LiveItems, Blend, Fold, Writes, ItemWithId;
    var x, y := start[j], target[j];
    var attrs;
    d, attrs := WritesFold(reg, e, t, j, x, y, SortedNames(x.attrs.Keys + y.attrs.Keys));
    BlendAll(attrs, x.attrs, y.attrs);
  }

  lemma {:induction false} SyncsFold(reg: Registry, d0: Doc, t: Stamp, current: seq<Item>, target: seq<Item>,
                                     kept: set<OpId>, j: nat) returns (d: Doc)
    requires j <= |target| && Good(d0, t) && |LiveItems(d0.stream)| == |target|
    requires forall i :: 0 <= i < |target| ==> KeptAs(reg, current, LiveItems(d0.stream), target, kept, i)
    ensures Fold(reg, d0, Syncs(current, target, kept, t, j)).1.Ok?
    ensures Fold(reg, d0, Syncs(current, target, kept, t, j)).0 == d
    ensures Good(d, After(t, |Syncs(current, target, kept, t, j)|))
    ensures Synced(LiveItems(d.stream), LiveItems(d0.stream), target, j) && d.pending == d0.pending
    decreases j
  {
    hide ApplyRemote, Good, LiveItems, Fold, Synced, WritesFor, Agree, LiveOf, ItemWithId;
    var start := LiveItems(d0.stream);
    if j == 0 {
      d := d0;
      FoldNone(reg, d0);
      SyncedStart(start, target);
    } else {
      var e := SyncsFold(reg, d0, t, current, target, kept, j - 1);
      var ops := Syncs(current, target, kept, t, j - 1);
      assert KeptAs(reg, current, start, target, kept, j - 1);
      if target[j - 1].id !in kept {
        d := e;
        SyncedSkip(LiveItems(e.stream), start, target, j - 1);
      } else {
        d := SyncsStep(reg, e, After(t, |ops|), current, start, target, kept, j - 1);
        FoldMore(reg, d0, ops, WritesFor(start[j - 1].attrs, target[j - 1].attrs, target[j - 1].id, After(t, |ops|)));
      }
    }
  }

  lemma SyncedStart(start: seq<Item>, target: seq<Item>)
    requires |start| == |target|
    ensures Synced(start, start, target, 0)
  {
  }

  lemma SyncedSkip(live: seq<Item>, start: seq<Item>, target: seq<Item>, j: nat)
    requires j < |target| && Synced(live, start, target, j) && LiveOf(start[j]) == LiveOf(target[j])
    ensures Synced(live, start, target, j + 1)
  {
  }
}
