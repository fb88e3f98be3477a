/** What a list of local edits costs, and where it leaves the places that were there
    before it: items keep their identity, so a place is followed, not looked up. */
module Tracking {
  import opened Types
  import opened Visible
  import opened Network
  import opened Edits

  // ---------------------------------------------------------------------- costs

  /** How many items are deleted, how many characters and delimiters are new, and
      how many attributes are written. */
  datatype Work = Work(erased: nat, typed: nat, begun: nat, marked: nat) {
    function Plus(w: Work): Work {
      Work(erased + w.erased, typed + w.typed, begun + w.begun, marked + w.marked)
    }

    function Inserts(): nat {
      typed + begun
    }

    function Total(): nat {
      erased + typed + begun + marked
    }
  }

  const NO_WORK := Work(0, 0, 0, 0)

  function Remarking(marked: nat): Work {
    Work(0, 0, 0, marked)
  }

  function Erasing(erased: nat): Work {
    Work(erased, 0, 0, 0)
  }

  function WorkOfEdit(e: Edit): Work {
    match e
    case TypeText(_, _) => Work(0, 1, 0, 0)
    case TypeDelimiter(_, _) => Work(0, 0, 1, 0)
    case Erase(_) => Work(1, 0, 0, 0)
    case Mark(_, _, _) => Work(0, 0, 0, 1)
  }

  function WorkOf(ops: seq<Edit>): Work {
    if |ops| == 0 then NO_WORK else WorkOf(ops[..|ops| - 1]).Plus(WorkOfEdit(ops[|ops| - 1]))
  }

  lemma {:induction false} WorkTotal(ops: seq<Edit>)
    ensures WorkOf(ops).Total() == |ops|
  {
    if |ops| > 0 { WorkTotal(ops[..|ops| - 1]); }
  }

  // The kinds of edits, in the order of the counts.
  function KindOf(e: Edit): nat {
    match e
    case Erase(_) => 0
    case TypeText(_, _) => 1
    case TypeDelimiter(_, _) => 2
    case Mark(_, _, _) => 3
  }

  function Counted(w: Work, kind: nat): nat {
    match kind
    case 0 => w.erased
    case 1 => w.typed
    case 2 => w.begun
    case _ => w.marked
  }

  function OfKind(ops: seq<Edit>, kind: nat): set<nat> {
    set i | 0 <= i < |ops| && KindOf(ops[i]) == kind
  }

  /** The counts are those of the edits in the list, one by one. */
  lemma {:induction false} WorkCounts(ops: seq<Edit>, kind: nat)
    requires kind < 4
    ensures Counted(WorkOf(ops), kind) == |OfKind(ops, kind)|
  {
    hide WorkOf, OfKind, KindOf;
    if |ops| == 0 {
      WorkNone(kind);
      assert ops == [];
    } else {
      var n := |ops| - 1;
      WorkCounts(ops[..n], kind);
      WorkNext(ops, n);
      KindNext(ops, n, kind);
      KindCounted(WorkOf(ops[..n]), ops[n], kind);
    }
  }

  lemma WorkNone(kind: nat)
    ensures WorkOf([]) == NO_WORK && OfKind([], kind) == {}
  {
  }

  lemma WorkNext(ops: seq<Edit>, n: nat)
    requires |ops| == n + 1
    ensures WorkOf(ops) == WorkOf(ops[..n]).Plus(WorkOfEdit(ops[n]))
  {
  }

  lemma KindCounted(w: Work, e: Edit, kind: nat)
    requires kind < 4
    ensures Counted(w.Plus(WorkOfEdit(e)), kind) == Counted(w, kind) + (if KindOf(e) == kind then 1 else 0)
  {
  }

  lemma KindNext(ops: seq<Edit>, n: nat, kind: nat)
    requires |ops| == n + 1
    ensures |OfKind(ops, kind)| == |OfKind(ops[..n], kind)| + (if KindOf(ops[n]) == kind then 1 else 0)
  {
    if KindOf(ops[n]) == kind {
      assert OfKind(ops, kind) == OfKind(ops[..n], kind) + {n};
    } else {
      assert OfKind(ops, kind) == OfKind(ops[..n], kind);
    }
  }

  // --------------------------------------------------------------------- places

  /** What edits add to those before: so much work, and new items at the cursor only. */
  ghost predicate Adds(ops0: seq<Edit>, ops: seq<Edit>, w: Work, cursor: nat) {
    && WorkOf(ops) == WorkOf(ops0).Plus(w)
    && forall i :: Moved(ops, i) == Past(Moved(ops0, i), cursor, w.Inserts())
  }

  lemma AddsNothing(ops: seq<Edit>, cursor: nat)
    ensures Adds(ops, ops, NO_WORK, cursor)
  {
    hide WorkOf, Moved;
  }

  lemma AddsOne(ops: seq<Edit>, e: Edit)
    ensures Adds(ops, ops + [e], WorkOfEdit(e), e.index)
  {
    hide WorkOf, Moved;
    var n := |ops|;
    assert (ops + [e])[..n] == ops;
    WorkNext(ops + [e], n);
    forall i ensures Moved(ops + [e], i) == Past(Moved(ops, i), e.index, WorkOfEdit(e).Inserts()) {
      MovedNext(ops + [e], n, i);
    }
  }

  lemma MovedNext(ops: seq<Edit>, n: nat, i: nat)
    requires |ops| == n + 1
    ensures Moved(ops, i) == MovedBy(ops[n], Moved(ops[..n], i))
  {
  }

  /** New items behind the new ones, nothing in between. */
  lemma AddsThen(ops0: seq<Edit>, ops1: seq<Edit>, ops2: seq<Edit>, w1: Work, w2: Work, cursor: nat)
    requires Adds(ops0, ops1, w1, cursor) && Adds(ops1, ops2, w2, cursor + w1.Inserts())
    ensures Adds(ops0, ops2, w1.Plus(w2), cursor)
  {
    hide WorkOf, Moved;
    forall i ensures Moved(ops2, i) == Past(Moved(ops0, i), cursor, w1.Plus(w2).Inserts()) {
      assert Moved(ops1, i) == Past(Moved(ops0, i), cursor, w1.Inserts());
    }
  }

  /** One more edit, which makes nothing new. */
  lemma AddsEdit(ops0: seq<Edit>, ops: seq<Edit>, e: Edit, w: Work, cursor: nat)
    requires Adds(ops0, ops, w, cursor) && (e.Erase? || e.Mark?)
    ensures Adds(ops0, ops + [e], w.Plus(WorkOfEdit(e)), cursor)
  {
    hide Adds;
    AddsOne(ops, e);
    AddsAnywhere(ops, ops + [e], WorkOfEdit(e), e.index, cursor + w.Inserts());
    AddsThen(ops0, ops, ops + [e], w, WorkOfEdit(e), cursor);
  }

  /** Without new items the cursor is of no account. */
  lemma AddsAnywhere(ops0: seq<Edit>, ops1: seq<Edit>, w: Work, a: nat, b: nat)
    requires Adds(ops0, ops1, w, a) && w.Inserts() == 0
    ensures Adds(ops0, ops1, w, b)
  {
    hide WorkOf, Moved;
    forall i ensures Moved(ops1, i) == Past(Moved(ops0, i), b, 0) {
      assert Moved(ops1, i) == Past(Moved(ops0, i), a, 0);
    }
  }

  /** The places from `at` on have moved by `shift`. */
  ghost predicate Follows(ops: seq<Edit>, at: nat, shift: nat) {
    forall i :: at <= i ==> Moved(ops, i) == i + shift
  }

  /** What stood from `at` on stands from `done` on, with `n` new places after `q`. */
  ghost predicate Widens(ops: seq<Edit>, at: nat, done: nat, q: nat, n: nat) {
    forall i :: at <= i ==> Moved(ops, i) == done + Past(i - at, q, n)
  }

  /** What stood among the first `n` places stands where it stood. */
  ghost predicate Steady(ops0: seq<Edit>, ops: seq<Edit>, n: nat) {
    forall i :: Moved(ops0, i) < n ==> Moved(ops, i) == Moved(ops0, i)
  }

  /** The item that was at place `i` is still there to be seen, showing `x`. */
  ghost predicate Stands(ops: seq<Edit>, spots: seq<Spot>, i: nat, x: Live) {
    Moved(ops, i) < |spots| && spots[Moved(ops, i)] == Spot(true, x)
  }

  lemma StandsOn(ops0: seq<Edit>, ops: seq<Edit>, spots: seq<Spot>, more: seq<Spot>, i: nat, x: Live)
    requires Stands(ops0, spots, i, x) && Steady(ops0, ops, |spots|)
    ensures Stands(ops, spots + more, i, x)
  {
  }

  /** New items inside a stretch of `length` places: what lies before it stays, what
      lies behind it follows. */
  lemma AddsInside(ops0: seq<Edit>, ops: seq<Edit>, w: Work, done: nat, q: nat, length: nat, at: nat, shift: nat)
    requires Adds(ops0, ops, w, done + q) && q <= length && done == at + shift && Follows(ops0, at, shift)
    ensures Follows(ops, at + length, shift + w.Inserts()) && Steady(ops0, ops, done)
    ensures Widens(ops, at, done, q, w.Inserts())
  {
    hide Moved, WorkOf;
    forall i | at + length <= i ensures Moved(ops, i) == i + shift + w.Inserts() {
      assert Moved(ops0, i) == i + shift;
    }
    forall i | Moved(ops0, i) < done ensures Moved(ops, i) == Moved(ops0, i) {
    }
    forall i | at <= i ensures Moved(ops, i) == done + Past(i - at, q, w.Inserts()) {
      assert Moved(ops0, i) == i + shift;
    }
  }

  /** Without new items nothing moves. */
  lemma AddsStill(ops0: seq<Edit>, ops: seq<Edit>, w: Work, cursor: nat, n: nat)
    requires Adds(ops0, ops, w, cursor) && w.Inserts() == 0
    ensures WorkOf(ops) == WorkOf(ops0).Plus(w) && Steady(ops0, ops, n)
    ensures forall at: nat, shift: nat :: Follows(ops0, at, shift) ==> Follows(ops, at, shift)
  {
    hide Moved, WorkOf;
    forall at: nat, shift: nat | Follows(ops0, at, shift) ensures Follows(ops, at, shift) {
      forall i | at <= i ensures Moved(ops, i) == i + shift {
        assert Moved(ops0, i) == i + shift;
      }
    }
  }

  lemma SteadyThen(ops0: seq<Edit>, ops1: seq<Edit>, ops2: seq<Edit>, n: nat, m: nat)
    requires Steady(ops0, ops1, n) && Steady(ops1, ops2, m) && n <= m
    ensures Steady(ops0, ops2, n)
  {
    hide Moved;
    forall i | Moved(ops0, i) < n ensures Moved(ops2, i) == Moved(ops0, i) {
      assert Moved(ops1, i) == Moved(ops0, i);
    }
  }

  // ------------------------------------------------------------ attribute counts

  function ValueOf(attrs: map<Bytes, Bytes>, name: Bytes): Option<Bytes> {
    if name in attrs then Some(attrs[name]) else None
  }

  /** The names whose value differs between the two maps. */
  function Differing(was: map<Bytes, Bytes>, goal: map<Bytes, Bytes>): set<Bytes> {
    set name | name in was.Keys + goal.Keys && ValueOf(was, name) != ValueOf(goal, name)
  }

  function DifferingOf(was: map<Bytes, Bytes>, goal: map<Bytes, Bytes>, names: seq<Bytes>): set<Bytes> {
    set name | name in names && ValueOf(was, name) != ValueOf(goal, name)
  }

  lemma DifferingNext(was: map<Bytes, Bytes>, goal: map<Bytes, Bytes>, names: seq<Bytes>, k: nat)
    requires k < |names| && names[k] !in names[..k]
    ensures |DifferingOf(was, goal, names[..k + 1])|
            == |DifferingOf(was, goal, names[..k])|
               + (if ValueOf(was, names[k]) != ValueOf(goal, names[k]) then 1 else 0)
  {
    var before, after := DifferingOf(was, goal, names[..k]), DifferingOf(was, goal, names[..k + 1]);
    assert names[..k + 1] == names[..k] + [names[k]];
    if ValueOf(was, names[k]) != ValueOf(goal, names[k]) {
      assert after == before + {names[k]};
    } else {
      assert after == before;
    }
  }

  lemma DifferingAll(was: map<Bytes, Bytes>, goal: map<Bytes, Bytes>, names: seq<Bytes>)
    requires forall name :: name in names <==> name in was.Keys + goal.Keys
    ensures DifferingOf(was, goal, names) == Differing(was, goal)
    ensures DifferingOf(was, goal, names[..0]) == {}
  {
  }

  lemma NoneDiffer(attrs: map<Bytes, Bytes>)
    ensures Differing(attrs, attrs) == {}
  {
  }

  lemma AllDiffer(goal: map<Bytes, Bytes>)
    ensures |Differing(map[], goal)| == |goal|
  {
    assert Differing(map[], goal) == goal.Keys;
  }
}
