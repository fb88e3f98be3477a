/** The three passes of compute_restore_diff (cpp/worker/main.cpp): deletes, inserts
    and attribute writes, emitted step by step. */
module RestorePasses {
  import opened Types
  import opened Order
  import opened State
  import opened Visible
  import opened LiveList
  import opened Names
  import opened RestorePlan
  import opened RestoreComplete
  import opened Canonical
  import IC = ItemCodec

  const MAX_RESTORE_OPS: nat := 1_000_000

  datatype Emission = Emitted(ops: seq<Operation>) | TooMany | Exhausted(code: ErrorCode)

  /** How much room the counters and the operation limit leave. */
  predicate Room(t: Stamp, n: nat) {
    n == 0 || (n <= MAX_RESTORE_OPS && t.counter + n <= MAX_COUNTER && t.lamport + n <= MAX_LAMPORT)
  }

  /** next_identity and next_lamport. */
  method NextStamp(t: Stamp) returns (r: Result<Stamp>)
    ensures r.Ok? ==> r.value == After(t, 1)
    ensures r.Err? ==> t.counter + 1 > MAX_COUNTER || t.lamport + 1 > MAX_LAMPORT
    ensures r.Ok? ==> t.counter + 1 <= MAX_COUNTER && t.lamport + 1 <= MAX_LAMPORT
    ensures r.Err? ==> r.code == CounterOverflow || r.code == InvalidLamport
  {
    if t.counter + 1 > MAX_COUNTER {
      return Err(CounterOverflow);
    }
    if t.lamport >= MAX_LAMPORT {
      return Err(InvalidLamport);
    }
    return Ok(Stamp(t.counter + 1, t.lamport + 1));
  }

  // -------------------------------------------------------------------- indexes

  predicate Alive(index: map<OpId, bool>, id: OpId) {
    id in index && index[id]
  }

  lemma DistinctAt(s: seq<Item>, k: int, i: int)
    requires Unique(Skel(s)) && 0 <= k < |s| && 0 <= i < |s| && k != i
    ensures s[k].id != s[i].id
  {
    assert Skel(s)[k].id == s[k].id && Skel(s)[i].id == s[i].id;
  }

  lemma {:induction false} LiveIds(s: seq<Item>, i: int)
    requires Unique(Skel(s)) && 0 <= i < |s|
    ensures s[i].id in IdsOf(LiveItems(s)) <==> !s[i].tombstoned
  {
    if !s[i].tombstoned {
      LiveAt(s, i);
    }
    if s[i].id in IdsOf(LiveItems(s)) {
      var t :| 0 <= t < |LiveItems(s)| && LiveItems(s)[t].id == s[i].id;
      var p := PositionOf(s, t);
      if p != i { DistinctAt(s, p, i); }
    }
  }

  lemma LiveIdsFrom(s: seq<Item>, id: OpId)
    requires id in IdsOf(LiveItems(s))
    ensures exists i :: 0 <= i < |s| && s[i].id == id
  {
    var t :| 0 <= t < |LiveItems(s)| && LiveItems(s)[t].id == id;
    var p := PositionOf(s, t);
  }

  /** build_vis_index: which ids are there, and which of them alive. */
  method BuildVisible(items: seq<DiffItem>, ghost s: seq<Item>) returns (index: map<OpId, bool>)
    requires items == DiffsOf(s) && Unique(Skel(s))
    ensures forall id :: Alive(index, id) <==> id in IdsOf(LiveItems(s))
  {
    hide LiveItems, IdsOf;
    index := map[];
    var i := 0;
    while i < |items|
      invariant 0 <= i <= |items|
      invariant forall id :: id in index <==> exists k :: 0 <= k < i && s[k].id == id
      invariant forall k :: 0 <= k < i ==> s[k].id in index && index[s[k].id] == !s[k].tombstoned
    {
      forall k | 0 <= k < i ensures s[k].id != s[i].id {
        DistinctAt(s, k, i);
      }
      if items[i].id !in index {
        index := index[items[i].id := !items[i].tombstoned];
      }
      i := i + 1;
    }
    forall id ensures Alive(index, id) <==> id in IdsOf(LiveItems(s)) {
      if id in index {
        var k :| 0 <= k < i && s[k].id == id;
        LiveIds(s, k);
      } else if id in IdsOf(LiveItems(s)) {
        LiveIdsFrom(s, id);
      }
    }
  }

  /** build_pos_index. */
  method BuildPositions(items: seq<DiffItem>, ghost s: seq<Item>) returns (index: map<OpId, nat>)
    requires items == DiffsOf(s) && Unique(Skel(s))
    ensures forall id :: id in index ==> index[id] < |items| && items[index[id]].id == id
    ensures forall k :: 0 <= k < |s| ==> s[k].id in index && index[s[k].id] == k
  {
    index := map[];
    var i := 0;
    while i < |items|
      invariant 0 <= i <= |items|
      invariant forall id :: id in index ==> index[id] < i && items[index[id]].id == id
      invariant forall k :: 0 <= k < i ==> s[k].id in index && index[s[k].id] == k
    {
      forall k | 0 <= k < i ensures s[k].id != s[i].id {
        DistinctAt(s, k, i);
      }
      if items[i].id !in index {
        index := index[items[i].id := i];
      }
      i := i + 1;
    }
  }

  // ---------------------------------------------------------------- pass 1: deletes

  lemma {:induction false} DeletesGrow(s: seq<Item>, keep: set<OpId>, t: Stamp, i: int)
    requires 0 <= i <= |s|
    ensures |Deletes(s[..i], keep, t)| <= |Deletes(s, keep, t)|
    decreases |s| - i
  {
    if i == |s| {
      assert s[..i] == s;
    } else {
      DeletesUpTo(s, keep, t, i + 1);
      DeletesGrow(s, keep, t, i + 1);
    }
  }

  /** DELETE operations, in the order of the current document. */
  method EmitDeletes(items: seq<DiffItem>, visibleB: map<OpId, bool>, t: Stamp, ghost s: seq<Item>,
                     ghost keep: set<OpId>)
    returns (r: Emission)
    requires items == DiffsOf(s) && forall id :: Alive(visibleB, id) <==> id in keep
    ensures r.Emitted? ==> r.ops == Deletes(s, keep, t)
    ensures r.Emitted? <==> Room(t, |Deletes(s, keep, t)|)
  {
    hide Deletes;
    var ops, last, i := [], t, 0;
    assert Deletes(s[..0], keep, t) == [] by { DeletesNone(keep, t); }
    while i < |items|
      invariant 0 <= i <= |items|
      invariant ops == Deletes(s[..i], keep, t) && last == After(t, |ops|)
      invariant Room(t, |ops|)
    {
      DeletesUpTo(s, keep, t, i + 1);
      DeletesGrow(s, keep, t, i + 1);
      if !items[i].tombstoned && !Alive(visibleB, items[i].id) {
        var next := NextStamp(last);
        if next.Err? {
          return Exhausted(next.code);
        }
        last := next.value;
        ops := ops + [Delete(IdOf(last), last.lamport, Some(items[i].id))];
        if |ops| > MAX_RESTORE_OPS {
          return TooMany;
        }
      }
      i := i + 1;
    }
    assert s[..i] == s;
    return Emitted(ops);
  }

  lemma DeletesNone(keep: set<OpId>, t: Stamp)
    ensures Deletes([], keep, t) == []
  {
  }

  // ---------------------------------------------------------------- pass 2: inserts

  /** The target's visible ids in order, and the position of each. */
  method VisibleOrder(items: seq<DiffItem>, ghost s: seq<Item>) returns (order: seq<OpId>, pos: map<OpId, nat>)
    requires items == DiffsOf(s) && Unique(Skel(s))
    ensures |order| == |LiveItems(s)| && forall k :: 0 <= k < |order| ==> order[k] == LiveItems(s)[k].id
    ensures forall k :: 0 <= k < |order| ==> order[k] in pos && pos[order[k]] == k
  {
    hide LiveItems;
    order, pos := [], map[];
    var i := 0;
    NoLives(s);
    while i < |items|
      invariant 0 <= i <= |items|
      invariant |order| == |LiveItems(s[..i])| && forall k :: 0 <= k < |order| ==> order[k] == LiveItems(s[..i])[k].id
      invariant forall k :: 0 <= k < |order| ==> order[k] in pos && pos[order[k]] == k
    {
      RankNext(s, i);
      if !items[i].tombstoned {
        NotListedYet(s, i);
        pos := pos[items[i].id := |order|];
        order := order + [items[i].id];
      } else {
        LivesSkip(s, i);
      }
      i := i + 1;
    }
    assert s[..i] == s;
  }

  lemma NoLives(s: seq<Item>)
    ensures LiveItems(s[..0]) == []
  {
  }

  lemma LivesSkip(s: seq<Item>, i: int)
    requires 0 <= i < |s| && s[i].tombstoned
    ensures LiveItems(s[..i + 1]) == LiveItems(s[..i])
  {
    assert s[..i + 1][..i] == s[..i];
  }

  lemma NotListedYet(s: seq<Item>, i: int)
    requires Unique(Skel(s)) && 0 <= i < |s|
    ensures forall k :: 0 <= k < |LiveItems(s[..i])| ==> LiveItems(s[..i])[k].id != s[i].id
  {
    hide LiveItems;
    forall k | 0 <= k < |LiveItems(s[..i])| ensures LiveItems(s[..i])[k].id != s[i].id {
      var p := PositionOf(s[..i], k);
      DistinctAt(s, p, i);
    }
  }

  /** A candidate stands where the batch can refer to it: alive in the current
      document, or inserted earlier in this batch. */
  predicate IsAnchor(visibleA: map<OpId, bool>, newIds: map<OpId, OpId>, id: OpId) {
    Alive(visibleA, id) || id in newIds
  }

  function Remap(newIds: map<OpId, OpId>, id: OpId): OpId {
    if id in newIds then newIds[id] else id
  }

  method NearestEarlier(order: seq<OpId>, at: nat, visibleA: map<OpId, bool>, newIds: map<OpId, OpId>) returns (k: int)
    requires at <= |order|
    ensures -1 <= k < at && (k >= 0 ==> IsAnchor(visibleA, newIds, order[k]))
    ensures forall m :: k < m < at ==> !IsAnchor(visibleA, newIds, order[m])
  {
    k := at - 1;
    while k >= 0
      invariant -1 <= k < at
      invariant forall m :: k < m < at ==> !IsAnchor(visibleA, newIds, order[m])
    {
      if IsAnchor(visibleA, newIds, order[k]) {
        return;
      }
      k := k - 1;
    }
  }

  method NearestLater(order: seq<OpId>, from: nat, visibleA: map<OpId, bool>, newIds: map<OpId, OpId>) returns (k: nat)
    requires from <= |order|
    ensures from <= k <= |order| && (k < |order| ==> IsAnchor(visibleA, newIds, order[k]))
    ensures forall m :: from <= m < k ==> !IsAnchor(visibleA, newIds, order[m])
  {
    k := from;
    while k < |order|
      invariant from <= k <= |order|
      invariant forall m :: from <= m < k ==> !IsAnchor(visibleA, newIds, order[m])
    {
      if IsAnchor(visibleA, newIds, order[k]) {
        return;
      }
      k := k + 1;
    }
  }

  ghost function MissingIds(target: seq<Item>, kept: set<OpId>, j: nat): set<OpId>
    requires j <= |target|
  {
    set i | 0 <= i < j && target[i].id !in kept :: target[i].id
  }

  /** The new identities handed out for the first `j` target items. */
  ghost predicate NewIdsAre(newIds: map<OpId, OpId>, target: seq<Item>, kept: set<OpId>, t: Stamp, j: nat)
    requires j <= |target|
  {
    && newIds.Keys == MissingIds(target, kept, j)
    && (forall i :: 0 <= i < j && target[i].id in newIds ==> newIds[target[i].id] == NewId(target, kept, t, i))
  }

  lemma MissingIdsNext(target: seq<Item>, kept: set<OpId>, j: nat)
    requires j < |target| && DistinctIds(target)
    ensures target[j].id !in MissingIds(target, kept, j)
    ensures MissingIds(target, kept, j + 1) ==
            MissingIds(target, kept, j) + (if target[j].id in kept then {} else {target[j].id})
  {
  }

  lemma NewIdsNext(newIds: map<OpId, OpId>, target: seq<Item>, kept: set<OpId>, t: Stamp, j: nat)
    requires j < |target| && DistinctIds(target) && NewIdsAre(newIds, target, kept, t, j)
    ensures target[j].id !in newIds
    ensures target[j].id in kept ==> NewIdsAre(newIds, target, kept, t, j + 1)
    ensures target[j].id !in kept ==>
              NewIdsAre(newIds[target[j].id := NewId(target, kept, t, j)], target, kept, t, j + 1)
  {
    hide NewId, MissingIds;
    MissingIdsNext(target, kept, j);
  }

  ghost predicate Sees(visibleA: map<OpId, bool>, target: seq<Item>, kept: set<OpId>) {
    forall i :: 0 <= i < |target| ==> (Alive(visibleA, target[i].id) <==> target[i].id in kept)
  }

  lemma EarlierAnchor(visibleA: map<OpId, bool>, newIds: map<OpId, OpId>, target: seq<Item>,
                                         kept: set<OpId>, t: Stamp, j: nat, i: nat)
    requires i < j < |target| && NewIdsAre(newIds, target, kept, t, j) && DistinctIds(target)
             && Sees(visibleA, target, kept)
    ensures IsAnchor(visibleA, newIds, target[i].id) && Remap(newIds, target[i].id) == NewId(target, kept, t, i)
  {
    hide Missing;
    if target[i].id in kept { assert target[i].id !in newIds; }
  }

  lemma LaterAnchor(visibleA: map<OpId, bool>, newIds: map<OpId, OpId>, target: seq<Item>,
                                       kept: set<OpId>, t: Stamp, j: nat, i: nat)
    requires j <= i < |target| && NewIdsAre(newIds, target, kept, t, j) && DistinctIds(target)
             && Sees(visibleA, target, kept)
    ensures IsAnchor(visibleA, newIds, target[i].id) <==> target[i].id in kept
    ensures Remap(newIds, target[i].id) == target[i].id
  {
    hide NewId;
  }

  lemma {:induction false} NextKeptAt(target: seq<Item>, kept: set<OpId>, from: nat, k: nat)
    requires from <= k <= |target| && (k < |target| ==> target[k].id in kept)
    requires forall m :: from <= m < k ==> target[m].id !in kept
    ensures NextKept(target, kept, from) == if k == |target| then None else Some(target[k].id)
    decreases k - from
  {
    if from < k { NextKeptAt(target, kept, from + 1, k); }
  }

  /** The two anchors of target item `j`: its nearest resolvable neighbours. */
  method Neighbours(order: seq<OpId>, at: nat, visibleA: map<OpId, bool>, newIds: map<OpId, OpId>,
                    ghost target: seq<Item>, ghost kept: set<OpId>, ghost t: Stamp)
    returns (left: Option<OpId>, right: Option<OpId>)
    requires |order| == |target| && forall k :: 0 <= k < |order| ==> order[k] == target[k].id
    requires at < |order| && NewIdsAre(newIds, target, kept, t, at) && DistinctIds(target)
             && Sees(visibleA, target, kept)
    ensures left == if at == 0 then None else Some(NewId(target, kept, t, at - 1))
    ensures right == NextKept(target, kept, at + 1)
  {
    hide IsAnchor, Remap, NewIdsAre, DistinctIds, Sees, NewId, NextKept;
    var l := NearestEarlier(order, at, visibleA, newIds);
    if at > 0 { EarlierAnchor(visibleA, newIds, target, kept, t, at, at - 1); }
    left := if l < 0 then None else Some(Remap(newIds, order[l]));
    var r := NearestLater(order, at + 1, visibleA, newIds);
    forall m | at + 1 <= m < |target|
      ensures IsAnchor(visibleA, newIds, target[m].id) <==> target[m].id in kept
      ensures Remap(newIds, target[m].id) == target[m].id
    {
      LaterAnchor(visibleA, newIds, target, kept, t, at, m);
    }
    NextKeptAt(target, kept, at + 1, r);
    right := if r == |order| then None else Some(Remap(newIds, order[r]));
  }

  /** B's registers verbatim, cleared ones included. */
  method CopyInitial(values: map<Bytes, Option<Bytes>>, ghost attrs: AttrMap) returns (r: seq<InitialAttr>)
    requires values == Values(attrs)
    ensures r == InitialAttrs(attrs)
  {
    hide SortedNames;
    IC.NamesPresent(attrs);
    assert values.Keys == attrs.Keys;
    r := CopyNamed(values, SortedNames(values.Keys), attrs);
  }

  method CopyNamed(values: map<Bytes, Option<Bytes>>, names: seq<Bytes>, ghost attrs: AttrMap)
      returns (r: seq<InitialAttr>)
    requires values == Values(attrs) && forall i :: 0 <= i < |names| ==> names[i] in attrs
    ensures r == InitialFrom(attrs, names)
  {
    var k := 0;
    r := [];
    while k < |names|
      invariant 0 <= k <= |names| && |r| == k
      invariant forall i :: 0 <= i < k ==> r[i] == InitialAttr(names[i], attrs[names[i]].value)
    {
      r := r + [InitialAttr(names[k], values[names[k]])];
      k := k + 1;
    }
  }

  lemma {:induction false} MissingGrows(target: seq<Item>, kept: set<OpId>, j: nat, n: nat)
    requires j <= n <= |target|
    ensures Missing(target, kept, j) <= Missing(target, kept, n)
    decreases n
  {
    if j < n { MissingGrows(target, kept, j, n - 1); }
  }

  method InsertFor(item: DiffItem, at: nat, order: seq<OpId>, visibleA: map<OpId, bool>, newIds: map<OpId, OpId>,
                   stamp: Stamp, ghost target: seq<Item>, ghost kept: set<OpId>, ghost t: Stamp) returns (op: Operation)
    requires |order| == |target| && forall k :: 0 <= k < |order| ==> order[k] == target[k].id
    requires at < |order| && NewIdsAre(newIds, target, kept, t, at) && DistinctIds(target)
             && Sees(visibleA, target, kept)
    requires item == DiffOf(target[at]) && stamp == After(t, Missing(target, kept, at) + 1)
    ensures op == InsertOf(target, kept, t, at)
  {
    hide NewIdsAre, DistinctIds, Sees, NextKept, NewId, InitialAttrs, Missing;
    var left, right := Neighbours(order, at, visibleA, newIds, target, kept, t);
    var initial := CopyInitial(item.attrs, target[at].attrs);
    op := Insert(IdOf(stamp), stamp.lamport, left, right, item.kind, item.scalar, initial);
  }

  /** INSERT operations, in the order of the target document. */
  method EmitInserts(items: seq<DiffItem>, order: seq<OpId>, pos: map<OpId, nat>, visibleA: map<OpId, bool>, t: Stamp,
                     ghost s: seq<Item>, ghost target: seq<Item>, ghost kept: set<OpId>) returns (r: Emission)
    requires items == DiffsOf(s) && target == LiveItems(s) && DistinctIds(target)
    requires |order| == |target| && forall k :: 0 <= k < |order| ==> order[k] == target[k].id
    requires forall k :: 0 <= k < |order| ==> order[k] in pos && pos[order[k]] == k
    requires Sees(visibleA, target, kept)
    ensures r.Emitted? ==> r.ops == Inserts(target, kept, t, |target|)
    ensures r.Emitted? <==> Room(t, Missing(target, kept, |target|))
  {
    hide LiveItems, Inserts, DistinctIds, Sees, NewIdsAre, InsertOf, Alive, Values, Rank, NewId, Missing;
    var ops, newIds: map<OpId, OpId>, last, i := [], map[], t, 0;
    ghost var j: nat := 0;
    InsertsNone(target, kept, t);
    RankStart(s);
    while i < |items|
      invariant 0 <= i <= |items| && j == Rank(s, i) && j <= |target|
      invariant |ops| == Missing(target, kept, j) && ops == Inserts(target, kept, t, j) && last == After(t, |ops|)
      invariant NewIdsAre(newIds, target, kept, t, j) && |newIds| == |ops|
      invariant Room(t, |ops|)
    {
      RankStep(s, i);
      if !items[i].tombstoned {
        InsertsNext(target, kept, t, j);
        MissingGrows(target, kept, j + 1, |target|);
        NewIdsNext(newIds, target, kept, t, j);
        SeesAt(visibleA, target, kept, j);
        assert order[j] == items[i].id;
        if !Alive(visibleA, items[i].id) {
          if |newIds| + 1 > MAX_RESTORE_OPS {
            return TooMany;
          }
          var next := NextStamp(last);
          if next.Err? {
            return Exhausted(next.code);
          }
          last := next.value;
          var op := InsertFor(items[i], pos[items[i].id], order, visibleA, newIds, last, target, kept, t);
          newIds := newIds[items[i].id := op.id];
          ops := ops + [op];
        }
        j := j + 1;
      }
      i := i + 1;
    }
    RankEnd(s);
    return Emitted(ops);
  }

  lemma RankStart(s: seq<Item>)
    ensures Rank(s, 0) == 0
  {
  }

  lemma RankEnd(s: seq<Item>)
    ensures Rank(s, |s|) == |LiveItems(s)|
  {
    assert s[..|s|] == s;
  }

  lemma RankStep(s: seq<Item>, i: int)
    requires 0 <= i < |s|
    ensures Rank(s, i + 1) == Rank(s, i) + (if s[i].tombstoned then 0 else 1)
    ensures !s[i].tombstoned ==> Rank(s, i) < |LiveItems(s)| && LiveItems(s)[Rank(s, i)] == s[i]
  {
    hide LiveItems, Rank;
    RankNext(s, i);
    if !s[i].tombstoned { LiveAt(s, i); }
  }

  lemma SeesAt(visibleA: map<OpId, bool>, target: seq<Item>, kept: set<OpId>, j: nat)
    requires Sees(visibleA, target, kept) && j < |target|
    ensures Alive(visibleA, target[j].id) <==> target[j].id in kept
  {
  }

  lemma InsertsNone(target: seq<Item>, kept: set<OpId>, t: Stamp)
    ensures Inserts(target, kept, t, 0) == [] && NewIdsAre(map[], target, kept, t, 0)
  {
  }

  lemma InsertsNext(target: seq<Item>, kept: set<OpId>, t: Stamp, j: nat)
    requires j < |target|
    ensures var ops := Inserts(target, kept, t, j);
            && Inserts(target, kept, t, j + 1)
               == (if target[j].id in kept then ops else ops + [InsertOf(target, kept, t, j)])
            && Missing(target, kept, j + 1) == |ops| + (if target[j].id in kept then 0 else 1)
            && |ops| == Missing(target, kept, j)
            && InsertOf(target, kept, t, j).Insert?
            && (target[j].id !in kept ==> InsertOf(target, kept, t, j).id == NewId(target, kept, t, j))
  {
    hide NextKept, InitialAttrs;
  }

  // -------------------------------------------------------- pass 3: attribute writes

  /** Room for `n` more operations after `used` ones. */
  predicate RoomFor(t: Stamp, used: nat, n: nat) {
    n == 0 || (used + n <= MAX_RESTORE_OPS && t.counter + n <= MAX_COUNTER && t.lamport + n <= MAX_LAMPORT)
  }

  lemma {:induction false} WritesGrow(x: AttrMap, y: AttrMap, id: OpId, names: seq<Bytes>, t: Stamp, k: int)
    requires 0 <= k <= |names|
    ensures |Writes(x, y, id, names[..k], t)| <= |Writes(x, y, id, names, t)|
    decreases |names| - k
  {
    hide ValueIn;
    if k == |names| {
      assert names[..k] == names;
    } else {
      assert names[..k + 1][..k] == names[..k];
      WritesGrow(x, y, id, names, t, k + 1);
    }
  }

  function DiffValueIn(values: map<Bytes, Option<Bytes>>, name: Bytes): Option<Bytes> {
    if name in values then values[name] else None
  }

  lemma WritesNext(x: AttrMap, y: AttrMap, id: OpId, names: seq<Bytes>, t: Stamp, k: int)
    requires 0 <= k < |names|
    ensures var ops, name := Writes(x, y, id, names[..k], t), names[k];
            Writes(x, y, id, names[..k + 1], t) ==
            if DiffValueIn(Values(x), name) == DiffValueIn(Values(y), name) then ops
            else ops + [SetAttr(IdOf(After(t, |ops| + 1)), t.lamport + |ops| + 1, Some(id), name,
                                DiffValueIn(Values(y), name))]
  {
    hide ValueIn, DiffValueIn, Values;
    assert names[..k + 1][..k] == names[..k];
    ValuesAgree(x, names[k]);
    ValuesAgree(y, names[k]);
  }

  lemma ValuesAgree(attrs: AttrMap, name: Bytes)
    ensures DiffValueIn(Values(attrs), name) == ValueIn(attrs, name)
  {
  }

  lemma WritesNone(x: AttrMap, y: AttrMap, id: OpId, names: seq<Bytes>, t: Stamp)
    ensures Writes(x, y, id, names[..0], t) == []
  {
  }

  /** One write for every register whose value differs. */
  method EmitWrites(xs: map<Bytes, Option<Bytes>>, ys: map<Bytes, Option<Bytes>>, id: OpId, names: seq<Bytes>, t: Stamp,
                    used: nat, ghost x: AttrMap, ghost y: AttrMap)
      returns (r: Emission)
    requires xs == Values(x) && ys == Values(y)
    ensures r.Emitted? ==> r.ops == Writes(x, y, id, names, t)
    ensures r.Emitted? <==> RoomFor(t, used, |Writes(x, y, id, names, t)|)
  {
    hide Writes, Values, DiffValueIn;
    var ops, last, k := [], t, 0;
    WritesNone(x, y, id, names, t);
    while k < |names|
      invariant 0 <= k <= |names|
      invariant ops == Writes(x, y, id, names[..k], t) && last == After(t, |ops|)
      invariant RoomFor(t, used, |ops|)
    {
      WritesNext(x, y, id, names, t, k);
      WritesGrow(x, y, id, names, t, k + 1);
      if DiffValueIn(xs, names[k]) != DiffValueIn(ys, names[k]) {
        var next := NextStamp(last);
        if next.Err? {
          return Exhausted(next.code);
        }
        last := next.value;
        ops := ops + [SetAttr(IdOf(last), last.lamport, Some(id), names[k], DiffValueIn(ys, names[k]))];
        if used + |ops| > MAX_RESTORE_OPS {
          return TooMany;
        }
      }
      k := k + 1;
    }
    assert names[..k] == names;
    return Emitted(ops);
  }

  lemma {:induction false} SyncsGrow(current: seq<Item>, target: seq<Item>, kept: set<OpId>, t: Stamp, j: nat, n: nat)
    requires j <= n <= |target|
    ensures |Syncs(current, target, kept, t, j)| <= |Syncs(current, target, kept, t, n)|
    decreases n
  {
    hide WritesFor, ItemWithId;
    if j < n { SyncsGrow(current, target, kept, t, j, n - 1); }
  }

  lemma SyncsNext(current: seq<Item>, target: seq<Item>, kept: set<OpId>, t: Stamp, j: nat)
    requires j < |target|
    ensures var ops, x := Syncs(current, target, kept, t, j), ItemWithId(current, target[j].id);
            Syncs(current, target, kept, t, j + 1) ==
            if target[j].id !in kept || x.None? then ops
            else ops + WritesFor(x.value.attrs, target[j].attrs, target[j].id, After(t, |ops|))
  {
    hide WritesFor, ItemWithId;
  }

  lemma SyncsNone(current: seq<Item>, target: seq<Item>, kept: set<OpId>, t: Stamp)
    ensures Syncs(current, target, kept, t, 0) == []
  {
  }

  /** The current document's version of a kept item, found through its position. */
  lemma {:induction false} CurrentVersion(a: seq<Item>, p: int)
    requires Unique(Skel(a)) && 0 <= p < |a| && a[p].id in IdsOf(LiveItems(a))
    ensures ItemWithId(LiveItems(a), a[p].id) == Some(a[p])
  {
    hide LiveItems, IdsOf, ItemWithId;
    LiveIds(a, p);
    LiveAt(a, p);
    LivesDistinct(a);
    ItemFound(LiveItems(a), Rank(a, p));
  }

  /** Room used up by a part is missing for the whole. */
  lemma RoomSplit(t: Stamp, used: nat, m: nat, n: nat)
    requires RoomFor(t, used, m)
    ensures RoomFor(After(t, m), used + m, n) <==> RoomFor(t, used, m + n)
  {
  }

  method SyncItem(itemsA: seq<DiffItem>, aIndex: map<OpId, nat>, item: DiffItem, last: Stamp, used: nat,
                  ghost a: seq<Item>, ghost y: Item) returns (r: Emission, ghost x: AttrMap)
    requires itemsA == DiffsOf(a) && Unique(Skel(a)) && item == DiffOf(y) && y.id in IdsOf(LiveItems(a))
    requires forall id :: id in aIndex ==> aIndex[id] < |itemsA| && itemsA[aIndex[id]].id == id
    requires forall k :: 0 <= k < |a| ==> a[k].id in aIndex && aIndex[a[k].id] == k
    ensures ItemWithId(LiveItems(a), y.id).Some? && x == ItemWithId(LiveItems(a), y.id).value.attrs
    ensures r.Emitted? ==> r.ops == WritesFor(x, y.attrs, y.id, last)
    ensures r.Emitted? <==> RoomFor(last, used, |WritesFor(x, y.attrs, y.id, last)|)
  {
    hide LiveItems, IdsOf, ItemWithId, Writes, SortedNames;
    LiveIdsFrom(a, y.id);
    var p := aIndex[item.id];
    CurrentVersion(a, p);
    var aItem := itemsA[p];
    x := a[p].attrs;
    assert aItem.attrs.Keys == x.Keys && item.attrs.Keys == y.attrs.Keys;
    r := EmitWrites(aItem.attrs, item.attrs, item.id, SortedNames(aItem.attrs.Keys + item.attrs.Keys), last, used, x,
                    y.attrs);
  }

  /** SETATTR operations on kept items, in the order of the target document. */
  method EmitSyncs(itemsA: seq<DiffItem>, aIndex: map<OpId, nat>, items: seq<DiffItem>, visibleA: map<OpId, bool>,
                   t: Stamp, used: nat, ghost a: seq<Item>, ghost s: seq<Item>, ghost target: seq<Item>,
                   ghost kept: set<OpId>)
      returns (r: Emission)
    requires itemsA == DiffsOf(a) && Unique(Skel(a)) && items == DiffsOf(s) && target == LiveItems(s)
    requires kept == IdsOf(LiveItems(a)) * IdsOf(target) && Sees(visibleA, target, kept)
    requires forall id :: id in aIndex ==> aIndex[id] < |itemsA| && itemsA[aIndex[id]].id == id
    requires forall k :: 0 <= k < |a| ==> a[k].id in aIndex && aIndex[a[k].id] == k
    ensures r.Emitted? ==> r.ops == Syncs(LiveItems(a), target, kept, t, |target|)
    ensures r.Emitted? <==> RoomFor(t, used, |Syncs(LiveItems(a), target, kept, t, |target|)|)
  {
    hide LiveItems, Syncs, Sees, Alive, Values, Rank, WritesFor, IdsOf, RoomFor, ItemWithId;
    var ops, last, i := [], t, 0;
    ghost var j: nat, current := 0, LiveItems(a);
    SyncsNone(current, target, kept, t);
    RankStart(s);
    RoomNone(t, used);
    while i < |items|
      invariant 0 <= i <= |items| && j == Rank(s, i) && j <= |target|
      invariant ops == Syncs(current, target, kept, t, j) && last == After(t, |ops|)
      invariant RoomFor(t, used, |ops|)
    {
      RankStep(s, i);
      if !items[i].tombstoned {
        SyncsNext(current, target, kept, t, j);
        SyncsGrow(current, target, kept, t, j + 1, |target|);
        SeesAt(visibleA, target, kept, j);
        if Alive(visibleA, items[i].id) {
          var writes, x := SyncItem(itemsA, aIndex, items[i], last, used + |ops|, a, s[i]);
          ghost var more := WritesFor(x, s[i].attrs, s[i].id, last);
          RoomSplit(t, used, |ops|, |more|);
          if !writes.Emitted? {
            RoomLess(t, used, |ops| + |more|, |Syncs(current, target, kept, t, |target|)|);
            return writes;
          }
          ops := ops + writes.ops;
          last := After(last, |writes.ops|);
        }
        j := j + 1;
      }
      i := i + 1;
    }
    RankEnd(s);
    return Emitted(ops);
  }

  lemma RoomNone(t: Stamp, used: nat)
    ensures RoomFor(t, used, 0)
  {
  }

  lemma RoomLess(t: Stamp, used: nat, m: nat, n: nat)
    requires m <= n && !RoomFor(t, used, m)
    ensures !RoomFor(t, used, n)
  {
  }
}
