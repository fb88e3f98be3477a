/** The canonical state encoding (cpp/crdt/src/digest.cpp) and the reader through
    which the restore command sees a document (cpp/worker/main.cpp). */
module Canonical {
  import opened Types
  import opened Wire
  import opened Codec
  import opened Names
  import opened ItemCodec
  import opened Snapshot
  import S = State

  // ------------------------------------------------------------------- encoding

  predicate IdLess(a: OpId, b: OpId) {
    a.replica < b.replica || (a.replica == b.replica && a.counter < b.counter)
  }

  predicate AscendingIds(ids: seq<OpId>) {
    forall i, j :: 0 <= i < j < |ids| ==> IdLess(ids[i], ids[j])
  }

  /** The canonical listing: the sorted copy made before the pairs are written. */
  ghost predicate CanonicalListing(d: S.Doc, ids: seq<OpId>, rows: seq<OpId>) {
    AscendingIds(ids) && AscendingIds(rows) && ListsIds(ids, d.applied) && ListsRows(rows, d.summary.contiguous)
  }

  function CanonicalBytes(items: seq<Item>, ids: seq<OpId>, rows: seq<OpId>): Bytes
    requires AllEncodable(items)
  {
    ItemSection(items) + (CountedPairs(ids) + CountedPairs(rows))
  }

  /** Sorting leaves no freedom. */
  lemma {:induction false} AscendingUnique(a: seq<OpId>, b: seq<OpId>)
    requires AscendingIds(a) && AscendingIds(b) && forall id :: id in a <==> id in b
    ensures a == b
    decreases |a|
  {
    if |a| == 0 {
      if |b| > 0 { HasMember(b); }
    } else {
      assert a[0] in a;
      assert |b| > 0;
      assert b[0] in b;
      HeadLeast(a, b);
      HeadLeast(b, a);
      TailMembers(a);
      TailMembers(b);
      AscendingUnique(a[1..], b[1..]);
      assert a == [a[0]] + a[1..] && b == [b[0]] + b[1..];
    }
  }

  lemma HasMember(a: seq<OpId>)
    requires |a| > 0
    ensures exists id :: id in a
  {
    assert a[0] in a;
  }

  lemma HeadLeast(a: seq<OpId>, b: seq<OpId>)
    requires AscendingIds(a) && |a| > 0 && |b| > 0 && b[0] in a
    ensures a[0] == b[0] || IdLess(a[0], b[0])
  {
    var i :| 0 <= i < |a| && a[i] == b[0];
  }

  lemma TailMembers(a: seq<OpId>)
    requires AscendingIds(a) && |a| > 0
    ensures AscendingIds(a[1..]) && forall id :: id in a[1..] <==> id in a && id != a[0]
  {
    assert a == [a[0]] + a[1..];
    forall id | id in a[1..] ensures id != a[0] {
      var i :| 0 <= i < |a[1..]| && a[1..][i] == id;
      assert IdLess(a[0], a[i + 1]);
    }
  }

  /** Equal states have equal canonical bytes. */
  lemma SameStateSameBytes(d1: S.Doc, d2: S.Doc, ids1: seq<OpId>, rows1: seq<OpId>, ids2: seq<OpId>, rows2: seq<OpId>)
    requires d1.stream == d2.stream && d1.applied == d2.applied && d1.summary == d2.summary && AllEncodable(d1.stream)
    requires CanonicalListing(d1, ids1, rows1) && CanonicalListing(d2, ids2, rows2)
    ensures CanonicalBytes(d1.stream, ids1, rows1) == CanonicalBytes(d2.stream, ids2, rows2)
  {
    AscendingUnique(ids1, ids2);
    AscendingUnique(rows1, rows2);
  }

  lemma CanonicalPieces(bytes: Bytes, items: seq<Item>, ids: seq<OpId>, rows: seq<OpId>)
    requires AllEncodable(items) && bytes == CanonicalBytes(items, ids, rows)
    ensures At(bytes, 0, ItemSection(items)) && At(bytes, |ItemSection(items)|, CountedPairs(ids))
    ensures At(bytes, |ItemSection(items)| + |CountedPairs(ids)|, CountedPairs(rows))
  {
    hide At, ItemSection, CountedPairs;
    AtWhole(bytes, bytes);
    AtBoth(bytes, 0, ItemSection(items), CountedPairs(ids) + CountedPairs(rows));
    AtBoth(bytes, |ItemSection(items)|, CountedPairs(ids), CountedPairs(rows));
  }

  lemma RowsDetermine(rows: seq<OpId>, c1: map<nat, nat>, c2: map<nat, nat>)
    requires ListsRows(rows, c1) && ListsRows(rows, c2)
    ensures c1 == c2
  {
    forall r ensures r in c1 <==> r in c2 {
      if r in c1 { assert OpId(r, c1[r]) in rows; }
      if r in c2 { assert OpId(r, c2[r]) in rows; }
    }
    forall r | r in c1 ensures c1[r] == c2[r] {
      assert OpId(r, c1[r]) in rows;
    }
  }

  /** Equal canonical bytes come from equal item streams, down to every register,
      equal applied sets and equal contiguous counters. */
  lemma SameBytesSameState(reg: Registry, d1: S.Doc, d2: S.Doc, ids1: seq<OpId>, rows1: seq<OpId>,
                           ids2: seq<OpId>, rows2: seq<OpId>)
    requires AllStorable(reg, d1.stream) && AllStorable(reg, d2.stream) && AllEncodable(d1.stream)
             && AllEncodable(d2.stream)
    requires |d1.stream| < U32_END && |d2.stream| < U32_END
    requires AllFit(ids1) && AllFit(rows1) && AllFit(ids2) && AllFit(rows2)
    requires CanonicalListing(d1, ids1, rows1) && CanonicalListing(d2, ids2, rows2)
    requires Small(CanonicalBytes(d1.stream, ids1, rows1))
    requires CanonicalBytes(d1.stream, ids1, rows1) == CanonicalBytes(d2.stream, ids2, rows2)
    ensures d1.stream == d2.stream && d1.applied == d2.applied && d1.summary.contiguous == d2.summary.contiguous
  {
    var bytes := CanonicalBytes(d1.stream, ids1, rows1);
    CanonicalReads(reg, bytes, d1.stream, ids1, rows1);
    CanonicalReads(reg, bytes, d2.stream, ids2, rows2);
    RowsDetermine(rows1, d1.summary.contiguous, d2.summary.contiguous);
  }

  lemma CanonicalReads(reg: Registry, bytes: Bytes, items: seq<Item>, ids: seq<OpId>, rows: seq<OpId>)
    requires AllStorable(reg, items) && AllEncodable(items) && |items| < U32_END && AllFit(ids) && AllFit(rows)
    requires Small(bytes) && bytes == CanonicalBytes(items, ids, rows)
    ensures var i := ReadItemSection(reg, bytes, 0);
            i.Got? && i.value == items
            && var a := ReadCountedPairs(bytes, i.next);
               a.Got? && a.value == ids
               && var r := ReadCountedPairs(bytes, a.next); r.Got? && r.value == rows
  {
    hide *;
    CanonicalPieces(bytes, items, ids, rows);
    ItemSectionReads(reg, bytes, 0, items);
    CountedPairsRead(bytes, |ItemSection(items)|, ids);
    CountedPairsRead(bytes, |ItemSection(items)| + |CountedPairs(ids)|, rows);
  }

  // --------------------------------------------------------- the restore's reader

  /** What the restore command keeps of an item: register values, not their keys. */
  datatype DiffItem = DiffItem(id: OpId, left: Option<OpId>, right: Option<OpId>, kind: ItemKind, scalar: nat,
                               tombstoned: bool, attrs: map<Bytes, Option<Bytes>>)

  function Values(attrs: AttrMap): map<Bytes, Option<Bytes>> {
    map name | name in attrs :: attrs[name].value
  }

  function DiffOf(item: Item): DiffItem {
    DiffItem(item.id, item.left, item.right, item.kind, item.scalar, item.tombstoned, Values(item.attrs))
  }

  function DiffsOf(items: seq<Item>): (r: seq<DiffItem>)
    ensures |r| == |items| && forall i :: 0 <= i < |r| ==> r[i] == DiffOf(items[i])
  {
    seq(|items|, i requires 0 <= i < |items| => DiffOf(items[i]))
  }

  const DIFF_LIMIT: nat := 4096

  function Max(a: nat, b: nat): nat {
    if a < b then b else a
  }

  function DiffOptId(bytes: Bytes, o: nat): Read<Option<OpId>> {
    var id := GetOptId(bytes, o);
    if id.Got? && id.value.Some? && !id.value.value.Valid() then Fail else id
  }

  function DiffValue(bytes: Bytes, o: nat): Read<Option<Bytes>> {
    var flag := GetByte(bytes, o);
    if flag.Fail? then Fail
    else if flag.value == 0 then Got(None, flag.next)
    else if flag.value != 1 then Fail
    else
      var v := GetString(bytes, flag.next, DIFF_LIMIT);
      if v.Fail? then Fail else Got(Some(v.value), v.next)
  }

  datatype DiffRegister = DiffRegister(name: Bytes, value: Option<Bytes>, lamport: nat)

  function ReadDiffRegister(bytes: Bytes, o: nat): Read<DiffRegister> {
    var name := GetString(bytes, o, DIFF_LIMIT);
    if name.Fail? then Fail
    else
      var value := DiffValue(bytes, name.next);
      if value.Fail? then Fail
      else
        var lamport := GetLe(bytes, value.next, 8);
        if lamport.Fail? then Fail
        else
          var writer := GetLe(bytes, lamport.next, 8);
          if writer.Fail? || !(1 <= lamport.value <= MAX_LAMPORT) then Fail
          else Got(DiffRegister(name.value, value.value, lamport.value), writer.next)
  }

  function ReadDiffRegisters(bytes: Bytes, o: nat, n: nat, attrs: map<Bytes, Option<Bytes>>, top: nat)
    : Read<(map<Bytes, Option<Bytes>>, nat)>
    decreases n
  {
    if n == 0 then Got((attrs, top), o)
    else
      var r := ReadDiffRegister(bytes, o);
      if r.Fail? then Fail
      else
        ReadDiffRegisters(bytes, r.next, n - 1,
                          if r.value.name in attrs then attrs else attrs[r.value.name := r.value.value],
                          Max(top, r.value.lamport))
  }

  function ReadDiffItem(bytes: Bytes, o: nat, top: nat): Read<(DiffItem, nat)> {
    var id := GetId(bytes, o);
    if id.Fail? then Fail
    else
      var left := DiffOptId(bytes, id.next);
      if left.Fail? then Fail
      else
        var right := DiffOptId(bytes, left.next);
        if right.Fail? then Fail
        else
          var kind := GetByte(bytes, right.next);
          if kind.Fail? then Fail
          else
            var tombstone := GetByte(bytes, kind.next);
            if tombstone.Fail? || !id.value.Valid() || (kind.value != 1 && kind.value != 2) || tombstone.value > 1 then
              Fail
            else
              var scalar := if kind.value == 2 then Ok((0, tombstone.next)) else ParseScalar(bytes, tombstone.next);
              if scalar.Err? then Fail
              else
                var count := GetLe(bytes, scalar.value.1, 4);
                if count.Fail? then Fail
                else
                  var attrs := ReadDiffRegisters(bytes, count.next, count.value, map[], top);
                  if attrs.Fail? then Fail
                  else
                    var k := if kind.value == 1 then Text else Delimiter;
                    Got((DiffItem(id.value, left.value, right.value, k, scalar.value.0, tombstone.value == 1,
                                  attrs.value.0),
                         attrs.value.1), attrs.next)
  }

  function ReadDiffItems(bytes: Bytes, o: nat, n: nat, top: nat): Read<(seq<DiffItem>, nat)>
    decreases n
  {
    if n == 0 then Got(([], top), o)
    else
      var head := ReadDiffItem(bytes, o, top);
      if head.Fail? then Fail
      else
        var tail := ReadDiffItems(bytes, head.next, n - 1, head.value.1);
        if tail.Fail? then Fail else Got(([head.value.0] + tail.value.0, tail.value.1), tail.next)
  }

  datatype DiffState = DiffState(items: seq<DiffItem>, maxLamport: nat)

  /** The items of a canonical encoding and their highest register clock; what
      follows the items is ignored. */
  function ReadDiffState(bytes: Bytes): Option<DiffState> {
    var count := GetLe(bytes, 0, 4);
    if count.Fail? then None
    else
      var items := ReadDiffItems(bytes, count.next, count.value, 0);
      if items.Fail? then None else Some(DiffState(items.value.0, items.value.1))
  }

  // ------------------------------------------------------------ the highest clock

  function TopRegister(attrs: AttrMap, names: seq<Bytes>, top: nat): nat
    requires forall i :: 0 <= i < |names| ==> names[i] in attrs
  {
    if |names| == 0 then top else TopRegister(attrs, names[1..], Max(top, attrs[names[0]].lamport))
  }

  function TopItem(item: Item, top: nat): nat {
    NamesPresent(item.attrs);
    TopRegister(item.attrs, SortedNames(item.attrs.Keys), top)
  }

  function TopItems(items: seq<Item>, top: nat): nat {
    if |items| == 0 then top else TopItems(items[1..], TopItem(items[0], top))
  }

  ghost predicate HasLamport(items: seq<Item>, lamport: nat) {
    exists i, name :: 0 <= i < |items| && name in items[i].attrs && items[i].attrs[name].lamport == lamport
  }

  lemma {:induction false} TopRegisterIs(attrs: AttrMap, names: seq<Bytes>, top: nat)
    requires forall i :: 0 <= i < |names| ==> names[i] in attrs
    ensures var r := TopRegister(attrs, names, top);
            && r >= top && (forall i :: 0 <= i < |names| ==> attrs[names[i]].lamport <= r)
            && (r == top || exists i :: 0 <= i < |names| && attrs[names[i]].lamport == r)
    decreases |names|
  {
    if |names| > 0 {
      TopRegisterIs(attrs, names[1..], Max(top, attrs[names[0]].lamport));
      var r := TopRegister(attrs, names, top);
      forall i | 0 <= i < |names| ensures attrs[names[i]].lamport <= r {
        if i > 0 { assert names[1..][i - 1] == names[i]; }
      }
      if r != top && r != attrs[names[0]].lamport {
        var i :| 0 <= i < |names[1..]| && attrs[names[1..][i]].lamport == r;
        assert names[i + 1] == names[1..][i];
      }
    }
  }

  lemma TopItemIs(item: Item, top: nat)
    ensures var r := TopItem(item, top);
            && r >= top && (forall name :: name in item.attrs ==> item.attrs[name].lamport <= r)
            && (r == top || exists name :: name in item.attrs && item.attrs[name].lamport == r)
  {
    NamesPresent(item.attrs);
    var names := SortedNames(item.attrs.Keys);
    TopRegisterIs(item.attrs, names, top);
    forall name | name in item.attrs ensures item.attrs[name].lamport <= TopItem(item, top) {
      assert name in names;
      var i :| 0 <= i < |names| && names[i] == name;
    }
  }

  /** The clock found is an upper bound of all register clocks and one of them. */
  lemma {:induction false} TopItemsIs(items: seq<Item>, top: nat)
    ensures var r := TopItems(items, top);
            && r >= top
            && (forall i, name :: 0 <= i < |items| && name in items[i].attrs ==> items[i].attrs[name].lamport <= r)
            && (r == top || HasLamport(items, r))
    decreases |items|
  {
    hide TopItem;
    if |items| > 0 {
      TopItemIs(items[0], top);
      var mid, rest := TopItem(items[0], top), items[1..];
      TopItemsIs(rest, mid);
      var r := TopItems(items, top);
      forall i, name | 0 <= i < |items| && name in items[i].attrs ensures items[i].attrs[name].lamport <= r {
        if i > 0 { assert rest[i - 1] == items[i]; }
      }
      if r != top {
        if r != mid {
          var i, name :| 0 <= i < |rest| && name in rest[i].attrs && rest[i].attrs[name].lamport == r;
          assert items[i + 1] == rest[i];
        } else {
          var name :| name in items[0].attrs && items[0].attrs[name].lamport == r;
        }
      }
    }
  }

  // ------------------------------------------------------- reading what was written

  /** What the field types bound. */
  predicate WiredRegister(name: Bytes, r: Register) {
    |name| < U64_END && (r.value.Some? ==> |r.value.value| < U64_END) && r.lamport < U64_END && r.writer < U64_END
  }

  predicate Wired(item: Item) {
    && Fits(item.id) && FitsOpt(item.left) && FitsOpt(item.right) && Encodable(item.kind, item.scalar)
    && |item.attrs| < U32_END
    && (forall name :: name in item.attrs ==> WiredRegister(name, item.attrs[name]))
  }

  predicate AllWired(items: seq<Item>) {
    |items| < U32_END && forall i :: 0 <= i < |items| ==> Wired(items[i])
  }

  /** The reader's own limits. */
  predicate DiffableRegister(name: Bytes, r: Register) {
    |name| <= DIFF_LIMIT && (r.value.Some? ==> |r.value.value| <= DIFF_LIMIT) && 1 <= r.lamport <= MAX_LAMPORT
  }

  predicate DiffableAnchor(id: Option<OpId>) {
    id.Some? ==> id.value.Valid()
  }

  predicate Diffable(item: Item) {
    && item.id.Valid() && DiffableAnchor(item.left) && DiffableAnchor(item.right)
    && (item.kind == Text ==> item.scalar != 0)
    && (forall name :: name in item.attrs ==> DiffableRegister(name, item.attrs[name]))
  }

  predicate AllDiffable(items: seq<Item>) {
    forall i :: 0 <= i < |items| ==> Diffable(items[i])
  }

  lemma DiffStringReads(bytes: Bytes, o: nat, s: Bytes)
    requires At(bytes, o, StringBytes(s)) && |s| < U64_END
    ensures GetString(bytes, o, DIFF_LIMIT) == if |s| <= DIFF_LIMIT then Got(s, o + 8 + |s|) else Fail
  {
    hide Le, Pow256, GetLe;
    Widths();
    AtBoth(bytes, o, Le(|s|, 8), s);
    LeExact(bytes, o, 8, |s|, o + 8);
  }

  lemma DiffValueReads(bytes: Bytes, o: nat, v: Option<Bytes>)
    requires At(bytes, o, ValueBytes(v)) && (v.Some? ==> |v.value| < U64_END)
    ensures DiffValue(bytes, o) ==
            if v.Some? && |v.value| > DIFF_LIMIT then Fail else Got(v, o + |ValueBytes(v)|)
  {
    hide At, GetString, StringBytes, GetByte;
    if v.Some? {
      StringLength(v.value);
      AtBoth(bytes, o, [1], StringBytes(v.value));
      ByteExact(bytes, o, 1, o + 1);
      DiffStringReads(bytes, o + 1, v.value);
    } else {
      ByteExact(bytes, o, 0, o + 1);
    }
  }

  lemma DiffRegisterReads(bytes: Bytes, o: nat, name: Bytes, r: Register)
    requires At(bytes, o, RegisterBytes(name, r)) && WiredRegister(name, r)
    ensures ReadDiffRegister(bytes, o) ==
            if DiffableRegister(name, r) then Got(DiffRegister(name, r.value, r.lamport), o + |RegisterBytes(name, r)|)
            else Fail
  {
    hide At, GetString, DiffValue, StringBytes, ValueBytes, RegisterBytes, Le, GetLe, Pow256;
    Widths();
    RegisterPieces(bytes, o, name, r);
    var p := o + 8 + |name| + |ValueBytes(r.value)|;
    DiffStringReads(bytes, o, name);
    DiffValueReads(bytes, o + 8 + |name|, r.value);
    LeExact(bytes, p, 8, r.lamport, p + 8);
    LeExact(bytes, p + 8, 8, r.writer, p + 16);
  }

  /** `done` holds the values of `attrs` but for the listed names. */
  ghost predicate Left(attrs: AttrMap, names: seq<Bytes>, done: map<Bytes, Option<Bytes>>) {
    && (forall x :: x in done <==> x in attrs && x !in names)
    && (forall x :: x in done ==> done[x] == attrs[x].value)
  }

  lemma LeftNext(attrs: AttrMap, names: seq<Bytes>, done: map<Bytes, Option<Bytes>>)
    requires |names| > 0 && Left(attrs, names, done) && names[0] in attrs && names[0] !in names[1..]
    ensures names[0] !in done && Left(attrs, names[1..], done[names[0] := attrs[names[0]].value])
  {
    assert names == [names[0]] + names[1..];
  }

  lemma LeftNone(attrs: AttrMap, done: map<Bytes, Option<Bytes>>)
    requires Left(attrs, [], done)
    ensures done == Values(attrs)
  {
  }

  lemma AllLeft(attrs: AttrMap)
    ensures Left(attrs, SortedNames(attrs.Keys), map[])
  {
    assert forall x :: x in SortedNames(attrs.Keys) <==> x in attrs.Keys;
  }

  predicate ListedDiffable(attrs: AttrMap, names: seq<Bytes>) {
    forall i :: 0 <= i < |names| ==> names[i] in attrs && DiffableRegister(names[i], attrs[names[i]])
  }

  lemma ListedNext(attrs: AttrMap, names: seq<Bytes>)
    requires |names| > 0 && names[0] in attrs
    ensures ListedDiffable(attrs, names) <==>
              DiffableRegister(names[0], attrs[names[0]]) && ListedDiffable(attrs, names[1..])
  {
    assert names == [names[0]] + names[1..];
  }

  lemma {:induction false} DiffRegistersRead(bytes: Bytes, o: nat, attrs: AttrMap, names: seq<Bytes>,
                                             done: map<Bytes, Option<Bytes>>, top: nat)
    requires Ascending(names) && Left(attrs, names, done)
    requires forall i :: 0 <= i < |names| ==> names[i] in attrs
    requires forall name :: name in attrs ==> WiredRegister(name, attrs[name])
    requires At(bytes, o, RegistersBytes(attrs, names))
    ensures ReadDiffRegisters(bytes, o, |names|, done, top) ==
            if ListedDiffable(attrs, names) then
              Got((Values(attrs), TopRegister(attrs, names, top)), o + |RegistersBytes(attrs, names)|)
            else Fail
    decreases |names|
  {
    hide At, ReadDiffRegister, RegisterBytes, DiffableRegister, WiredRegister, Left, Less, Values, ListedDiffable;
    if |names| == 0 {
      LeftNone(attrs, done);
      ListedNone(attrs);
    } else {
      var name, rest := names[0], names[1..];
      AtBoth(bytes, o, RegisterBytes(name, attrs[name]), RegistersBytes(attrs, rest));
      DiffRegisterReads(bytes, o, name, attrs[name]);
      AscendingTail(names);
      LeftNext(attrs, names, done);
      ListedNext(attrs, names);
      DiffRegistersRead(bytes, o + |RegisterBytes(name, attrs[name])|, attrs, rest, done[name := attrs[name].value],
                        Max(top, attrs[name].lamport));
    }
  }

  lemma ListedNone(attrs: AttrMap)
    ensures ListedDiffable(attrs, [])
  {
  }

  lemma ListedAll(attrs: AttrMap)
    ensures ListedDiffable(attrs, SortedNames(attrs.Keys)) <==>
            forall name :: name in attrs ==> DiffableRegister(name, attrs[name])
  {
    hide DiffableRegister;
    var names := SortedNames(attrs.Keys);
    NamesPresent(attrs);
    forall name | name in attrs ensures exists i :: 0 <= i < |names| && names[i] == name {
      assert name in names;
    }
  }

  lemma DiffAttrsRead(bytes: Bytes, o: nat, item: Item, top: nat)
    requires |item.attrs| < U32_END && At(bytes, o, AttrMapBytes(item.attrs))
    requires forall name :: name in item.attrs ==> WiredRegister(name, item.attrs[name])
    ensures GetLe(bytes, o, 4) == Got(|item.attrs|, o + 4)
    ensures ReadDiffRegisters(bytes, o + 4, |item.attrs|, map[], top) ==
            if forall name :: name in item.attrs ==> DiffableRegister(name, item.attrs[name]) then
              Got((Values(item.attrs), TopItem(item, top)), o + |AttrMapBytes(item.attrs)|)
            else Fail
  {
    hide At, RegistersBytes, DiffableRegister, WiredRegister, Le, GetLe, Pow256, ReadDiffRegisters, Left, TopRegister,
         Values, ListedDiffable;
    Widths();
    var attrs := item.attrs;
    var names := SortedNames(attrs.Keys);
    NamesPresent(attrs);
    KeyCount(attrs);
    AtBoth(bytes, o, Le(|attrs|, 4), RegistersBytes(attrs, names));
    LeExact(bytes, o, 4, |attrs|, o + 4);
    AllLeft(attrs);
    ListedAll(attrs);
    DiffRegistersRead(bytes, o + 4, attrs, names, map[], top);
  }

  lemma DiffAnchorReads(bytes: Bytes, o: nat, id: Option<OpId>)
    requires At(bytes, o, OptIdBytes(id)) && FitsOpt(id)
    ensures DiffOptId(bytes, o) == if DiffableAnchor(id) then Got(id, o + |OptIdBytes(id)|) else Fail
  {
    hide GetOptId, OptIdBytes, At;
    OptIdExact(bytes, o, id, o + |OptIdBytes(id)|);
  }

  lemma DiffItemReads(bytes: Bytes, o: nat, item: Item, top: nat)
    requires Wired(item) && At(bytes, o, ItemBytes(item))
    ensures ReadDiffItem(bytes, o, top) ==
            if Diffable(item) then Got((DiffOf(item), TopItem(item, top)), o + |ItemBytes(item)|) else Fail
  {
    hide At, ItemBytes, GetId, DiffOptId, GetByte, GetLe, ParseScalar, ReadDiffRegisters, IdBytes, OptIdBytes,
         AttrMapBytes, ScalarBytes, DiffableRegister, WiredRegister, DiffableAnchor, TopItem, Values, Fits;
    ItemPieces(bytes, o, item);
    IdExact(bytes, o, item.id, LeftOffset(o));
    DiffAnchorReads(bytes, LeftOffset(o), item.left);
    DiffAnchorReads(bytes, RightOffset(o, item), item.right);
    ByteExact(bytes, KindOffset(o, item), KindByte(item.kind), KindOffset(o, item) + 1);
    ByteExact(bytes, KindOffset(o, item) + 1, TombstoneByte(item), ScalarOffset(o, item));
    if item.kind == Text { ScalarFieldReads(bytes, ScalarOffset(o, item), item.scalar); }
    DiffAttrsRead(bytes, AttrsOffset(o, item), item, top);
  }

  lemma WiredEncodable(items: seq<Item>)
    requires AllWired(items)
    ensures AllEncodable(items)
  {
  }

  lemma {:induction false} DiffItemsRead(bytes: Bytes, o: nat, items: seq<Item>, top: nat)
    requires AllWired(items) && AllEncodable(items) && At(bytes, o, ItemsBytes(items))
    ensures ReadDiffItems(bytes, o, |items|, top) ==
            if AllDiffable(items) then Got((DiffsOf(items), TopItems(items, top)), o + |ItemsBytes(items)|) else Fail
    decreases |items|
  {
    hide At, ReadDiffItem, ItemBytes, Diffable, Wired, Encodable, DiffOf, TopItem;
    if |items| > 0 {
      var mid := o + |ItemBytes(items[0])|;
      AtBoth(bytes, o, ItemBytes(items[0]), ItemsBytes(items[1..]));
      DiffItemReads(bytes, o, items[0], top);
      assert items == [items[0]] + items[1..];
      if Diffable(items[0]) {
        DiffItemsRead(bytes, mid, items[1..], TopItem(items[0], top));
        assert DiffsOf(items) == [DiffOf(items[0])] + DiffsOf(items[1..]);
      }
    } else {
      assert DiffsOf(items) == [];
    }
  }

  /** The restore's reader gets exactly the items, in order, with their origins,
      tombstones and register values, and the highest register clock; it refuses
      precisely the states with an item outside its limits. */
  lemma DiffStateReads(items: seq<Item>, ids: seq<OpId>, rows: seq<OpId>)
    requires AllWired(items) && AllEncodable(items)
    ensures ReadDiffState(CanonicalBytes(items, ids, rows)) ==
            if AllDiffable(items) then Some(DiffState(DiffsOf(items), TopItems(items, 0))) else None
  {
    var bytes := CanonicalBytes(items, ids, rows);
    CanonicalPieces(bytes, items, ids, rows);
    AtBoth(bytes, 0, Le(|items|, 4), ItemsBytes(items));
    hide At, Le, GetLe, Pow256, ItemsBytes, CanonicalBytes, ReadDiffItems, Wired, Diffable, DiffOf, Encodable;
    Widths();
    LeExact(bytes, 0, 4, |items|, 4);
    DiffItemsRead(bytes, 4, items, 0);
  }
}
