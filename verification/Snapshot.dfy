/** Snapshots (cpp/crdt/src/snapshot.cpp): what an export writes and what an
    import rebuilds from it, the counter gaps included. */
module Snapshot {
  import opened Types
  import opened Wire
  import opened Codec
  import opened Batches
  import opened Names
  import opened ItemCodec
  import S = State
  import C = Counters

  const SNAPSHOT_VERSION: byte := 1

  // --------------------------------------------------------------- reading items

  /** A string whose 64-bit length is trusted up to wrap-around of the sum. */
  function SnapString(bytes: Bytes, o: nat): Read<Bytes> {
    var n := GetLe(bytes, o, 8);
    if n.Fail? then Fail
    else
      var end := (n.next + n.value) % U64_END;
      if |bytes| < end then Fail
      else Got(bytes[n.next..if n.next + n.value <= |bytes| then n.next + n.value else |bytes|], end)
  }

  function SnapValue(bytes: Bytes, o: nat): Read<Option<Bytes>> {
    var flag := GetByte(bytes, o);
    if flag.Fail? then Fail
    else if flag.value == 0 then Got(None, flag.next)
    else if flag.value != 1 then Fail
    else
      var v := SnapString(bytes, flag.next);
      if v.Fail? then Fail else Got(Some(v.value), v.next)
  }

  /** One register; the registry, the clock and the writer are checked again. */
  function ReadRegister(reg: Registry, kind: ItemKind, bytes: Bytes, o: nat): Read<(Bytes, Register)> {
    var name := SnapString(bytes, o);
    if name.Fail? then Fail
    else
      var value := SnapValue(bytes, name.next);
      if value.Fail? then Fail
      else
        var lamport := GetLe(bytes, value.next, 8);
        if lamport.Fail? then Fail
        else
          var writer := GetLe(bytes, lamport.next, 8);
          if writer.Fail? || !(1 <= lamport.value <= MAX_LAMPORT) || writer.value == 0
             || !reg.Allows(kind, name.value, value.value) then Fail
          else Got((name.value, Register(value.value, lamport.value, writer.value)), writer.next)
  }

  /** `n` registers; a repeated name keeps its first register. */
  function ReadRegisters(reg: Registry, kind: ItemKind, bytes: Bytes, o: nat, n: nat, attrs: AttrMap): Read<AttrMap>
    decreases n
  {
    if n == 0 then Got(attrs, o)
    else
      var r := ReadRegister(reg, kind, bytes, o);
      if r.Fail? then Fail
      else
        ReadRegisters(reg, kind, bytes, r.next, n - 1,
                      if r.value.0 in attrs then attrs else attrs[r.value.0 := r.value.1])
  }

  function ReadAttrMap(reg: Registry, kind: ItemKind, bytes: Bytes, o: nat): Read<AttrMap> {
    var n := GetLe(bytes, o, 4);
    if n.Fail? then Fail else ReadRegisters(reg, kind, bytes, n.next, n.value, map[])
  }

  function SnapScalar(bytes: Bytes, o: nat): Read<nat> {
    var n := GetByte(bytes, o);
    if n.Fail? || n.value < 1 || n.value > 4 || |bytes| < n.next + n.value then Fail
    else
      var s := GetScalar(bytes[n.next..n.next + n.value], 0);
      if s.Fail? || s.next != n.value then Fail else Got(s.value, n.next + n.value)
  }

  function SnapContent(bytes: Bytes, o: nat, kind: byte): Read<nat> {
    if kind == 1 then SnapScalar(bytes, o) else if kind == 2 then Got(0, o) else Fail
  }

  function ReadItem(reg: Registry, bytes: Bytes, o: nat): Read<Item> {
    var id := GetId(bytes, o);
    if id.Fail? then Fail
    else
      var left := GetOptId(bytes, id.next);
      if left.Fail? then Fail
      else
        var right := GetOptId(bytes, left.next);
        if right.Fail? then Fail
        else
          var kind := GetByte(bytes, right.next);
          if kind.Fail? then Fail
          else
            var tombstone := GetByte(bytes, kind.next);
            if tombstone.Fail? || !id.value.Valid() then Fail
            else
              var scalar := SnapContent(bytes, tombstone.next, kind.value);
              if scalar.Fail? then Fail
              else
                var k := if kind.value == 1 then Text else Delimiter;
                var attrs := ReadAttrMap(reg, k, bytes, scalar.next);
                if attrs.Fail? then Fail
                else Got(Item(id.value, left.value, right.value, k, scalar.value, tombstone.value == 1, attrs.value),
                         attrs.next)
  }

  function ReadItems(reg: Registry, bytes: Bytes, o: nat, n: nat): Read<seq<Item>>
    decreases n
  {
    if n == 0 then Got([], o)
    else
      var head := ReadItem(reg, bytes, o);
      if head.Fail? then Fail
      else
        var tail := ReadItems(reg, bytes, head.next, n - 1);
        if tail.Fail? then Fail else Got([head.value] + tail.value, tail.next)
  }

  function ReadItemSection(reg: Registry, bytes: Bytes, o: nat): Read<seq<Item>> {
    var n := GetLe(bytes, o, 4);
    if n.Fail? then Fail else ReadItems(reg, bytes, n.next, n.value)
  }

  // ------------------------------------------------------------- storable values

  predicate StorableRegister(reg: Registry, kind: ItemKind, name: Bytes, r: Register) {
    && |name| < U32_END && (r.value.Some? ==> |r.value.value| < U32_END)
    && 1 <= r.lamport <= MAX_LAMPORT && 1 <= r.writer < U64_END && reg.Allows(kind, name, r.value)
  }

  predicate StorableItem(reg: Registry, item: Item) {
    && item.id.Valid() && Fits(item.id) && FitsOpt(item.left) && FitsOpt(item.right)
    && Encodable(item.kind, item.scalar) && |item.attrs| < U32_END
    && (forall name :: name in item.attrs ==> StorableRegister(reg, item.kind, name, item.attrs[name]))
  }

  // ------------------------------------------------------------ reading what stands

  /** Offsets within a snapshot stay far below the wrap-around point. */
  predicate Small(bytes: Bytes) {
    |bytes| < U64_END
  }

  lemma StringReads(bytes: Bytes, o: nat, s: Bytes)
    requires Small(bytes) && At(bytes, o, StringBytes(s))
    ensures SnapString(bytes, o) == Got(s, o + 8 + |s|)
  {
    hide Le, Pow256, GetLe;
    Widths();
    AtBoth(bytes, o, Le(|s|, 8), s);
    LeExact(bytes, o, 8, |s|, o + 8);
  }

  lemma ValueReads(bytes: Bytes, o: nat, v: Option<Bytes>)
    requires Small(bytes) && At(bytes, o, ValueBytes(v))
    ensures SnapValue(bytes, o) == Got(v, o + |ValueBytes(v)|)
  {
    hide At, SnapString, StringBytes, GetByte;
    if v.Some? {
      StringLength(v.value);
      AtBoth(bytes, o, [1], StringBytes(v.value));
      ByteExact(bytes, o, 1, o + 1);
      StringReads(bytes, o + 1, v.value);
    } else {
      ByteExact(bytes, o, 0, o + 1);
    }
  }

  lemma RegisterReads(reg: Registry, kind: ItemKind, bytes: Bytes, o: nat, name: Bytes, r: Register)
    requires Small(bytes) && At(bytes, o, RegisterBytes(name, r)) && StorableRegister(reg, kind, name, r)
    ensures ReadRegister(reg, kind, bytes, o) == Got((name, r), o + |RegisterBytes(name, r)|)
  {
    hide At, SnapString, SnapValue, StringBytes, ValueBytes, RegisterBytes, Le, GetLe, Pow256;
    Widths();
    RegisterPieces(bytes, o, name, r);
    var p := o + 8 + |name| + |ValueBytes(r.value)|;
    StringReads(bytes, o, name);
    ValueReads(bytes, o + 8 + |name|, r.value);
    LeExact(bytes, p, 8, r.lamport, p + 8);
    LeExact(bytes, p + 8, 8, r.writer, p + 16);
  }

  /** `done` holds the registers of `attrs` but for the listed names. */
  ghost predicate Remaining(attrs: AttrMap, names: seq<Bytes>, done: AttrMap) {
    && (forall x :: x in done <==> x in attrs && x !in names)
    && (forall x :: x in done ==> done[x] == attrs[x])
  }

  lemma RemainingNext(attrs: AttrMap, names: seq<Bytes>, done: AttrMap)
    requires |names| > 0 && Remaining(attrs, names, done) && names[0] in attrs && names[0] !in names[1..]
    ensures names[0] !in done && Remaining(attrs, names[1..], done[names[0] := attrs[names[0]]])
  {
    assert names == [names[0]] + names[1..];
  }

  lemma {:induction false} RegistersRead(reg: Registry, kind: ItemKind, bytes: Bytes, o: nat, attrs: AttrMap,
                                         names: seq<Bytes>, done: AttrMap)
    requires Small(bytes) && Ascending(names) && Remaining(attrs, names, done)
    requires forall i :: 0 <= i < |names| ==> names[i] in attrs
    requires forall name :: name in attrs ==> StorableRegister(reg, kind, name, attrs[name])
    requires At(bytes, o, RegistersBytes(attrs, names))
    ensures ReadRegisters(reg, kind, bytes, o, |names|, done) == Got(attrs, o + |RegistersBytes(attrs, names)|)
    decreases |names|
  {
    hide At, ReadRegister, RegisterBytes, StorableRegister, Remaining, Less;
    if |names| == 0 {
      RemainingNone(attrs, done);
    } else {
      var name, rest := names[0], names[1..];
      AtBoth(bytes, o, RegisterBytes(name, attrs[name]), RegistersBytes(attrs, rest));
      RegisterReads(reg, kind, bytes, o, name, attrs[name]);
      AscendingTail(names);
      RemainingNext(attrs, names, done);
      RegistersRead(reg, kind, bytes, o + |RegisterBytes(name, attrs[name])|, attrs, rest, done[name := attrs[name]]);
    }
  }

  lemma RemainingNone(attrs: AttrMap, done: AttrMap)
    requires Remaining(attrs, [], done)
    ensures done == attrs
  {
  }

  lemma AscendingTail(names: seq<Bytes>)
    requires |names| > 0 && Ascending(names)
    ensures Ascending(names[1..]) && names[0] !in names[1..]
  {
    hide Less;
    forall i | 0 <= i < |names[1..]| ensures names[1..][i] != names[0] {
      LessAntisymmetric(names[0], names[i + 1]);
    }
  }

  lemma AttrMapReads(reg: Registry, kind: ItemKind, bytes: Bytes, o: nat, attrs: AttrMap)
    requires Small(bytes) && |attrs| < U32_END
    requires forall name :: name in attrs ==> StorableRegister(reg, kind, name, attrs[name])
    requires At(bytes, o, AttrMapBytes(attrs))
    ensures ReadAttrMap(reg, kind, bytes, o) == Got(attrs, o + |AttrMapBytes(attrs)|)
  {
    hide At, RegistersBytes, StorableRegister, Le, GetLe, Pow256, ReadRegisters;
    Widths();
    var names := SortedNames(attrs.Keys);
    NamesPresent(attrs);
    KeyCount(attrs);
    AtBoth(bytes, o, Le(|attrs|, 4), RegistersBytes(attrs, names));
    LeExact(bytes, o, 4, |attrs|, o + 4);
    AllRemain(attrs);
    RegistersRead(reg, kind, bytes, o + 4, attrs, names, map[]);
  }

  lemma KeyCount(attrs: AttrMap)
    ensures |attrs.Keys| == |attrs|
  {
  }

  lemma AllRemain(attrs: AttrMap)
    ensures Remaining(attrs, SortedNames(attrs.Keys), map[])
  {
    assert forall x :: x in SortedNames(attrs.Keys) <==> x in attrs.Keys;
  }

  lemma ScalarFieldReads(bytes: Bytes, o: nat, s: nat)
    requires Scalar(s) && At(bytes, o, ScalarBytes(s))
    ensures SnapScalar(bytes, o) == Got(s, o + |ScalarBytes(s)|)
    ensures ParseScalar(bytes, o) == if s == 0 then Err(InvalidUnicodeScalar) else Ok((s, o + |ScalarBytes(s)|))
  {
    hide GetScalar, Utf8;
    var u := Utf8(s);
    AtBoth(bytes, o, [|u|], u);
    ByteExact(bytes, o, |u|, o + 1);
    var part := bytes[o + 1..o + 1 + |u|];
    AtWhole(part, u);
    ScalarExact(part, 0, s, |u|);
  }

  lemma ItemReads(reg: Registry, bytes: Bytes, o: nat, item: Item)
    requires Small(bytes) && StorableItem(reg, item) && At(bytes, o, ItemBytes(item))
    ensures ReadItem(reg, bytes, o) == Got(item, o + |ItemBytes(item)|)
  {
    hide At, ItemBytes, GetId, GetOptId, GetByte, SnapScalar, ReadAttrMap, IdBytes, OptIdBytes, AttrMapBytes,
         ScalarBytes, StorableRegister;
    ItemPieces(bytes, o, item);
    IdExact(bytes, o, item.id, LeftOffset(o));
    OptIdExact(bytes, LeftOffset(o), item.left, RightOffset(o, item));
    OptIdExact(bytes, RightOffset(o, item), item.right, KindOffset(o, item));
    ByteExact(bytes, KindOffset(o, item), KindByte(item.kind), KindOffset(o, item) + 1);
    ByteExact(bytes, KindOffset(o, item) + 1, TombstoneByte(item), ScalarOffset(o, item));
    if item.kind == Text { ScalarFieldReads(bytes, ScalarOffset(o, item), item.scalar); }
    AttrMapReads(reg, item.kind, bytes, AttrsOffset(o, item), item.attrs);
  }

  predicate AllStorable(reg: Registry, items: seq<Item>) {
    forall i :: 0 <= i < |items| ==> StorableItem(reg, items[i])
  }

  lemma {:induction false} ItemsRead(reg: Registry, bytes: Bytes, o: nat, items: seq<Item>)
    requires Small(bytes) && AllStorable(reg, items) && AllEncodable(items) && At(bytes, o, ItemsBytes(items))
    ensures ReadItems(reg, bytes, o, |items|) == Got(items, o + |ItemsBytes(items)|)
    decreases |items|
  {
    hide At, ReadItem, ItemBytes, StorableItem, Encodable;
    if |items| > 0 {
      var mid := o + |ItemBytes(items[0])|;
      AtBoth(bytes, o, ItemBytes(items[0]), ItemsBytes(items[1..]));
      ItemReads(reg, bytes, o, items[0]);
      ItemsRead(reg, bytes, mid, items[1..]);
      assert items == [items[0]] + items[1..];
    }
  }

  // ------------------------------------------------------------ pairs of integers

  /** Applied ids and summary rows: pairs of 64-bit integers. */
  function PairsBytes(pairs: seq<OpId>): Bytes {
    if |pairs| == 0 then [] else IdBytes(pairs[0]) + PairsBytes(pairs[1..])
  }

  function CountedPairs(pairs: seq<OpId>): Bytes {
    Le(|pairs|, 4) + PairsBytes(pairs)
  }

  function ReadPairs(bytes: Bytes, o: nat, n: nat): Read<seq<OpId>>
    decreases n
  {
    if n == 0 then Got([], o)
    else
      var head := GetId(bytes, o);
      if head.Fail? then Fail
      else
        var tail := ReadPairs(bytes, head.next, n - 1);
        if tail.Fail? then Fail else Got([head.value] + tail.value, tail.next)
  }

  function ReadCountedPairs(bytes: Bytes, o: nat): Read<seq<OpId>> {
    var n := GetLe(bytes, o, 4);
    if n.Fail? then Fail else ReadPairs(bytes, n.next, n.value)
  }

  predicate AllFit(pairs: seq<OpId>) {
    |pairs| < U32_END && forall i :: 0 <= i < |pairs| ==> Fits(pairs[i])
  }

  lemma {:induction false} PairsRead(bytes: Bytes, o: nat, pairs: seq<OpId>)
    requires AllFit(pairs) && At(bytes, o, PairsBytes(pairs))
    ensures ReadPairs(bytes, o, |pairs|) == Got(pairs, o + |PairsBytes(pairs)|)
    decreases |pairs|
  {
    hide At, GetId, IdBytes, Fits;
    if |pairs| > 0 {
      AtBoth(bytes, o, IdBytes(pairs[0]), PairsBytes(pairs[1..]));
      IdExact(bytes, o, pairs[0], o + 16);
      PairsRead(bytes, o + 16, pairs[1..]);
      assert pairs == [pairs[0]] + pairs[1..];
    }
  }

  lemma CountedPairsRead(bytes: Bytes, o: nat, pairs: seq<OpId>)
    requires AllFit(pairs) && At(bytes, o, CountedPairs(pairs))
    ensures ReadCountedPairs(bytes, o) == Got(pairs, o + |CountedPairs(pairs)|)
  {
    hide At, GetLe, Le, Pow256, PairsBytes, ReadPairs;
    Widths();
    AtBoth(bytes, o, Le(|pairs|, 4), PairsBytes(pairs));
    LeExact(bytes, o, 4, |pairs|, o + 4);
    PairsRead(bytes, o + 4, pairs);
  }

  // --------------------------------------------------------------------- export

  /** A listing of the applied ids, and of the summary's rows, in whatever order
      the containers enumerate them. */
  ghost predicate ListsIds(ids: seq<OpId>, applied: set<OpId>) {
    forall id :: id in ids <==> id in applied
  }

  ghost predicate ListsRows(rows: seq<OpId>, contiguous: map<nat, nat>) {
    forall row :: row in rows <==> row.replica in contiguous && contiguous[row.replica] == row.counter
  }

  function HeaderBytes(d: S.Doc): Bytes {
    [SNAPSHOT_VERSION] + (Le(d.self, 8) + (Le(d.nextCounter, 8) + Le(d.lamport, 8)))
  }

  function ItemSection(items: seq<Item>): Bytes
    requires AllEncodable(items)
  {
    Le(|items|, 4) + ItemsBytes(items)
  }

  function PendingSection(batch: Bytes): Bytes {
    Le(|batch|, 4) + batch
  }

  function SnapshotBytes(d: S.Doc, ids: seq<OpId>, rows: seq<OpId>, batch: Bytes): Bytes
    requires AllEncodable(d.stream)
  {
    HeaderBytes(d) + (ItemSection(d.stream) + (CountedPairs(ids) + (PendingSection(batch) + CountedPairs(rows))))
  }

  /** The export fails only where the pending operations cannot be serialised. */
  function Export(d: S.Doc, ids: seq<OpId>, rows: seq<OpId>): Result<Bytes>
    requires AllEncodable(d.stream) && AllTyped(d.pending)
  {
    match SerializeBatch(d.pending)
    case Err(code) => Err(code)
    case Ok(batch) => Ok(SnapshotBytes(d, ids, rows, batch))
  }

  /** What the writer of an operation takes: its checks pass, and the frame is not
      too large. */
  predicate Writable(op: Operation)
    requires Typed(op)
  {
    WriterError(op).None? && (WriterAdmits(op); |OpBytes(op)| <= MAX_OP_BYTES)
  }

  /** The export succeeds if and only if every buffered operation can be written. */
  lemma ExportExact(d: S.Doc, ids: seq<OpId>, rows: seq<OpId>)
    requires AllEncodable(d.stream) && AllTyped(d.pending)
    ensures Export(d, ids, rows).Ok? <==>
            |d.pending| <= MAX_BATCH && forall i :: 0 <= i < |d.pending| ==> Writable(d.pending[i])
  {
    hide SnapshotBytes, WriterError, OpBytes, FirstError, BatchBytes, Typed;
    FirstErrorNone(d.pending, |d.pending|);
    forall i | 0 <= i < |d.pending| ensures SerializeOp(d.pending[i]).Ok? <==> Writable(d.pending[i]) {
      assert Typed(d.pending[i]);
    }
  }

  // --------------------------------------------------------------------- import

  datatype Header = Header(nextCounter: nat, lamport: nat)

  function ReadHeader(bytes: Bytes): Result<(Header, nat)> {
    var version := GetByte(bytes, 0);
    if version.Fail? then Err(MalformedFrame)
    else if version.value != SNAPSHOT_VERSION then Err(SnapshotVersionUnsupported)
    else
      var stored := GetLe(bytes, version.next, 8);
      if stored.Fail? then Err(MalformedFrame)
      else
        var counter := GetLe(bytes, stored.next, 8);
        if counter.Fail? then Err(MalformedFrame)
        else
          var lamport := GetLe(bytes, counter.next, 8);
          if lamport.Fail? || stored.value == 0 || !(1 <= counter.value <= MAX_COUNTER)
             || lamport.value > MAX_LAMPORT then
            Err(MalformedFrame)
          else Ok((Header(counter.value, lamport.value), lamport.next))
  }

  function ReadPending(bytes: Bytes, o: nat): Result<(seq<Operation>, nat)> {
    var n := GetLe(bytes, o, 4);
    if n.Fail? || |bytes| < n.next + n.value then Err(MalformedFrame)
    else
      var ops := ParseBatch(bytes[n.next..n.next + n.value]);
      if ops.Err? then Err(ops.code)
      else if |ops.value| > PENDING_LIMIT then Err(OpTooLarge)
      else Ok((ops.value, n.next + n.value))
  }

  function WithRows(contiguous: map<nat, nat>, rows: seq<OpId>): map<nat, nat> {
    if |rows| == 0 then contiguous
    else WithRows(contiguous, rows[..|rows| - 1])[rows[|rows| - 1].replica := rows[|rows| - 1].counter]
  }

  /** The imported document: contiguous counters and gaps are rebuilt by noting
      every applied id, then the stored rows are written over them. */
  function Rebuilt(self: nat, header: Header, items: seq<Item>, ids: seq<OpId>, pending: seq<Operation>,
                   rows: seq<OpId>): S.Doc {
    var summary := C.NoteAll(C.EMPTY_SUMMARY, ids);
    S.Doc(self, header.nextCounter, if |ids| > 0 && header.lamport < 1 then 1 else header.lamport, items,
          (set id | id in ids), pending, false, C.Summary(WithRows(summary.contiguous, rows), summary.gaps))
  }

  function Import(reg: Registry, self: nat, bytes: Bytes): Result<S.Doc> {
    var header := ReadHeader(bytes);
    if header.Err? then Err(header.code)
    else
      var items := ReadItemSection(reg, bytes, header.value.1);
      if items.Fail? then Err(MalformedFrame)
      else
        var ids := ReadCountedPairs(bytes, items.next);
        if ids.Fail? || exists i :: 0 <= i < |ids.value| && !ids.value[i].Valid() then Err(MalformedFrame)
        else
          var pending := ReadPending(bytes, ids.next);
          if pending.Err? then Err(pending.code)
          else
            var rows := ReadCountedPairs(bytes, pending.value.1);
            if rows.Fail? || rows.next != |bytes| then Err(MalformedFrame)
            else Ok(Rebuilt(self, header.value.0, items.value, ids.value, pending.value.0, rows.value))
  }

  // ----------------------------------------------------------------- recovery

  /** The documents a snapshot can hold: value ranges within the wire types, the
      pending buffer writable, an exact summary and a clock that has started. */
  ghost predicate Storable(reg: Registry, d: S.Doc) {
    && 1 <= d.self < U64_END && 1 <= d.nextCounter <= MAX_COUNTER && d.lamport <= MAX_LAMPORT
    && |d.stream| < U32_END && AllStorable(reg, d.stream)
    && (forall id :: id in d.applied ==> id.Valid() && Fits(id))
    && (d.applied != {} ==> d.lamport >= 1)
    && AllTyped(d.pending) && |d.pending| <= PENDING_LIMIT && !d.retrying
    && C.Exact(d.summary, d.applied)
    && (forall r :: r in d.summary.contiguous ==> Fits(OpId(r, d.summary.contiguous[r])))
  }

  lemma HeaderReads(d: S.Doc, bytes: Bytes)
    requires At(bytes, 0, HeaderBytes(d))
    requires 1 <= d.self < U64_END && 1 <= d.nextCounter <= MAX_COUNTER && d.lamport <= MAX_LAMPORT
    ensures |HeaderBytes(d)| == 25 && ReadHeader(bytes) == Ok((Header(d.nextCounter, d.lamport), 25))
  {
    hide At, GetLe, GetByte, Le, Pow256;
    Widths();
    var s, c, l := Le(d.self, 8), Le(d.nextCounter, 8), Le(d.lamport, 8);
    AtBoth(bytes, 0, [SNAPSHOT_VERSION], s + (c + l));
    AtBoth(bytes, 1, s, c + l);
    AtBoth(bytes, 9, c, l);
    ByteExact(bytes, 0, SNAPSHOT_VERSION, 1);
    LeExact(bytes, 1, 8, d.self, 9);
    LeExact(bytes, 9, 8, d.nextCounter, 17);
    LeExact(bytes, 17, 8, d.lamport, 25);
  }

  lemma ItemSectionReads(reg: Registry, bytes: Bytes, o: nat, items: seq<Item>)
    requires Small(bytes) && AllStorable(reg, items) && AllEncodable(items) && |items| < U32_END
    requires At(bytes, o, ItemSection(items))
    ensures ReadItemSection(reg, bytes, o) == Got(items, o + |ItemSection(items)|)
  {
    hide At, GetLe, Le, Pow256, ItemsBytes, ReadItems, StorableItem, Encodable;
    Widths();
    AtBoth(bytes, o, Le(|items|, 4), ItemsBytes(items));
    LeExact(bytes, o, 4, |items|, o + 4);
    ItemsRead(reg, bytes, o + 4, items);
  }

  lemma PendingReads(bytes: Bytes, o: nat, pending: seq<Operation>, batch: Bytes)
    requires AllTyped(pending) && SerializeBatch(pending) == Ok(batch) && |pending| <= PENDING_LIMIT
             && |batch| < U32_END
    requires At(bytes, o, PendingSection(batch))
    ensures ReadPending(bytes, o) == Ok((pending, o + |PendingSection(batch)|))
  {
    hide GetLe, Le, Pow256, SerializeBatch, ParseBatch, Typed;
    Widths();
    AtBoth(bytes, o, Le(|batch|, 4), batch);
    LeExact(bytes, o, 4, |batch|, o + 4);
    SerializeThenParseBatch(pending);
  }

  /** The stored rows are the ones the applied ids already determine. */
  lemma {:induction false} RowsChangeNothing(contiguous: map<nat, nat>, rows: seq<OpId>)
    requires forall i :: 0 <= i < |rows| ==>
               rows[i].replica in contiguous && contiguous[rows[i].replica] == rows[i].counter
    ensures WithRows(contiguous, rows) == contiguous
  {
    if |rows| > 0 {
      RowsChangeNothing(contiguous, rows[..|rows| - 1]);
    }
  }

  /** Whatever the enumeration orders, the rebuilt tracking is the exported one. */
  lemma RebuiltIs(d: S.Doc, self: nat, ids: seq<OpId>, rows: seq<OpId>)
    requires C.Exact(d.summary, d.applied) && !d.retrying && (d.applied != {} ==> d.lamport >= 1)
    requires forall id :: id in d.applied ==> id.Valid()
    requires ListsIds(ids, d.applied) && ListsRows(rows, d.summary.contiguous)
    ensures Rebuilt(self, Header(d.nextCounter, d.lamport), d.stream, ids, d.pending, rows) == d.(self := self)
  {
    hide C.Exact, C.NoteAll;
    forall i | 0 <= i < |ids| ensures ids[i].counter >= 1 {
      assert ids[i] in ids;
    }
    C.NoteAllExact(ids);
    assert (set id | id in ids) == d.applied;
    C.ExactUnique(C.NoteAll(C.EMPTY_SUMMARY, ids), d.summary, d.applied);
    forall i | 0 <= i < |rows| ensures rows[i].replica in d.summary.contiguous
      && d.summary.contiguous[rows[i].replica] == rows[i].counter {
      assert rows[i] in rows;
    }
    RowsChangeNothing(d.summary.contiguous, rows);
    if |ids| > 0 { assert ids[0] in ids; }
  }

  lemma ListedFit(reg: Registry, d: S.Doc, ids: seq<OpId>, rows: seq<OpId>)
    requires Storable(reg, d) && ListsIds(ids, d.applied) && ListsRows(rows, d.summary.contiguous)
    requires |ids| < U32_END && |rows| < U32_END
    ensures AllFit(ids) && AllFit(rows) && forall i :: 0 <= i < |ids| ==> ids[i].Valid()
  {
    hide C.Exact, AllStorable, Typed;
    forall i | 0 <= i < |ids| ensures Fits(ids[i]) && ids[i].Valid() {
      assert ids[i] in ids;
    }
    forall i | 0 <= i < |rows| ensures Fits(rows[i]) {
      assert rows[i] in rows;
    }
  }

  lemma SnapshotPieces(bytes: Bytes, h: Bytes, i: Bytes, a: Bytes, p: Bytes, r: Bytes)
    requires bytes == h + (i + (a + (p + r)))
    ensures At(bytes, 0, h) && At(bytes, |h|, i) && At(bytes, |h| + |i|, a)
    ensures At(bytes, |h| + |i| + |a|, p) && At(bytes, |h| + |i| + |a| + |p|, r)
    ensures |h| + |i| + |a| + |p| + |r| == |bytes|
  {
    hide At;
    AtWhole(bytes, bytes);
    AtBoth(bytes, 0, h, i + (a + (p + r)));
    AtBoth(bytes, |h|, i, a + (p + r));
    AtBoth(bytes, |h| + |i|, a, p + r);
    AtBoth(bytes, |h| + |i| + |a|, p, r);
  }

  lemma ImportSteps(reg: Registry, self: nat, bytes: Bytes, header: Header, o1: nat, items: seq<Item>, o2: nat,
                    ids: seq<OpId>, o3: nat, pending: seq<Operation>, o4: nat, rows: seq<OpId>)
    requires ReadHeader(bytes) == Ok((header, o1)) && ReadItemSection(reg, bytes, o1) == Got(items, o2)
    requires ReadCountedPairs(bytes, o2) == Got(ids, o3) && ReadPending(bytes, o3) == Ok((pending, o4))
    requires ReadCountedPairs(bytes, o4) == Got(rows, |bytes|)
    requires forall i :: 0 <= i < |ids| ==> ids[i].Valid()
    ensures Import(reg, self, bytes) == Ok(Rebuilt(self, header, items, ids, pending, rows))
  {
    hide ReadHeader, ReadItemSection, ReadCountedPairs, ReadPending, Rebuilt;
  }

  lemma StorableParts(reg: Registry, d: S.Doc)
    requires Storable(reg, d)
    ensures 1 <= d.self < U64_END && 1 <= d.nextCounter <= MAX_COUNTER && d.lamport <= MAX_LAMPORT
    ensures |d.stream| < U32_END && AllStorable(reg, d.stream)
    ensures AllTyped(d.pending) && |d.pending| <= PENDING_LIMIT
    ensures C.Exact(d.summary, d.applied) && !d.retrying && (d.applied != {} ==> d.lamport >= 1)
    ensures forall id :: id in d.applied ==> id.Valid()
  {
    hide C.Exact, AllStorable, Typed;
  }

  lemma SectionsRead(reg: Registry, d: S.Doc, ids: seq<OpId>, rows: seq<OpId>, batch: Bytes, bytes: Bytes,
                     o2: nat, o3: nat, o4: nat)
    requires Storable(reg, d) && AllFit(ids) && AllFit(rows) && AllEncodable(d.stream)
    requires SerializeBatch(d.pending) == Ok(batch) && |batch| < U32_END && Small(bytes)
    requires At(bytes, 0, HeaderBytes(d)) && At(bytes, 25, ItemSection(d.stream)) && o2 == 25 + |ItemSection(d.stream)|
    requires At(bytes, o2, CountedPairs(ids)) && o3 == o2 + |CountedPairs(ids)|
    requires At(bytes, o3, PendingSection(batch)) && o4 == o3 + |PendingSection(batch)|
    requires At(bytes, o4, CountedPairs(rows)) && |bytes| == o4 + |CountedPairs(rows)|
    requires forall i :: 0 <= i < |ids| ==> ids[i].Valid()
    ensures forall self: nat ::
              Import(reg, self, bytes) == Ok(Rebuilt(self, Header(d.nextCounter, d.lamport), d.stream, ids, d.pending,
                                                     rows))
  {
    hide *;
    StorableParts(reg, d);
    HeaderReads(d, bytes);
    ItemSectionReads(reg, bytes, 25, d.stream);
    CountedPairsRead(bytes, o2, ids);
    PendingReads(bytes, o3, d.pending, batch);
    CountedPairsRead(bytes, o4, rows);
    forall self: nat
      ensures Import(reg, self, bytes)
              == Ok(Rebuilt(self, Header(d.nextCounter, d.lamport), d.stream, ids, d.pending, rows))
    {
      ImportSteps(reg, self, bytes, Header(d.nextCounter, d.lamport), 25, d.stream, o2, ids, o3, d.pending, o4, rows);
    }
  }

  lemma HeaderLength(d: S.Doc)
    ensures |HeaderBytes(d)| == 25
  {
  }

  /** Importing an export gives the document back, under the importer's identity,
      whatever order applied ids and rows were listed in. */
  lemma SnapshotRestores(reg: Registry, d: S.Doc, self: nat, ids: seq<OpId>, rows: seq<OpId>, batch: Bytes)
    requires Storable(reg, d) && ListsIds(ids, d.applied) && ListsRows(rows, d.summary.contiguous)
    requires |ids| < U32_END && |rows| < U32_END
    requires AllEncodable(d.stream) && AllTyped(d.pending) && SerializeBatch(d.pending) == Ok(batch)
             && |batch| < U32_END
    requires Small(SnapshotBytes(d, ids, rows, batch))
    ensures Export(d, ids, rows) == Ok(SnapshotBytes(d, ids, rows, batch))
    ensures Import(reg, self, SnapshotBytes(d, ids, rows, batch)) == Ok(d.(self := self))
  {
    hide At, HeaderBytes, ItemSection, CountedPairs, PendingSection, Import, Rebuilt, Storable, AllStorable, AllFit,
         C.Exact, SerializeBatch, Typed, ListsIds, ListsRows, AllTyped, AllEncodable;
    var i, a, p, r := ItemSection(d.stream), CountedPairs(ids), PendingSection(batch), CountedPairs(rows);
    SnapshotPieces(SnapshotBytes(d, ids, rows, batch), HeaderBytes(d), i, a, p, r);
    HeaderLength(d);
    ListedFit(reg, d, ids, rows);
    StorableParts(reg, d);
    RebuiltIs(d, self, ids, rows);
    ExportIs(d, ids, rows, batch);
    SectionsRead(reg, d, ids, rows, batch, SnapshotBytes(d, ids, rows, batch), 25 + |i|, 25 + |i| + |a|,
                 25 + |i| + |a| + |p|);
  }

  lemma ExportIs(d: S.Doc, ids: seq<OpId>, rows: seq<OpId>, batch: Bytes)
    requires AllEncodable(d.stream) && AllTyped(d.pending) && SerializeBatch(d.pending) == Ok(batch)
    ensures Export(d, ids, rows) == Ok(SnapshotBytes(d, ids, rows, batch))
  {
    hide SerializeBatch, SnapshotBytes;
  }
}
