/** Export and import as the program runs them (cpp/crdt/src/snapshot.cpp). */
module SnapshotIO {
  import opened Types
  import opened Wire
  import opened Codec
  import opened Batches
  import opened Names
  import opened ItemCodec
  import opened Snapshot
  import opened Frames
  import S = State
  import C = Counters

  // --------------------------------------------------------------------- export

  method PutRegister(out: Bytes, name: Bytes, reg: Register) returns (r: Bytes)
    ensures r == out + RegisterBytes(name, reg)
  {
    hide StringBytes, Le;
    r := PutString(out, name);
    if reg.value.Some? {
      r := PutString(r + [1], reg.value.value);
    } else {
      r := r + [0];
    }
    assert r == out + StringBytes(name) + ValueBytes(reg.value);
    r := PutLe(r, reg.lamport, 8);
    r := PutLe(r, reg.writer, 8);
    assert r == out + RegisterBytes(name, reg);
  }

  method PutRegisters(out: Bytes, attrs: AttrMap, names: seq<Bytes>) returns (r: Bytes)
    requires forall i :: 0 <= i < |names| ==> names[i] in attrs
    ensures r == out + RegistersBytes(attrs, names)
  {
    hide RegisterBytes;
    r := out;
    var k := 0;
    while k < |names|
      invariant 0 <= k <= |names|
      invariant r + RegistersBytes(attrs, names[k..]) == out + RegistersBytes(attrs, names)
    {
      r := PutRegister(r, names[k], attrs[names[k]]);
      assert names[k..][1..] == names[k + 1..];
      k := k + 1;
    }
    assert names[k..] == [] && r + [] == r;
  }

  method PutAttrMap(out: Bytes, attrs: AttrMap) returns (r: Bytes)
    ensures r == out + AttrMapBytes(attrs)
  {
    hide RegistersBytes, Le;
    NamesPresent(attrs);
    r := PutLe(out, |attrs|, 4);
    r := PutRegisters(r, attrs, SortedNames(attrs.Keys));
    assert r == out + AttrMapBytes(attrs);
  }

  lemma AppendSix(out: Bytes, i: Bytes, l: Bytes, r: Bytes, k: Bytes, t: Bytes, m: Bytes, a: Bytes)
    ensures out + i + l + r + k + t + m + a == out + (i + (l + (r + (k + (t + (m + a))))))
  {
  }

  method PutItem(out: Bytes, item: Item) returns (r: Bytes)
    requires Encodable(item.kind, item.scalar)
    ensures r == out + ItemBytes(item)
  {
    hide IdBytes, OptIdBytes, AttrMapBytes, Utf8, KindByte, TombstoneByte;
    r := PutId(out, item.id);
    r := PutOptId(r, item.left);
    r := PutOptId(r, item.right);
    r := r + [KindByte(item.kind)];
    r := r + [TombstoneByte(item)];
    if item.kind == Text {
      var encoded := Utf8(item.scalar);
      r := r + ([|encoded|] + encoded);
    } else {
      r := r + [];
    }
    r := PutAttrMap(r, item.attrs);
    AppendSix(out, IdBytes(item.id), OptIdBytes(item.left), OptIdBytes(item.right), [KindByte(item.kind)],
              [TombstoneByte(item)], ScalarPart(item), AttrMapBytes(item.attrs));
  }

  method PutItems(out: Bytes, items: seq<Item>) returns (r: Bytes)
    requires AllEncodable(items)
    ensures r == out + ItemSection(items)
  {
    hide ItemBytes, Encodable, Le;
    r := PutLe(out, |items|, 4);
    ghost var start := r;
    var k := 0;
    while k < |items|
      invariant 0 <= k <= |items|
      invariant r + ItemsBytes(items[k..]) == start + ItemsBytes(items)
    {
      r := PutItem(r, items[k]);
      assert items[k..][1..] == items[k + 1..];
      k := k + 1;
    }
    assert items[k..] == [] && r + [] == r;
    assert r == out + ItemSection(items);
  }

  method PutPairs(out: Bytes, pairs: seq<OpId>) returns (r: Bytes)
    ensures r == out + CountedPairs(pairs)
  {
    hide IdBytes, Le;
    r := PutLe(out, |pairs|, 4);
    ghost var start := r;
    var k := 0;
    while k < |pairs|
      invariant 0 <= k <= |pairs|
      invariant r + PairsBytes(pairs[k..]) == start + PairsBytes(pairs)
    {
      r := PutId(r, pairs[k]);
      assert pairs[k..][1..] == pairs[k + 1..];
      k := k + 1;
    }
    assert pairs[k..] == [] && r + [] == r;
    assert r == out + CountedPairs(pairs);
  }

  method PutHeader(d: S.Doc) returns (r: Bytes)
    ensures r == HeaderBytes(d)
  {
    hide Le;
    r := PutLe([SNAPSHOT_VERSION], d.self, 8);
    r := PutLe(r, d.nextCounter, 8);
    r := PutLe(r, d.lamport, 8);
    assert r == HeaderBytes(d);
  }

  lemma AppendFour(h: Bytes, i: Bytes, a: Bytes, n: Bytes, p: Bytes, r: Bytes)
    ensures h + i + a + n + p + r == h + (i + (a + ((n + p) + r)))
  {
  }

  /** export_snapshot. */
  method ExportSnapshot(d: S.Doc, ids: seq<OpId>, rows: seq<OpId>) returns (r: Result<Bytes>)
    requires AllEncodable(d.stream) && AllTyped(d.pending)
    ensures r == Export(d, ids, rows)
  {
    hide AllEncodable, AllTyped, SerializeBatch, ItemSection, CountedPairs, HeaderBytes, Le;
    var out := PutHeader(d);
    out := PutItems(out, d.stream);
    out := PutPairs(out, ids);
    var pending := SerializeOperations(d.pending);
    if pending.Err? {
      return pending;
    }
    out := PutLe(out, |pending.value|, 4);
    out := out + pending.value;
    out := PutPairs(out, rows);
    AppendFour(HeaderBytes(d), ItemSection(d.stream), CountedPairs(ids), Le(|pending.value|, 4), pending.value,
               CountedPairs(rows));
    return Ok(out);
  }

  // --------------------------------------------------------------------- import

  method TakeString(bytes: Bytes, offset: nat) returns (r: Read<Bytes>)
    ensures r == SnapString(bytes, offset)
  {
    var length := ReadLe(bytes, offset, 8);
    if length.Fail? {
      return Fail;
    }
    var end := (length.next + length.value) % U64_END;
    if |bytes| < end {
      return Fail;
    }
    var stop := if length.next + length.value <= |bytes| then length.next + length.value else |bytes|;
    return Got(bytes[length.next..stop], end);
  }

  method TakeRegister(reg: Registry, kind: ItemKind, bytes: Bytes, offset: nat) returns (r: Read<(Bytes, Register)>)
    ensures r == ReadRegister(reg, kind, bytes, offset)
  {
    hide SnapString, GetLe, GetByte;
    var name := TakeString(bytes, offset);
    if name.Fail? {
      return Fail;
    }
    var flag := ReadByte(bytes, name.next);
    if flag.Fail? {
      return Fail;
    }
    var value, o := None, flag.next;
    if flag.value == 1 {
      var text := TakeString(bytes, o);
      if text.Fail? {
        return Fail;
      }
      value, o := Some(text.value), text.next;
    } else if flag.value != 0 {
      return Fail;
    }
    var lamport := ReadLe(bytes, o, 8);
    if lamport.Fail? {
      return Fail;
    }
    var writer := ReadLe(bytes, lamport.next, 8);
    if writer.Fail? || !(1 <= lamport.value <= MAX_LAMPORT) || writer.value == 0 {
      return Fail;
    }
    if !reg.names(kind, name.value) || (value.Some? && !reg.values(kind, name.value, value.value)) {
      return Fail;
    }
    return Got((name.value, Register(value, lamport.value, writer.value)), writer.next);
  }

  method TakeAttrMap(reg: Registry, kind: ItemKind, bytes: Bytes, offset: nat) returns (r: Read<AttrMap>)
    ensures r == ReadAttrMap(reg, kind, bytes, offset)
  {
    hide ReadRegister, GetLe;
    var count := ReadLe(bytes, offset, 4);
    if count.Fail? {
      return Fail;
    }
    var attrs: AttrMap, o: nat, i: nat := map[], count.next, 0;
    while i < count.value
      invariant i <= count.value
      invariant ReadRegisters(reg, kind, bytes, o, count.value - i, attrs) ==
                ReadRegisters(reg, kind, bytes, count.next, count.value, map[])
    {
      var one := TakeRegister(reg, kind, bytes, o);
      if one.Fail? {
        return Fail;
      }
      if one.value.0 !in attrs {
        attrs := attrs[one.value.0 := one.value.1];
      }
      o, i := one.next, i + 1;
    }
    return Got(attrs, o);
  }

  method TakeScalar(bytes: Bytes, offset: nat) returns (r: Read<nat>)
    ensures r == SnapScalar(bytes, offset)
  {
    hide GetScalar;
    var length := ReadByte(bytes, offset);
    if length.Fail? || length.value < 1 || length.value > 4 || |bytes| < length.next + length.value {
      return Fail;
    }
    var scalar := DecodeUtf8(bytes[length.next..length.next + length.value], 0);
    if scalar.Fail? || scalar.next != length.value {
      return Fail;
    }
    return Got(scalar.value, length.next + length.value);
  }

  method TakeItem(reg: Registry, bytes: Bytes, offset: nat) returns (r: Read<Item>)
    ensures r == ReadItem(reg, bytes, offset)
  {
    hide GetId, GetOptId, GetByte, SnapScalar, ReadAttrMap;
    var id := ReadId(bytes, offset);
    if id.Fail? {
      return Fail;
    }
    var left := ReadOptId(bytes, id.next);
    if left.Fail? {
      return Fail;
    }
    var right := ReadOptId(bytes, left.next);
    if right.Fail? {
      return Fail;
    }
    var kindByte := ReadByte(bytes, right.next);
    if kindByte.Fail? {
      return Fail;
    }
    var tombstone := ReadByte(bytes, kindByte.next);
    if tombstone.Fail? || !id.value.Valid() || (kindByte.value != 1 && kindByte.value != 2) {
      return Fail;
    }
    var kind, scalar, o := Delimiter, 0, tombstone.next;
    if kindByte.value == 1 {
      var field := TakeScalar(bytes, o);
      if field.Fail? {
        return Fail;
      }
      kind, scalar, o := Text, field.value, field.next;
    }
    var attrs := TakeAttrMap(reg, kind, bytes, o);
    if attrs.Fail? {
      return Fail;
    }
    return Got(Item(id.value, left.value, right.value, kind, scalar, tombstone.value == 1, attrs.value), attrs.next);
  }

  method TakeItems(reg: Registry, bytes: Bytes, offset: nat) returns (r: Read<seq<Item>>)
    ensures r == ReadItemSection(reg, bytes, offset)
  {
    hide ReadItem, GetLe;
    var count := ReadLe(bytes, offset, 4);
    if count.Fail? {
      return Fail;
    }
    var items, o: nat, i: nat := [], count.next, 0;
    ghost var all := ReadItems(reg, bytes, count.next, count.value);
    if all.Got? { assert [] + all.value == all.value; }
    while i < count.value
      invariant i <= count.value
      invariant var rest := ReadItems(reg, bytes, o, count.value - i);
                all == if rest.Fail? then Fail else Got(items + rest.value, rest.next)
    {
      var item := TakeItem(reg, bytes, o);
      if item.Fail? {
        return Fail;
      }
      ghost var tail := ReadItems(reg, bytes, item.next, count.value - i - 1);
      if tail.Got? { assert items + ([item.value] + tail.value) == items + [item.value] + tail.value; }
      items, o, i := items + [item.value], item.next, i + 1;
    }
    assert items + [] == items;
    return Got(items, o);
  }

  method TakePairs(bytes: Bytes, offset: nat) returns (r: Read<seq<OpId>>)
    ensures r == ReadCountedPairs(bytes, offset)
  {
    hide GetId, GetLe;
    var count := ReadLe(bytes, offset, 4);
    if count.Fail? {
      return Fail;
    }
    var pairs, o: nat, i: nat := [], count.next, 0;
    ghost var all := ReadPairs(bytes, count.next, count.value);
    if all.Got? { assert [] + all.value == all.value; }
    while i < count.value
      invariant i <= count.value
      invariant var rest := ReadPairs(bytes, o, count.value - i);
                all == if rest.Fail? then Fail else Got(pairs + rest.value, rest.next)
    {
      var pair := ReadId(bytes, o);
      if pair.Fail? {
        return Fail;
      }
      ghost var tail := ReadPairs(bytes, pair.next, count.value - i - 1);
      if tail.Got? { assert pairs + ([pair.value] + tail.value) == pairs + [pair.value] + tail.value; }
      pairs, o, i := pairs + [pair.value], pair.next, i + 1;
    }
    assert pairs + [] == pairs;
    return Got(pairs, o);
  }

  /** note_integrated for every applied id: the tracking and the clock. */
  method NoteIds(ids: seq<OpId>, clock: nat) returns (valid: bool, applied: set<OpId>, summary: C.Summary, lamport: nat)
    ensures valid <==> forall i :: 0 <= i < |ids| ==> ids[i].Valid()
    ensures valid ==> applied == (set id | id in ids) && summary == C.NoteAll(C.EMPTY_SUMMARY, ids)
    ensures valid ==> lamport == if |ids| > 0 && clock < 1 then 1 else clock
  {
    hide C.Note;
    applied, summary, lamport := {}, C.EMPTY_SUMMARY, clock;
    var k := 0;
    while k < |ids|
      invariant 0 <= k <= |ids|
      invariant forall i :: 0 <= i < k ==> ids[i].Valid()
      invariant applied == (set id | id in ids[..k]) && summary == C.NoteAll(C.EMPTY_SUMMARY, ids[..k])
      invariant lamport == if k > 0 && clock < 1 then 1 else clock
    {
      if !ids[k].Valid() {
        return false, applied, summary, lamport;
      }
      assert ids[..k + 1] == ids[..k] + [ids[k]] && ids[..k + 1][..k] == ids[..k];
      applied := applied + {ids[k]};
      summary := C.Note(summary, ids[k]);
      lamport := if lamport < 1 then 1 else lamport;
      k := k + 1;
    }
    assert ids[..k] == ids;
    valid := true;
  }

  method WriteRows(contiguous: map<nat, nat>, rows: seq<OpId>) returns (r: map<nat, nat>)
    ensures r == WithRows(contiguous, rows)
  {
    r := contiguous;
    var k := 0;
    while k < |rows|
      invariant 0 <= k <= |rows| && r == WithRows(contiguous, rows[..k])
    {
      assert rows[..k + 1][..k] == rows[..k];
      r := r[rows[k].replica := rows[k].counter];
      k := k + 1;
    }
    assert rows[..k] == rows;
  }

  method TakePending(bytes: Bytes, offset: nat) returns (r: Result<(seq<Operation>, nat)>)
    ensures r == ReadPending(bytes, offset)
  {
    hide ParseBatch;
    var length := ReadLe(bytes, offset, 4);
    if length.Fail? || |bytes| < length.next + length.value {
      return Err(MalformedFrame);
    }
    var ops := ParseOperations(bytes[length.next..length.next + length.value]);
    if ops.Err? {
      return Err(ops.code);
    }
    if |ops.value| > PENDING_LIMIT {
      return Err(OpTooLarge);
    }
    return Ok((ops.value, length.next + length.value));
  }

  method TakeHeader(bytes: Bytes) returns (r: Result<(Header, nat)>)
    ensures r == ReadHeader(bytes)
  {
    hide GetByte, GetLe;
    var version := ReadByte(bytes, 0);
    if version.Fail? {
      return Err(MalformedFrame);
    }
    if version.value != SNAPSHOT_VERSION {
      return Err(SnapshotVersionUnsupported);
    }
    var stored := ReadLe(bytes, version.next, 8);
    if stored.Fail? {
      return Err(MalformedFrame);
    }
    var counter := ReadLe(bytes, stored.next, 8);
    if counter.Fail? {
      return Err(MalformedFrame);
    }
    var lamport := ReadLe(bytes, counter.next, 8);
    if lamport.Fail? || stored.value == 0 || !(1 <= counter.value <= MAX_COUNTER) || lamport.value > MAX_LAMPORT {
      return Err(MalformedFrame);
    }
    return Ok((Header(counter.value, lamport.value), lamport.next));
  }

  /** import_snapshot. */
  method ImportSnapshot(reg: Registry, self: nat, bytes: Bytes) returns (r: Result<S.Doc>)
    ensures r == Import(reg, self, bytes)
  {
    hide ReadHeader, ReadItemSection, ReadCountedPairs, ReadPending, WithRows, C.NoteAll;
    var header := TakeHeader(bytes);
    if header.Err? {
      return Err(header.code);
    }
    var items := TakeItems(reg, bytes, header.value.1);
    if items.Fail? {
      return Err(MalformedFrame);
    }
    var ids := TakePairs(bytes, items.next);
    if ids.Fail? {
      return Err(MalformedFrame);
    }
    var valid, applied, summary, lamport := NoteIds(ids.value, header.value.0.lamport);
    if !valid {
      return Err(MalformedFrame);
    }
    var pending := TakePending(bytes, ids.next);
    if pending.Err? {
      return Err(pending.code);
    }
    var rows := TakePairs(bytes, pending.value.1);
    if rows.Fail? || rows.next != |bytes| {
      return Err(MalformedFrame);
    }
    var contiguous := WriteRows(summary.contiguous, rows.value);
    return Ok(S.Doc(self, header.value.0.nextCounter, lamport, items.value, applied, pending.value.0, false,
                    C.Summary(contiguous, summary.gaps)));
  }
}
