/** Writing the canonical state and reading it back for a restore, as the program
    runs them (cpp/crdt/src/digest.cpp, cpp/worker/main.cpp). */
module CanonicalIO {
  import opened Types
  import opened Wire
  import opened Codec
  import opened ItemCodec
  import opened Snapshot
  import opened Frames
  import opened SnapshotIO
  import opened Canonical

  /** canonical_state_bytes; the pair listings are the sorted copies. */
  method CanonicalStateBytes(items: seq<Item>, ids: seq<OpId>, rows: seq<OpId>) returns (r: Bytes)
    requires AllEncodable(items)
    ensures r == CanonicalBytes(items, ids, rows)
  {
    hide ItemSection, CountedPairs;
    r := PutItems([], items);
    r := PutPairs(r, ids);
    r := PutPairs(r, rows);
    assert r == CanonicalBytes(items, ids, rows);
  }

  method TakeDiffAnchor(bytes: Bytes, offset: nat) returns (r: Read<Option<OpId>>)
    ensures r == DiffOptId(bytes, offset)
  {
    r := ReadOptId(bytes, offset);
    if r.Got? && r.value.Some? && !r.value.value.Valid() {
      return Fail;
    }
  }

  method TakeDiffRegister(bytes: Bytes, offset: nat) returns (r: Read<DiffRegister>)
    ensures r == ReadDiffRegister(bytes, offset)
  {
    hide GetString, GetLe, GetByte;
    var name := ReadString(bytes, offset, DIFF_LIMIT);
    if name.Fail? {
      return Fail;
    }
    var flag := ReadByte(bytes, name.next);
    if flag.Fail? {
      return Fail;
    }
    var value, o := None, flag.next;
    if flag.value == 1 {
      var text := ReadString(bytes, o, DIFF_LIMIT);
      if text.Fail? {
        return Fail;
      }
      value, o := Some(text.value), text.next;
    }
    if flag.value > 1 {
      return Fail;
    }
    var lamport := ReadLe(bytes, o, 8);
    if lamport.Fail? {
      return Fail;
    }
    var writer := ReadLe(bytes, lamport.next, 8);
    if writer.Fail? || !(1 <= lamport.value <= MAX_LAMPORT) {
      return Fail;
    }
    return Got(DiffRegister(name.value, value, lamport.value), writer.next);
  }

  method TakeDiffRegisters(bytes: Bytes, offset: nat, count: nat, top0: nat)
    returns (r: Read<(map<Bytes, Option<Bytes>>, nat)>)
    ensures r == ReadDiffRegisters(bytes, offset, count, map[], top0)
  {
    hide ReadDiffRegister;
    var attrs: map<Bytes, Option<Bytes>>, top, o: nat, i: nat := map[], top0, offset, 0;
    while i < count
      invariant i <= count
      invariant ReadDiffRegisters(bytes, o, count - i, attrs, top)
                == ReadDiffRegisters(bytes, offset, count, map[], top0)
    {
      var one := TakeDiffRegister(bytes, o);
      if one.Fail? {
        return Fail;
      }
      top := Max(top, one.value.lamport);
      if one.value.name !in attrs {
        attrs := attrs[one.value.name := one.value.value];
      }
      o, i := one.next, i + 1;
    }
    return Got((attrs, top), o);
  }

  method TakeDiffItem(bytes: Bytes, offset: nat, top: nat) returns (r: Read<(DiffItem, nat)>)
    ensures r == ReadDiffItem(bytes, offset, top)
  {
    hide GetId, DiffOptId, GetByte, GetLe, ParseScalar, ReadDiffRegisters;
    var id := ReadId(bytes, offset);
    if id.Fail? {
      return Fail;
    }
    var left := TakeDiffAnchor(bytes, id.next);
    if left.Fail? {
      return Fail;
    }
    var right := TakeDiffAnchor(bytes, left.next);
    if right.Fail? {
      return Fail;
    }
    var kindByte := ReadByte(bytes, right.next);
    if kindByte.Fail? {
      return Fail;
    }
    var tombstone := ReadByte(bytes, kindByte.next);
    if tombstone.Fail? || !id.value.Valid() || (kindByte.value != 1 && kindByte.value != 2) || tombstone.value > 1 {
      return Fail;
    }
    var kind, scalar, o := Delimiter, 0, tombstone.next;
    if kindByte.value == 1 {
      var field := ReadScalarField(bytes, o);
      if field.Err? {
        return Fail;
      }
      kind, scalar, o := Text, field.value.0, field.value.1;
    }
    var count := ReadLe(bytes, o, 4);
    if count.Fail? {
      return Fail;
    }
    var attrs := TakeDiffRegisters(bytes, count.next, count.value, top);
    if attrs.Fail? {
      return Fail;
    }
    return Got((DiffItem(id.value, left.value, right.value, kind, scalar, tombstone.value == 1, attrs.value.0),
                attrs.value.1),
               attrs.next);
  }

  /** parse_canonical_items. */
  method ParseCanonicalItems(bytes: Bytes) returns (r: Option<DiffState>)
    ensures r == ReadDiffState(bytes)
  {
    hide ReadDiffItem, GetLe;
    var count := ReadLe(bytes, 0, 4);
    if count.Fail? {
      return None;
    }
    var items, top: nat, o: nat, i: nat := [], 0, count.next, 0;
    ghost var all := ReadDiffItems(bytes, count.next, count.value, 0);
    if all.Got? { assert [] + all.value.0 == all.value.0; }
    while i < count.value
      invariant i <= count.value
      invariant var rest := ReadDiffItems(bytes, o, count.value - i, top);
                all == if rest.Fail? then Fail else Got((items + rest.value.0, rest.value.1), rest.next)
    {
      var item := TakeDiffItem(bytes, o, top);
      if item.Fail? {
        return None;
      }
      ghost var tail := ReadDiffItems(bytes, item.next, count.value - i - 1, item.value.1);
      if tail.Got? { assert items + ([item.value.0] + tail.value.0) == items + [item.value.0] + tail.value.0; }
      items, top, o, i := items + [item.value.0], item.value.1, item.next, i + 1;
    }
    assert items + [] == items;
    return Some(DiffState(items, top));
  }
}
