/** The writer and the parser as the program runs them: buffers appended to, an
    offset that advances (cpp/crdt/src/serialize.cpp). */
module Frames {
  import opened Types
  import opened Wire
  import opened Codec
  import opened Batches

  // -------------------------------------------------------------------- writing

  method PutId(out: Bytes, id: OpId) returns (r: Bytes)
    ensures r == out + IdBytes(id)
  {
    hide Le;
    r := PutLe(out, id.replica, 8);
    r := PutLe(r, id.counter, 8);
    assert r == out + IdBytes(id);
  }

  method PutOptId(out: Bytes, id: Option<OpId>) returns (r: Bytes)
    ensures r == out + OptIdBytes(id)
  {
    if id.Some? {
      r := PutId(out + [1], id.value);
    } else {
      r := out + [0];
    }
  }

  method PutString(out: Bytes, s: Bytes) returns (r: Bytes)
    ensures r == out + StringBytes(s)
  {
    r := PutLe(out, |s|, 8);
    r := r + s;
  }

  /** One attribute, or a refusal when its name or value is too large. */
  method PutAttr(out: Bytes, attr: InitialAttr) returns (r: Result<Bytes>)
    ensures r == if WritableAttr(attr) then Ok(out + AttrBytes(attr)) else Err(OpTooLarge)
  {
    hide StringBytes;
    if |attr.name| > MAX_ATTR_NAME {
      return Err(OpTooLarge);
    }
    var buffer := PutString(out, attr.name);
    if attr.value.Some? {
      if |attr.value.value| > MAX_ATTR_VALUE {
        return Err(OpTooLarge);
      }
      buffer := PutString(buffer + [1], attr.value.value);
    } else {
      buffer := buffer + [0];
    }
    assert buffer == out + AttrBytes(attr);
    return Ok(buffer);
  }

  method PutAttrs(out: Bytes, attrs: seq<InitialAttr>) returns (r: Result<Bytes>)
    ensures r == if forall i :: 0 <= i < |attrs| ==> WritableAttr(attrs[i]) then Ok(out + AttrsBytes(attrs))
                 else Err(OpTooLarge)
  {
    hide AttrBytes, WritableAttr;
    var buffer, k := out, 0;
    while k < |attrs|
      invariant 0 <= k <= |attrs|
      invariant forall i :: 0 <= i < k ==> WritableAttr(attrs[i])
      invariant buffer + AttrsBytes(attrs[k..]) == out + AttrsBytes(attrs)
    {
      var next := PutAttr(buffer, attrs[k]);
      if next.Err? {
        return next;
      }
      assert attrs[k..][1..] == attrs[k + 1..];
      buffer := next.value;
      k := k + 1;
    }
    assert attrs[k..] == [] && buffer + [] == buffer;
    return Ok(buffer);
  }

  method PutContent(out: Bytes, kind: ItemKind, scalar: nat) returns (r: Bytes)
    requires ValidContent(kind, scalar)
    ensures r == out + ContentBytes(kind, scalar)
  {
    hide Utf8;
    r := out + [KindByte(kind)];
    if kind == Text {
      var encoded := Utf8(scalar);
      r := r + [|encoded|] + encoded;
    }
    assert r == out + ContentBytes(kind, scalar);
  }

  lemma AppendThree(out: Bytes, a: Bytes, b: Bytes, c: Bytes, d: Bytes)
    ensures out + a + b + c + d == out + (a + (b + (c + d)))
  {
  }

  method PutInsert(out: Bytes, op: Operation) returns (r: Result<Bytes>)
    requires op.Insert? && ValidContent(op.kind, op.scalar)
    ensures r == if |op.attrs| > MAX_ATTRS || exists i :: 0 <= i < |op.attrs| && !WritableAttr(op.attrs[i]) then
                   Err(OpTooLarge)
                 else Ok(out + InsertBytes(op))
  {
    hide WritableAttr, OptIdBytes, AttrsBytes, ContentBytes;
    var buffer := PutOptId(out, op.left);
    buffer := PutOptId(buffer, op.right);
    buffer := PutContent(buffer, op.kind, op.scalar);
    if |op.attrs| > 255 {
      return Err(OpTooLarge);
    }
    r := PutAttrs(buffer + [|op.attrs|], op.attrs);
    if r.Ok? {
      assert buffer + [|op.attrs|] + AttrsBytes(op.attrs) == buffer + ([|op.attrs|] + AttrsBytes(op.attrs));
      AppendThree(out, OptIdBytes(op.left), OptIdBytes(op.right), ContentBytes(op.kind, op.scalar),
                  [|op.attrs|] + AttrsBytes(op.attrs));
    }
  }

  method PutBody(out: Bytes, op: Operation) returns (r: Result<Bytes>)
    requires Typed(op) && op.id.Valid() && 1 <= op.lamport <= MAX_LAMPORT
    ensures r.Ok? <==> WriterError(op).None?
    ensures r.Err? ==> WriterError(op) == Some(r.code)
    ensures r.Ok? ==> Parsable(op) && r.value == out + BodyBytes(op)
  {
    hide InsertBytes, WritableAttr, StringBytes, ValueBytes, IdBytes, ReadableAttr;
    match op
    case Insert(_, _, _, _, _, _, _) =>
      r := PutInsert(out, op);
      if r.Ok? { WriterAdmits(op); }
    case Delete(_, _, target) =>
      if target.None? {
        return Err(InvalidArgument);
      }
      WriterAdmits(op);
      var buffer := PutId(out, target.value);
      return Ok(buffer);
    case SetAttr(_, _, target, name, value) =>
      if target.None? {
        return Err(InvalidArgument);
      }
      var buffer := PutId(out, target.value);
      r := PutAttr(buffer, InitialAttr(name, value));
      if r.Ok? { WriterAdmits(op); }
  }

  lemma SerializeChecks(op: Operation)
    requires Typed(op)
    ensures !op.id.Valid() ==> SerializeOp(op) == Err(InvalidReplicaId)
    ensures op.id.Valid() && !(1 <= op.lamport <= MAX_LAMPORT) ==> SerializeOp(op) == Err(InvalidLamport)
    ensures WriterError(op).Some? ==> SerializeOp(op) == Err(WriterError(op).value)
  {
  }

  lemma FrameIs(op: Operation, out: Bytes)
    requires Typed(op) && Parsable(op) && WriterError(op).None?
    requires out == [PROTOCOL_VERSION, TypeByte(op)] + IdBytes(op.id) + Le(op.lamport, 8) + BodyBytes(op)
    ensures out == OpBytes(op)
    ensures SerializeOp(op) == if |out| > MAX_OP_BYTES then Err(OpTooLarge) else Ok(out)
  {
    hide IdBytes, BodyBytes, Le, WriterError, Parsable, Typed;
    assert [PROTOCOL_VERSION, TypeByte(op)] == [PROTOCOL_VERSION] + [TypeByte(op)];
    AppendThree([], [PROTOCOL_VERSION], [TypeByte(op)], IdBytes(op.id), Le(op.lamport, 8) + BodyBytes(op));
    assert out == OpBytes(op);
  }

  /** serialize_operation. */
  method SerializeOperation(op: Operation) returns (r: Result<Bytes>)
    requires Typed(op)
    ensures r == SerializeOp(op)
  {
    hide BodyBytes, Typed, IdBytes, TypeByte, SerializeOp, WriterError, Parsable, Le;
    SerializeChecks(op);
    if !op.id.Valid() {
      return Err(InvalidReplicaId);
    }
    if !(1 <= op.lamport <= MAX_LAMPORT) {
      return Err(InvalidLamport);
    }
    var out := [PROTOCOL_VERSION, TypeByte(op)];
    out := PutId(out, op.id);
    out := PutLe(out, op.lamport, 8);
    r := PutBody(out, op);
    if r.Ok? {
      FrameIs(op, r.value);
      if |r.value| > MAX_OP_BYTES {
        return Err(OpTooLarge);
      }
    }
  }

  /** serialize_batch. */
  method SerializeOperations(ops: seq<Operation>) returns (r: Result<Bytes>)
    requires AllTyped(ops)
    ensures r == SerializeBatch(ops)
  {
    hide Typed, SerializeOp, OpBytes, Parsable, Le, EntriesBytes, FirstError, AllParsable;
    if |ops| > MAX_BATCH {
      return Err(OpTooLarge);
    }
    var out := PutLe([], |ops|, 4);
    var k := 0;
    EntriesNone(ops);
    while k < |ops|
      invariant 0 <= k <= |ops|
      invariant FirstError(ops, k).None?
      invariant AllParsable(ops[..k]) && out == Le(|ops|, 4) + EntriesBytes(ops[..k])
    {
      var encoded := SerializeOperation(ops[k]);
      if encoded.Err? {
        ErrorFound(ops, k);
        return Err(encoded.code);
      }
      EntryAdded(ops, k, encoded.value);
      out := PutLe(out, |encoded.value|, 4);
      out := out + encoded.value;
      k := k + 1;
    }
    assert ops[..|ops|] == ops;
    return Ok(out);
  }

  lemma EntriesNone(ops: seq<Operation>)
    requires AllTyped(ops)
    ensures FirstError(ops, 0).None? && AllParsable(ops[..0]) && EntriesBytes(ops[..0]) == []
  {
  }

  lemma {:induction false} ErrorStays(ops: seq<Operation>, k: nat, n: nat)
    requires AllTyped(ops) && k <= n <= |ops| && FirstError(ops, k).Some?
    ensures FirstError(ops, n) == FirstError(ops, k)
    decreases n
  {
    hide SerializeOp, AllTyped;
    if k < n { ErrorStays(ops, k, n - 1); }
  }

  lemma ErrorFound(ops: seq<Operation>, k: nat)
    requires AllTyped(ops) && k < |ops| && FirstError(ops, k).None? && SerializeOp(ops[k]).Err?
    ensures FirstError(ops, |ops|) == Some(SerializeOp(ops[k]).code)
  {
    hide SerializeOp, Typed;
    ErrorStays(ops, k + 1, |ops|);
  }

  lemma {:induction false} EntriesAppend(ops: seq<Operation>, op: Operation)
    requires AllParsable(ops) && Parsable(op) && |OpBytes(op)| < U32_END
    ensures AllParsable(ops + [op]) && EntriesBytes(ops + [op]) == EntriesBytes(ops) + EntryBytes(op)
    decreases |ops|
  {
    hide Parsable, OpBytes, EntryBytes;
    if |ops| == 0 {
      assert ops + [op] == [op];
      assert [op][1..] == [];
      assert EntryBytes(op) + [] == EntryBytes(op) && [] + EntryBytes(op) == EntryBytes(op);
    } else {
      EntriesAppend(ops[1..], op);
      assert (ops + [op])[1..] == ops[1..] + [op];
      assert (ops + [op])[0] == ops[0];
    }
  }

  lemma EntryAdded(ops: seq<Operation>, k: nat, encoded: Bytes)
    requires AllTyped(ops) && k < |ops| && FirstError(ops, k).None? && SerializeOp(ops[k]) == Ok(encoded)
    requires AllParsable(ops[..k])
    ensures FirstError(ops, k + 1).None? && AllParsable(ops[..k + 1])
    ensures EntriesBytes(ops[..k + 1]) == EntriesBytes(ops[..k]) + (Le(|encoded|, 4) + encoded)
  {
    hide OpBytes, Parsable, EntriesBytes, SerializeOp;
    SerializeWritten(ops[k]);
    EntriesAppend(ops[..k], ops[k]);
    assert ops[..k + 1] == ops[..k] + [ops[k]];
  }

  // -------------------------------------------------------------------- reading

  method ReadByte(bytes: Bytes, offset: nat) returns (r: Read<byte>)
    ensures r == GetByte(bytes, offset)
  {
    if |bytes| < offset + 1 {
      return Fail;
    }
    return Got(bytes[offset], offset + 1);
  }

  method ReadId(bytes: Bytes, offset: nat) returns (r: Read<OpId>)
    ensures r == GetId(bytes, offset)
  {
    var replica := ReadLe(bytes, offset, 8);
    if replica.Fail? {
      return Fail;
    }
    var counter := ReadLe(bytes, replica.next, 8);
    if counter.Fail? {
      return Fail;
    }
    return Got(OpId(replica.value, counter.value), counter.next);
  }

  method ReadOptId(bytes: Bytes, offset: nat) returns (r: Read<Option<OpId>>)
    ensures r == GetOptId(bytes, offset)
  {
    var flag := ReadByte(bytes, offset);
    if flag.Fail? {
      return Fail;
    }
    if flag.value == 0 {
      return Got(None, flag.next);
    }
    if flag.value != 1 {
      return Fail;
    }
    var id := ReadId(bytes, flag.next);
    if id.Fail? {
      return Fail;
    }
    return Got(Some(id.value), id.next);
  }

  method ReadString(bytes: Bytes, offset: nat, limit: nat) returns (r: Read<Bytes>)
    ensures r == GetString(bytes, offset, limit)
  {
    var length := ReadLe(bytes, offset, 8);
    if length.Fail? || length.value > limit || |bytes| < length.next + length.value {
      return Fail;
    }
    return Got(bytes[length.next..length.next + length.value], length.next + length.value);
  }

  method ReadAttr(bytes: Bytes, offset: nat) returns (r: Read<InitialAttr>)
    ensures r == GetAttr(bytes, offset)
  {
    var name := ReadString(bytes, offset, READ_LIMIT);
    if name.Fail? {
      return Fail;
    }
    var flag := ReadByte(bytes, name.next);
    if flag.Fail? {
      return Fail;
    }
    if flag.value == 1 {
      var value := ReadString(bytes, flag.next, READ_LIMIT);
      if value.Fail? {
        return Fail;
      }
      return Got(InitialAttr(name.value, Some(value.value)), value.next);
    } else if flag.value != 0 {
      return Fail;
    }
    return Got(InitialAttr(name.value, None), flag.next);
  }

  method ReadAttrs(bytes: Bytes, offset: nat, count: nat) returns (r: Read<seq<InitialAttr>>)
    ensures r == GetAttrs(bytes, offset, count)
  {
    hide GetAttr;
    var attrs, o: nat, i: nat := [], offset, 0;
    ghost var all := GetAttrs(bytes, offset, count);
    if all.Got? { assert [] + all.value == all.value; }
    while i < count
      invariant i <= count
      invariant var rest := GetAttrs(bytes, o, count - i);
                GetAttrs(bytes, offset, count) == if rest.Fail? then Fail else Got(attrs + rest.value, rest.next)
    {
      var attr := ReadAttr(bytes, o);
      if attr.Fail? {
        return Fail;
      }
      ghost var tail := GetAttrs(bytes, attr.next, count - i - 1);
      if tail.Got? { assert attrs + ([attr.value] + tail.value) == attrs + [attr.value] + tail.value; }
      attrs, o, i := attrs + [attr.value], attr.next, i + 1;
    }
    assert attrs + [] == attrs;
    return Got(attrs, o);
  }

  method ReadScalarField(bytes: Bytes, offset: nat) returns (r: Result<(nat, nat)>)
    ensures r == ParseScalar(bytes, offset)
  {
    hide GetScalar;
    var length := ReadByte(bytes, offset);
    if length.Fail? || length.value < 1 || length.value > 4 || |bytes| < length.next + length.value {
      return Err(MalformedFrame);
    }
    var scalar := DecodeUtf8(bytes[length.next..length.next + length.value], 0);
    if scalar.Fail? || scalar.next != length.value || scalar.value == 0 {
      return Err(InvalidUnicodeScalar);
    }
    return Ok((scalar.value, length.next + length.value));
  }

  method ReadInsert(bytes: Bytes, offset: nat, id: OpId, lamport: nat) returns (r: Result<(Operation, nat)>)
    ensures r == ParseInsert(bytes, offset, id, lamport)
  {
    hide GetOptId, ParseScalar, GetAttrs, GetByte;
    var left := ReadOptId(bytes, offset);
    if left.Fail? {
      return Err(MalformedFrame);
    }
    var right := ReadOptId(bytes, left.next);
    if right.Fail? {
      return Err(MalformedFrame);
    }
    var kindByte := ReadByte(bytes, right.next);
    if kindByte.Fail? || (kindByte.value != 1 && kindByte.value != 2) {
      return Err(MalformedFrame);
    }
    var kind, scalar, o := Delimiter, 0, kindByte.next;
    if kindByte.value == 1 {
      var field := ReadScalarField(bytes, o);
      if field.Err? {
        return Err(field.code);
      }
      kind, scalar, o := Text, field.value.0, field.value.1;
    }
    var count := ReadByte(bytes, o);
    if count.Fail? {
      return Err(MalformedFrame);
    }
    var attrs := ReadAttrs(bytes, count.next, count.value);
    if attrs.Fail? {
      return Err(MalformedFrame);
    }
    return Ok((Insert(id, lamport, left.value, right.value, kind, scalar, attrs.value), attrs.next));
  }

  method ReadBody(bytes: Bytes, offset: nat, kind: byte, id: OpId, lamport: nat) returns (r: Result<(Operation, nat)>)
    ensures r == ParseBody(bytes, offset, kind, id, lamport)
  {
    hide ParseInsert, GetId, GetAttr;
    if kind == 1 {
      r := ReadInsert(bytes, offset, id, lamport);
    } else if kind == 2 || kind == 3 {
      var target := ReadId(bytes, offset);
      if target.Fail? {
        return Err(MalformedFrame);
      }
      if kind == 2 {
        return Ok((Delete(id, lamport, Some(target.value)), target.next));
      }
      var attr := ReadAttr(bytes, target.next);
      if attr.Fail? {
        return Err(MalformedFrame);
      }
      return Ok((SetAttr(id, lamport, Some(target.value), attr.value.name, attr.value.value), attr.next));
    } else {
      return Err(UnknownOpType);
    }
  }

  /** parse_operation. */
  method ParseOperation(bytes: Bytes) returns (r: Result<Operation>)
    ensures r == ParseOp(bytes)
  {
    hide ParseBody, GetId, GetLe, GetByte;
    var version := ReadByte(bytes, 0);
    if version.Fail? {
      return Err(MalformedFrame);
    }
    if version.value != PROTOCOL_VERSION {
      return Err(UnsupportedVersion);
    }
    GetByteNext(bytes, 0);
    var kind := ReadByte(bytes, version.next);
    if kind.Fail? {
      return Err(MalformedFrame);
    }
    GetByteNext(bytes, 1);
    var id := ReadId(bytes, kind.next);
    if id.Fail? {
      return Err(MalformedFrame);
    }
    var lamport := ReadLe(bytes, id.next, 8);
    if lamport.Fail? {
      return Err(MalformedFrame);
    }
    if !id.value.Valid() {
      return Err(InvalidReplicaId);
    }
    if !(1 <= lamport.value <= MAX_LAMPORT) {
      return Err(InvalidLamport);
    }
    var body := ReadBody(bytes, lamport.next, kind.value, id.value, lamport.value);
    if body.Err? {
      return Err(body.code);
    }
    if body.value.1 != |bytes| {
      return Err(MalformedFrame);
    }
    return Ok(body.value.0);
  }

  /** parse_batch. */
  method ParseOperations(bytes: Bytes) returns (r: Result<seq<Operation>>)
    ensures r == ParseBatch(bytes)
  {
    hide ParseOp, GetLe;
    var count := ReadLe(bytes, 0, 4);
    if count.Fail? {
      return Err(MalformedFrame);
    }
    if count.value > MAX_BATCH {
      return Err(OpTooLarge);
    }
    var ops, o: nat, i: nat := [], count.next, 0;
    ghost var all := ParseEntries(bytes, count.next, count.value);
    if all.Ok? { assert [] + all.value.0 == all.value.0; }
    while i < count.value
      invariant i <= count.value
      invariant var rest := ParseEntries(bytes, o, count.value - i);
                ParseEntries(bytes, count.next, count.value) ==
                if rest.Err? then Err(rest.code) else Ok((ops + rest.value.0, rest.value.1))
    {
      ghost var before := o;
      var length := ReadLe(bytes, o, 4);
      if length.Fail? {
        return Err(MalformedFrame);
      }
      o := length.next;
      if |bytes| < o + length.value {
        return Err(MalformedFrame);
      }
      var op := ParseOperation(bytes[o..o + length.value]);
      if op.Err? {
        return Err(op.code);
      }
      assert ParseEntry(bytes, before) == Ok((op.value, o + length.value));
      ghost var tail := ParseEntries(bytes, o + length.value, count.value - i - 1);
      if tail.Ok? { assert ops + ([op.value] + tail.value.0) == ops + [op.value] + tail.value.0; }
      ops, o, i := ops + [op.value], o + length.value, i + 1;
    }
    assert ops + [] == ops;
    if o != |bytes| {
      return Err(MalformedFrame);
    }
    return Ok(ops);
  }
}
