/** Batches of operations (cpp/crdt/src/serialize.cpp): a count, then
    length-prefixed frames back to back. */
module Batches {
  import opened Types
  import opened Wire
  import opened Codec

  const MAX_BATCH: nat := 1_000_000

  function EntryBytes(op: Operation): Bytes
    requires Parsable(op)
  {
    Le(|OpBytes(op)|, 4) + OpBytes(op)
  }

  predicate AllParsable(ops: seq<Operation>) {
    forall i :: 0 <= i < |ops| ==> Parsable(ops[i]) && |OpBytes(ops[i])| < U32_END
  }

  function EntriesBytes(ops: seq<Operation>): Bytes
    requires AllParsable(ops)
  {
    if |ops| == 0 then [] else EntryBytes(ops[0]) + EntriesBytes(ops[1..])
  }

  function BatchBytes(ops: seq<Operation>): Bytes
    requires AllParsable(ops)
  {
    Le(|ops|, 4) + EntriesBytes(ops)
  }

  function ParseEntry(bytes: Bytes, o: nat): Result<(Operation, nat)> {
    var n := GetLe(bytes, o, 4);
    if n.Fail? || |bytes| < n.next + n.value then Err(MalformedFrame)
    else
      var op := ParseOp(bytes[n.next..n.next + n.value]);
      if op.Err? then Err(op.code) else Ok((op.value, n.next + n.value))
  }

  function ParseEntries(bytes: Bytes, o: nat, n: nat): Result<(seq<Operation>, nat)>
    decreases n
  {
    if n == 0 then Ok(([], o))
    else
      var head := ParseEntry(bytes, o);
      if head.Err? then Err(head.code)
      else
        var tail := ParseEntries(bytes, head.value.1, n - 1);
        if tail.Err? then Err(tail.code) else Ok(([head.value.0] + tail.value.0, tail.value.1))
  }

  function ParseBatch(bytes: Bytes): Result<seq<Operation>> {
    var n := GetLe(bytes, 0, 4);
    if n.Fail? then Err(MalformedFrame)
    else if n.value > MAX_BATCH then Err(OpTooLarge)
    else
      var ops := ParseEntries(bytes, n.next, n.value);
      if ops.Err? then Err(ops.code)
      else if ops.value.1 != |bytes| then Err(MalformedFrame)
      else Ok(ops.value.0)
  }

  lemma EntryExact(bytes: Bytes, o: nat, op: Operation, next: nat)
    ensures ParseEntry(bytes, o) == Ok((op, next)) <==>
            Parsable(op) && |OpBytes(op)| < U32_END && At(bytes, o, EntryBytes(op)) && next == o + |EntryBytes(op)|
  {
    hide GetLe, Le, Pow256, ParseOp, Parsable, OpBytes;
    Widths();
    GetLeNext(bytes, o, 4);
    var n := GetLe(bytes, o, 4);
    if n.Got? && n.next + n.value <= |bytes| {
      var part := bytes[n.next..n.next + n.value];
      OpExact(part, op);
      LeExact(bytes, o, 4, n.value, o + 4);
    }
    if Parsable(op) {
      LeExact(bytes, o, 4, |OpBytes(op)|, o + 4);
      AtBoth(bytes, o, Le(|OpBytes(op)|, 4), OpBytes(op));
    }
  }

  lemma {:induction false} EntriesExact(bytes: Bytes, o: nat, n: nat, ops: seq<Operation>, next: nat)
    requires o <= |bytes|
    ensures ParseEntries(bytes, o, n) == Ok((ops, next)) <==>
            AllParsable(ops) && |ops| == n && At(bytes, o, EntriesBytes(ops)) && next == o + |EntriesBytes(ops)|
    decreases n
  {
    hide At, ParseEntry, EntryBytes, Parsable, OpBytes;
    if n == 0 {
      AtNone(bytes, o);
    } else if |ops| > 0 {
      var head, tail := ops[0], ops[1..];
      assert ops == [head] + tail;
      var h := ParseEntry(bytes, o);
      if h.Ok? {
        EntryExact(bytes, o, h.value.0, h.value.1);
        AtBound(bytes, o, EntryBytes(h.value.0));
        EntriesExact(bytes, h.value.1, n - 1, tail, next);
      }
      if AllParsable(ops) {
        EntryExact(bytes, o, head, o + |EntryBytes(head)|);
        AtBoth(bytes, o, EntryBytes(head), EntriesBytes(tail));
      }
    }
  }

  /** The parser accepts exactly the batches of operations a frame can carry. */
  lemma BatchExact(bytes: Bytes, ops: seq<Operation>)
    ensures ParseBatch(bytes) == Ok(ops) <==> |ops| <= MAX_BATCH && AllParsable(ops) && bytes == BatchBytes(ops)
  {
    hide At, GetLe, Le, Pow256, ParseEntries, AllParsable, EntriesBytes;
    Widths();
    GetLeNext(bytes, 0, 4);
    var n := GetLe(bytes, 0, 4);
    if n.Got? {
      LeExact(bytes, 0, 4, n.value, 4);
      AtBound(bytes, 0, Le(n.value, 4));
      EntriesExact(bytes, 4, n.value, ops, |bytes|);
    }
    if AllParsable(ops) && |ops| <= MAX_BATCH {
      LeExact(bytes, 0, 4, |ops|, 4);
      AtBoth(bytes, 0, Le(|ops|, 4), EntriesBytes(ops));
      AtWhole(bytes, BatchBytes(ops));
    }
  }

  // ----------------------------------------------------------------- the writer

  predicate AllTyped(ops: seq<Operation>) {
    forall i :: 0 <= i < |ops| ==> Typed(ops[i])
  }

  /** The error of the first of `k` operations that the writer refuses. */
  function FirstError(ops: seq<Operation>, k: nat): Option<ErrorCode>
    requires AllTyped(ops) && k <= |ops|
  {
    if k == 0 then None
    else
      var before := FirstError(ops, k - 1);
      if before.Some? then before
      else
        match SerializeOp(ops[k - 1])
        case Ok(_) => None
        case Err(code) => Some(code)
  }

  lemma {:induction false} FirstErrorNone(ops: seq<Operation>, k: nat)
    requires AllTyped(ops) && k <= |ops|
    ensures FirstError(ops, k).None? <==> forall i :: 0 <= i < k ==> SerializeOp(ops[i]).Ok?
    decreases k
  {
    hide SerializeOp, Typed;
    if k > 0 { FirstErrorNone(ops, k - 1); }
  }

  lemma WrittenParsable(ops: seq<Operation>)
    requires AllTyped(ops) && forall i :: 0 <= i < |ops| ==> SerializeOp(ops[i]).Ok?
    ensures AllParsable(ops)
  {
    hide SerializeOp, Parsable, OpBytes;
    forall i | 0 <= i < |ops| ensures Parsable(ops[i]) && |OpBytes(ops[i])| < U32_END {
      SerializeWritten(ops[i]);
    }
  }

  function SerializeBatch(ops: seq<Operation>): Result<Bytes>
    requires AllTyped(ops)
  {
    if |ops| > MAX_BATCH then Err(OpTooLarge)
    else
      var bad := FirstError(ops, |ops|);
      FirstErrorNone(ops, |ops|);
      if bad.Some? then Err(bad.value)
      else
        WrittenParsable(ops);
        Ok(BatchBytes(ops))
  }

  lemma SerializeThenParseBatch(ops: seq<Operation>)
    requires AllTyped(ops) && SerializeBatch(ops).Ok?
    ensures ParseBatch(SerializeBatch(ops).value) == Ok(ops)
  {
    hide ParseBatch, BatchBytes, FirstError;
    FirstErrorNone(ops, |ops|);
    WrittenParsable(ops);
    BatchExact(BatchBytes(ops), ops);
  }

  lemma ParsableTyped(ops: seq<Operation>)
    requires AllParsable(ops)
    ensures AllTyped(ops)
  {
    hide OpBytes;
  }

  lemma ParseThenSerializeBatch(bytes: Bytes, ops: seq<Operation>)
    requires ParseBatch(bytes) == Ok(ops)
    ensures AllTyped(ops)
    ensures (forall i :: 0 <= i < |ops| ==> SerializeOp(ops[i]).Ok?) ==> SerializeBatch(ops) == Ok(bytes)
  {
    hide ParseBatch, BatchBytes, SerializeOp, OpBytes, FirstError;
    BatchExact(bytes, ops);
    ParsableTyped(ops);
    FirstErrorNone(ops, |ops|);
  }
}
