/** Recovery from a snapshot and the operations after it. */
module Recovery {
  import opened Types
  import opened Wire
  import opened Batches
  import opened Snapshot
  import opened Folding
  import opened ItemCodec
  import S = State

  /** Snapshot plus tail equals full replay, wherever the history was cut. */
  lemma SnapshotPlusTail(reg: Registry, start: S.Doc, head: seq<Operation>, tail: seq<Operation>, self: nat,
                         d: S.Doc, ids: seq<OpId>, rows: seq<OpId>, batch: Bytes) returns (e: S.Doc)
    requires Fold(reg, start, head).0 == d && Fold(reg, start, head).1.Ok?
    requires Storable(reg, d) && ListsIds(ids, d.applied) && ListsRows(rows, d.summary.contiguous)
    requires |ids| < U32_END && |rows| < U32_END
    requires AllEncodable(d.stream) && AllTyped(d.pending) && SerializeBatch(d.pending) == Ok(batch)
             && |batch| < U32_END
    requires Small(SnapshotBytes(d, ids, rows, batch))
    ensures Import(reg, self, SnapshotBytes(d, ids, rows, batch)) == Ok(e)
    ensures Fold(reg, e, tail).0 == Renamed(Fold(reg, start, head + tail).0, self)
    ensures Fold(reg, e, tail).1.Ok? == Fold(reg, start, head + tail).1.Ok?
  {
    RenamedIs(d, self);
    hide *;
    SnapshotRestores(reg, d, self, ids, rows, batch);
    e := Renamed(d, self);
    FoldMore(reg, start, head, tail);
    FoldBlind(reg, d, self, tail);
  }

  lemma RenamedIs(d: S.Doc, self: nat)
    ensures Renamed(d, self) == d.(self := self)
  {
  }
}
