/** Identities, items, operations and the attribute registry of the replicated
    document engine (cpp/crdt/include/concord/crdt: ids.hpp, item.hpp, op.hpp). */
module Types {
  type byte = x: int | 0 <= x < 256

  /** A C++ std::string: a sequence of bytes. */
  type Bytes = seq<byte>

  datatype Option<+T> = None | Some(value: T)

  datatype ErrorCode =
    | UnsupportedVersion
    | UnknownOpType
    | InvalidReplicaId
    | InvalidCounter
    | InvalidLamport
    | InvalidUnicodeScalar
    | UnknownAttributeName
    | InvalidAttributeValue
    | OpTooLarge
    | MalformedFrame
    | SnapshotVersionUnsupported
    | PendingLimitExceeded
    | CounterOverflow
    | InvalidArgument

  datatype Result<+T> = Ok(value: T) | Err(code: ErrorCode)

  const MAX_63: nat := 0x7FFF_FFFF_FFFF_FFFF
  const MAX_COUNTER: nat := MAX_63
  const MAX_LAMPORT: nat := MAX_63
  const PENDING_LIMIT: nat := 100_000

  /** Replica id zero is never valid; counters and lamports start at one. */
  datatype OpId = OpId(replica: nat, counter: nat) {
    predicate Valid() { replica != 0 && 1 <= counter <= MAX_COUNTER }
  }

  datatype ItemKind = Text | Delimiter

  datatype InitialAttr = InitialAttr(name: Bytes, value: Option<Bytes>)

  /** Three operation shapes.  A delete or attribute write may lack its target
      in the source's struct, so the target stays optional here. */
  datatype Operation =
    | Insert(id: OpId, lamport: nat, left: Option<OpId>, right: Option<OpId>,
             kind: ItemKind, scalar: nat, attrs: seq<InitialAttr>)
    | Delete(id: OpId, lamport: nat, target: Option<OpId>)
    | SetAttr(id: OpId, lamport: nat, target: Option<OpId>, name: Bytes, value: Option<Bytes>)

  /** A last-writer-wins register; a None value is a cleared register. */
  datatype Register = Register(value: Option<Bytes>, lamport: nat, writer: nat)

  type AttrMap = map<Bytes, Register>

  datatype Item = Item(id: OpId, left: Option<OpId>, right: Option<OpId>, kind: ItemKind,
                       scalar: nat, tombstoned: bool, attrs: AttrMap)

  /** The attribute registry, kept abstract: which names an item kind admits and
      which values each name admits. */
  datatype Registry = Registry(names: (ItemKind, Bytes) -> bool, values: (ItemKind, Bytes, Bytes) -> bool) {
    predicate Allows(kind: ItemKind, name: Bytes, value: Option<Bytes>) {
      names(kind, name) && (value.Some? ==> values(kind, name, value.value))
    }
  }

  // "type" and "paragraph"
  const TYPE_NAME: Bytes := [116, 121, 112, 101]
  const DEFAULT_BLOCK_TYPE: Bytes := [112, 97, 114, 97, 103, 114, 97, 112, 104]

  /** A Unicode scalar value other than U+0000. */
  predicate ValidScalar(scalar: nat) {
    scalar != 0 && !(0xD800 <= scalar <= 0xDFFF) && scalar <= 0x10FFFF
  }
}
