/** The byte encoding of stored items, shared by snapshots and the canonical state
    (cpp/crdt/src: snapshot.cpp, digest.cpp). */
module ItemCodec {
  import opened Types
  import opened Wire
  import opened Codec
  import opened Names

  function RegisterBytes(name: Bytes, reg: Register): Bytes {
    StringBytes(name) + (ValueBytes(reg.value) + (Le(reg.lamport, 8) + Le(reg.writer, 8)))
  }

  function RegistersBytes(attrs: AttrMap, names: seq<Bytes>): Bytes
    requires forall i :: 0 <= i < |names| ==> names[i] in attrs
  {
    if |names| == 0 then []
    else RegisterBytes(names[0], attrs[names[0]]) + RegistersBytes(attrs, names[1..])
  }

  lemma NamesPresent(attrs: AttrMap)
    ensures forall i :: 0 <= i < |SortedNames(attrs.Keys)| ==> SortedNames(attrs.Keys)[i] in attrs
  {
    var names := SortedNames(attrs.Keys);
    forall i | 0 <= i < |names| ensures names[i] in attrs {
      assert names[i] in names;
    }
  }

  /** Registers in name order, after their number. */
  function AttrMapBytes(attrs: AttrMap): Bytes {
    NamesPresent(attrs);
    Le(|attrs|, 4) + RegistersBytes(attrs, SortedNames(attrs.Keys))
  }

  function TombstoneByte(item: Item): byte {
    if item.tombstoned then 1 else 0
  }

  /** Any scalar has an encoding, U+0000 included; a delimiter has none. */
  predicate Encodable(kind: ItemKind, scalar: nat) {
    if kind == Text then Scalar(scalar) else scalar == 0
  }

  function ScalarPart(item: Item): Bytes
    requires Encodable(item.kind, item.scalar)
  {
    if item.kind == Text then ScalarBytes(item.scalar) else []
  }

  function ItemBytes(item: Item): Bytes
    requires Encodable(item.kind, item.scalar)
  {
    IdBytes(item.id) + (OptIdBytes(item.left) + (OptIdBytes(item.right) +
    ([KindByte(item.kind)] + ([TombstoneByte(item)] + (ScalarPart(item) + AttrMapBytes(item.attrs))))))
  }

  predicate AllEncodable(items: seq<Item>) {
    forall i :: 0 <= i < |items| ==> Encodable(items[i].kind, items[i].scalar)
  }

  function ItemsBytes(items: seq<Item>): Bytes
    requires AllEncodable(items)
  {
    if |items| == 0 then [] else ItemBytes(items[0]) + ItemsBytes(items[1..])
  }

  /** The offsets of an item's parts: behind the id, the left and the right anchor. */
  function LeftOffset(o: nat): nat { o + 16 }
  function RightOffset(o: nat, item: Item): nat { LeftOffset(o) + |OptIdBytes(item.left)| }
  function KindOffset(o: nat, item: Item): nat { RightOffset(o, item) + |OptIdBytes(item.right)| }
  function ScalarOffset(o: nat, item: Item): nat { KindOffset(o, item) + 2 }
  function AttrsOffset(o: nat, item: Item): nat
    requires Encodable(item.kind, item.scalar)
  {
    ScalarOffset(o, item) + |ScalarPart(item)|
  }

  lemma ItemPieces(bytes: Bytes, o: nat, item: Item)
    requires Encodable(item.kind, item.scalar) && At(bytes, o, ItemBytes(item))
    ensures At(bytes, o, IdBytes(item.id)) && At(bytes, LeftOffset(o), OptIdBytes(item.left))
    ensures At(bytes, RightOffset(o, item), OptIdBytes(item.right))
    ensures At(bytes, KindOffset(o, item), [KindByte(item.kind)])
    ensures At(bytes, KindOffset(o, item) + 1, [TombstoneByte(item)])
    ensures At(bytes, ScalarOffset(o, item), ScalarPart(item))
    ensures At(bytes, AttrsOffset(o, item), AttrMapBytes(item.attrs))
    ensures AttrsOffset(o, item) + |AttrMapBytes(item.attrs)| == o + |ItemBytes(item)|
  {
    hide At, IdBytes, OptIdBytes, ScalarPart, AttrMapBytes, KindByte, TombstoneByte, Encodable;
    var a, m := AttrMapBytes(item.attrs), ScalarPart(item);
    var t, k := [TombstoneByte(item)], [KindByte(item.kind)];
    var r, l := OptIdBytes(item.right), OptIdBytes(item.left);
    AtBoth(bytes, o, IdBytes(item.id), l + (r + (k + (t + (m + a)))));
    AtBoth(bytes, LeftOffset(o), l, r + (k + (t + (m + a))));
    AtBoth(bytes, RightOffset(o, item), r, k + (t + (m + a)));
    AtBoth(bytes, KindOffset(o, item), k, t + (m + a));
    AtBoth(bytes, KindOffset(o, item) + 1, t, m + a);
    AtBoth(bytes, ScalarOffset(o, item), m, a);
  }

  lemma RegisterPieces(bytes: Bytes, o: nat, name: Bytes, reg: Register)
    requires At(bytes, o, RegisterBytes(name, reg))
    ensures At(bytes, o, StringBytes(name)) && At(bytes, o + 8 + |name|, ValueBytes(reg.value))
    ensures var p := o + 8 + |name| + |ValueBytes(reg.value)|;
            At(bytes, p, Le(reg.lamport, 8)) && At(bytes, p + 8, Le(reg.writer, 8))
              && p + 16 == o + |RegisterBytes(name, reg)|
  {
    hide At, StringBytes, ValueBytes, Le;
    StringLength(name);
    var v, l, w := ValueBytes(reg.value), Le(reg.lamport, 8), Le(reg.writer, 8);
    AtBoth(bytes, o, StringBytes(name), v + (l + w));
    AtBoth(bytes, o + 8 + |name|, v, l + w);
    AtBoth(bytes, o + 8 + |name| + |v|, l, w);
  }

  // ------------------------------------------------------------------- appending
}
