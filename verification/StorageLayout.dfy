/** Batches, snapshots and the canonical state by position: which byte means what. */
module StorageLayout {
  import opened Types
  import opened Wire
  import opened Codec
  import opened Batches
  import opened Names
  import opened ItemCodec
  import opened Snapshot
  import opened Canonical
  import opened Layout
  import S = State

  // --------------------------------------------------------------------- batches

  /** A length in four bytes and a frame of that length for each operation, to the end. */
  predicate EntriesLie(b: Bytes, o: nat, ops: seq<Operation>)
    decreases |ops|
  {
    if |ops| == 0 then o == |b|
    else
      && o + 4 <= |b|
      && var n := U32(b, o);
         && o + 4 + n <= |b| && OpLies(b[o + 4..o + 4 + n], ops[0]) && EntriesLie(b, o + 4 + n, ops[1..])
  }

  /** The number of operations in four bytes, then the entries. */
  predicate BatchLies(b: Bytes, ops: seq<Operation>) {
    |b| >= 4 && U32(b, 0) == |ops| && EntriesLie(b, 4, ops)
  }

  lemma {:induction false} EntriesExactly(b: Bytes, o: nat, ops: seq<Operation>)
    requires o <= |b| && AllParsable(ops)
    ensures At(b, o, EntriesBytes(ops)) && |b| == o + |EntriesBytes(ops)| <==> EntriesLie(b, o, ops)
    decreases |ops|
  {
    hide At, OpBytes, OpLies, Parsable, Le, U32;
    if |ops| == 0 {
      Same(b, o, []);
    } else {
      var op, frame, rest := ops[0], OpBytes(ops[0]), EntriesBytes(ops[1..]);
      AtBoth(b, o, EntryBytes(op), rest);
      AtBoth(b, o, Le(|frame|, 4), frame);
      U32Exact(b, o, |frame|);
      if o + 4 <= |b| {
        var n := U32(b, o);
        if o + 4 + n <= |b| {
          Slice(b, o + 4, n, frame);
          FrameLies(b[o + 4..o + 4 + n], op);
          EntriesExactly(b, o + 4 + n, ops[1..]);
        }
        if At(b, o + 4, frame) { AtFits(b, o + 4, frame); }
      }
    }
  }

  lemma Slice(b: Bytes, o: nat, n: nat, s: Bytes)
    requires o + n <= |b|
    ensures b[o..o + n] == s <==> n == |s| && At(b, o, s)
  {
  }

  lemma AtFits(b: Bytes, o: nat, s: Bytes)
    requires At(b, o, s)
    ensures o + |s| <= |b|
  {
  }

  /** The parser gives a batch exactly for the bytes that say so, one by one. */
  lemma BatchByPosition(b: Bytes, ops: seq<Operation>)
    ensures ParseBatch(b) == Ok(ops) <==> |ops| <= MAX_BATCH && AllParsable(ops) && BatchLies(b, ops)
  {
    hide At, ParseBatch, EntriesLie, EntriesBytes, Parsable, Le, U32;
    BatchExact(b, ops);
    if |ops| <= MAX_BATCH && AllParsable(ops) {
      AtWhole(b, BatchBytes(ops));
      AtBoth(b, 0, Le(|ops|, 4), EntriesBytes(ops));
      U32Exact(b, 0, |ops|);
      if |b| >= 4 { EntriesExactly(b, 4, ops); }
    }
  }

  // ----------------------------------------------------------------------- items

  /** Name, value, clock and writer. */
  predicate RegisterLies(b: Bytes, o: nat, name: Bytes, r: Register) {
    var v := o + 8 + |name|;
    var w := v + ValueSize(r.value);
    && TextLies(b, o, name) && ValueLies(b, v, r.value)
    && w + 16 <= |b| && U64(b, w) == r.lamport && U64(b, w + 8) == r.writer
  }

  function RegisterSize(name: Bytes, r: Register): nat {
    8 + |name| + ValueSize(r.value) + 16
  }

  predicate RegistersLie(b: Bytes, o: nat, attrs: AttrMap, names: seq<Bytes>)
    requires forall i :: 0 <= i < |names| ==> names[i] in attrs
    decreases |names|
  {
    |names| == 0
    || (&& RegisterLies(b, o, names[0], attrs[names[0]])
        && RegistersLie(b, o + RegisterSize(names[0], attrs[names[0]]), attrs, names[1..]))
  }

  function RegistersSize(attrs: AttrMap, names: seq<Bytes>): nat
    requires forall i :: 0 <= i < |names| ==> names[i] in attrs
    decreases |names|
  {
    if |names| == 0 then 0 else RegisterSize(names[0], attrs[names[0]]) + RegistersSize(attrs, names[1..])
  }

  function CharSize(s: nat): nat {
    if s < 0x80 then 1 else if s < 0x800 then 2 else if s < 0x1_0000 then 3 else 4
  }

  /** How many bytes stand before an item's kind. */
  function AnchorsSize(x: Item): nat {
    16 + OptSize(x.left) + OptSize(x.right)
  }

  function CharPart(x: Item): nat {
    if x.kind == Text then 1 + CharSize(x.scalar) else 0
  }

  function ItemSize(x: Item): nat {
    NamesPresent(x.attrs);
    AnchorsSize(x) + 2 + CharPart(x) + 4 + RegistersSize(x.attrs, SortedNames(x.attrs.Keys))
  }

  /** Identity, left anchor, right anchor, kind, tombstone, the length and bytes of a
      character, the number of registers, and the registers in name order. */
  predicate ItemLies(b: Bytes, o: nat, x: Item) {
    NamesPresent(x.attrs);
    var kind := o + AnchorsSize(x);
    var count := kind + 2 + CharPart(x);
    && IdLies(b, o, x.id) && OptLies(b, o + 16, x.left) && OptLies(b, o + 16 + OptSize(x.left), x.right)
    && kind + 1 < |b| && b[kind] == (if x.kind == Text then 1 else 2) && b[kind + 1] == (if x.tombstoned then 1 else 0)
    && (x.kind == Text ==>
          kind + 2 < |b| && b[kind + 2] == CharSize(x.scalar) && CharLies(b, kind + 3, CharSize(x.scalar), x.scalar))
    && count + 4 <= |b| && U32(b, count) == |x.attrs|
    && RegistersLie(b, count + 4, x.attrs, SortedNames(x.attrs.Keys))
  }

  predicate ItemsLie(b: Bytes, o: nat, items: seq<Item>)
    decreases |items|
  {
    |items| == 0 || (ItemLies(b, o, items[0]) && ItemsLie(b, o + ItemSize(items[0]), items[1..]))
  }

  function ItemsSize(items: seq<Item>): nat
    decreases |items|
  {
    if |items| == 0 then 0 else ItemSize(items[0]) + ItemsSize(items[1..])
  }

  lemma RegisterExactly(b: Bytes, o: nat, name: Bytes, r: Register)
    requires WiredRegister(name, r)
    ensures At(b, o, RegisterBytes(name, r)) <==> RegisterLies(b, o, name, r)
    ensures |RegisterBytes(name, r)| == RegisterSize(name, r)
  {
    hide At, StringBytes, ValueBytes, Le, TextLies, ValueLies, U64;
    var v := o + 8 + |name|;
    var w := v + ValueSize(r.value);
    TextExactly(b, o, name);
    ValueExactly(b, v, r.value);
    U64Exact(b, w, r.lamport);
    U64Exact(b, w + 8, r.writer);
    AtBoth(b, o, StringBytes(name), ValueBytes(r.value) + (Le(r.lamport, 8) + Le(r.writer, 8)));
    AtBoth(b, v, ValueBytes(r.value), Le(r.lamport, 8) + Le(r.writer, 8));
    AtBoth(b, w, Le(r.lamport, 8), Le(r.writer, 8));
  }

  lemma {:induction false} RegistersExactly(b: Bytes, o: nat, attrs: AttrMap, names: seq<Bytes>)
    requires forall i :: 0 <= i < |names| ==> names[i] in attrs && WiredRegister(names[i], attrs[names[i]])
    requires o <= |b|
    ensures At(b, o, RegistersBytes(attrs, names)) <==> RegistersLie(b, o, attrs, names)
    ensures |RegistersBytes(attrs, names)| == RegistersSize(attrs, names)
    decreases |names|
  {
    hide At, RegisterBytes, RegisterLies, WiredRegister, RegisterSize;
    if |names| == 0 {
      Same(b, o, []);
    } else {
      var r, rest := attrs[names[0]], RegistersBytes(attrs, names[1..]);
      AtBoth(b, o, RegisterBytes(names[0], r), rest);
      RegisterExactly(b, o, names[0], r);
      var p := o + RegisterSize(names[0], r);
      if p <= |b| {
        RegistersExactly(b, p, attrs, names[1..]);
      } else {
        RegistersExactly(b, |b|, attrs, names[1..]);
        RegisterFits(b, o, names[0], r);
      }
    }
  }

  lemma RegisterFits(b: Bytes, o: nat, name: Bytes, r: Register)
    ensures RegisterLies(b, o, name, r) ==> o + RegisterSize(name, r) <= |b|
  {
  }

  lemma CharSizeIs(s: nat)
    requires Scalar(s)
    ensures |Utf8(s)| == CharSize(s)
  {
  }

  lemma CharPartExactly(b: Bytes, o: nat, x: Item)
    requires Encodable(x.kind, x.scalar)
    ensures |ScalarPart(x)| == CharPart(x)
    ensures x.kind == Text ==>
              (At(b, o, ScalarPart(x)) <==>
               o < |b| && b[o] == CharSize(x.scalar) && CharLies(b, o + 1, CharSize(x.scalar), x.scalar))
    ensures x.kind == Delimiter ==> (At(b, o, ScalarPart(x)) <==> o <= |b|)
  {
    if x.kind == Text {
      var n := |Utf8(x.scalar)|;
      CharSizeIs(x.scalar);
      CharExact(b, o + 1, x.scalar);
      hide At, Utf8, CharLies, CharSize;
      AtBoth(b, o, [n], Utf8(x.scalar));
      OneByte(b, o, n);
    } else {
      Same(b, o, []);
    }
  }

  lemma AttrMapExactly(b: Bytes, o: nat, attrs: AttrMap)
    requires |attrs| < U32_END && forall name :: name in attrs ==> WiredRegister(name, attrs[name])
    ensures (forall i :: 0 <= i < |SortedNames(attrs.Keys)| ==> SortedNames(attrs.Keys)[i] in attrs)
    ensures At(b, o, AttrMapBytes(attrs)) <==>
            o + 4 <= |b| && U32(b, o) == |attrs| && RegistersLie(b, o + 4, attrs, SortedNames(attrs.Keys))
    ensures |AttrMapBytes(attrs)| == 4 + RegistersSize(attrs, SortedNames(attrs.Keys))
  {
    NamesPresent(attrs);
    var names := SortedNames(attrs.Keys);
    hide At, Le, U32, RegistersBytes, RegistersLie, WiredRegister, SortedNames, RegistersSize;
    AtBoth(b, o, Le(|attrs|, 4), RegistersBytes(attrs, names));
    U32Exact(b, o, |attrs|);
    if o + 4 <= |b| {
      RegistersExactly(b, o + 4, attrs, names);
    } else {
      RegistersExactly(b, |b|, attrs, names);
    }
  }

  lemma ItemExactly(b: Bytes, o: nat, x: Item)
    requires Wired(x)
    ensures Encodable(x.kind, x.scalar)
    ensures At(b, o, ItemBytes(x)) <==> ItemLies(b, o, x)
    ensures |ItemBytes(x)| == ItemSize(x)
  {
    hide At, IdBytes, OptIdBytes, ScalarPart, AttrMapBytes, IdLies, OptLies, CharLies, CharSize, CharPart, U32,
         Encodable, RegistersLie, RegistersSize, SortedNames, OptSize, WiredRegister;
    var l, r, k := OptIdBytes(x.left), OptIdBytes(x.right), [KindByte(x.kind)];
    var t, m, a := [TombstoneByte(x)], ScalarPart(x), AttrMapBytes(x.attrs);
    var kind := o + AnchorsSize(x);
    IdExactly(b, o, x.id);
    OptExactly(b, o + 16, x.left);
    OptExactly(b, o + 16 + OptSize(x.left), x.right);
    OneByte(b, kind, KindByte(x.kind));
    OneByte(b, kind + 1, TombstoneByte(x));
    CharPartExactly(b, kind + 2, x);
    AttrMapExactly(b, kind + 2 + CharPart(x), x.attrs);
    AtBoth(b, o, IdBytes(x.id), l + (r + (k + (t + (m + a)))));
    AtBoth(b, o + 16, l, r + (k + (t + (m + a))));
    AtBoth(b, o + 16 + |l|, r, k + (t + (m + a)));
    AtBoth(b, kind, k, t + (m + a));
    AtBoth(b, kind + 1, t, m + a);
    AtBoth(b, kind + 2, m, a);
  }

  predicate EachWired(items: seq<Item>) {
    forall i :: 0 <= i < |items| ==> Wired(items[i])
  }

  lemma {:induction false} ItemsLength(items: seq<Item>)
    requires EachWired(items)
    ensures AllEncodable(items) && |ItemsBytes(items)| == ItemsSize(items)
  {
    ItemsEncodable(items);
    hide ItemBytes, ItemSize, Wired, Encodable;
    if |items| > 0 {
      ItemExactly([], 0, items[0]);
      ItemsLength(items[1..]);
    }
  }

  lemma {:induction false} ItemsExactly(b: Bytes, o: nat, items: seq<Item>)
    requires o <= |b| && EachWired(items)
    ensures AllEncodable(items)
    ensures At(b, o, ItemsBytes(items)) == ItemsLie(b, o, items)
    decreases |items|, 1
  {
    if |items| == 0 {
      NoItems(b, o);
    } else {
      ItemsMore(b, o, items);
    }
  }

  lemma {:induction false} ItemsMore(b: Bytes, o: nat, items: seq<Item>)
    requires o <= |b| && EachWired(items) && |items| > 0
    ensures AllEncodable(items)
    ensures At(b, o, ItemsBytes(items)) == ItemsLie(b, o, items)
    decreases |items|, 0
  {
    hide *;
    var x, rest := items[0], items[1..];
    ItemsUnfold(items, x, rest);
    LiesUnfold(b, o, items, x, rest);
    var p := o + ItemSize(x);
    var second := RestLies(b, p, rest);
    ItemBehind(b, o, p, x, ItemsBytes(rest), second);
  }

  lemma {:induction false} RestLies(b: Bytes, p: nat, rest: seq<Item>) returns (second: bool)
    requires EachWired(rest)
    ensures AllEncodable(rest) && second == ItemsLie(b, p, rest)
    ensures p <= |b| ==> At(b, p, ItemsBytes(rest)) == second
    decreases |rest|, 2
  {
    ItemsEncodable(rest);
    hide *;
    second := ItemsLie(b, p, rest);
    if p <= |b| { ItemsExactly(b, p, rest); }
  }

  lemma ItemBehind(b: Bytes, o: nat, p: nat, x: Item, tail: Bytes, second: bool)
    requires Wired(x) && Encodable(x.kind, x.scalar) && p == o + ItemSize(x)
    requires p <= |b| ==> (At(b, p, tail) <==> second)
    ensures At(b, o, ItemBytes(x) + tail) <==> ItemLies(b, o, x) && second
  {
    hide *;
    ItemExactly(b, o, x);
    Behind(b, o, p, ItemBytes(x), tail, ItemLies(b, o, x), second);
  }

  lemma NoItems(b: Bytes, o: nat)
    requires o <= |b|
    ensures At(b, o, ItemsBytes([])) && ItemsLie(b, o, []) && |ItemsBytes([])| == ItemsSize([]) == 0
  {
  }

  /** What stands behind a piece matters only where the piece stands. */
  lemma Behind(b: Bytes, o: nat, p: nat, head: Bytes, tail: Bytes, first: bool, second: bool)
    requires p == o + |head| && (At(b, o, head) <==> first)
    requires p <= |b| ==> (At(b, p, tail) <==> second)
    ensures At(b, o, head + tail) <==> first && second
  {
    AtBoth(b, o, head, tail);
  }

  lemma ItemsUnfold(items: seq<Item>, x: Item, rest: seq<Item>)
    requires |items| > 0 && EachWired(items) && x == items[0] && rest == items[1..]
    ensures AllEncodable(items) && Wired(x) && EachWired(rest) && Encodable(x.kind, x.scalar) && AllEncodable(rest)
    ensures ItemsBytes(items) == ItemBytes(x) + ItemsBytes(rest)
  {
    ItemsEncodable(items);
    hide ItemBytes, Encodable, Wired;
  }

  lemma LiesUnfold(b: Bytes, o: nat, items: seq<Item>, x: Item, rest: seq<Item>)
    requires |items| > 0 && x == items[0] && rest == items[1..]
    ensures ItemsLie(b, o, items) <==> ItemLies(b, o, x) && ItemsLie(b, o + ItemSize(x), rest)
  {
    hide ItemLies, ItemSize;
  }

  lemma ItemsEncodable(items: seq<Item>)
    requires EachWired(items)
    ensures AllEncodable(items)
  {
  }

  // -------------------------------------------------------- snapshots, canonical state

  /** Replica and counter of each pair, in eight bytes each. */
  predicate PairsLie(b: Bytes, o: nat, pairs: seq<OpId>) {
    forall i {:trigger pairs[i]} :: 0 <= i < |pairs| ==> IdLies(b, o + 16 * i, pairs[i])
  }

  /** The number of pairs in four bytes, then the pairs. */
  predicate CountedLie(b: Bytes, o: nat, pairs: seq<OpId>) {
    o + 4 <= |b| && U32(b, o) == |pairs| && PairsLie(b, o + 4, pairs)
  }

  predicate SectionLies(b: Bytes, o: nat, items: seq<Item>) {
    o + 4 <= |b| && U32(b, o) == |items| && ItemsLie(b, o + 4, items)
  }

  /** Version, identity, next counter, clock; items; applied ids; pending batch; rows. */
  predicate SnapshotLies(b: Bytes, d: S.Doc, ids: seq<OpId>, rows: seq<OpId>, batch: Bytes) {
    var applied := 29 + ItemsSize(d.stream);
    var pending := applied + 4 + 16 * |ids|;
    var summary := pending + 4 + |batch|;
    && |b| == summary + 4 + 16 * |rows|
    && b[0] == 1 && U64(b, 1) == d.self && U64(b, 9) == d.nextCounter && U64(b, 17) == d.lamport
    && SectionLies(b, 25, d.stream) && CountedLie(b, applied, ids)
    && U32(b, pending) == |batch| && b[pending + 4..summary] == batch && CountedLie(b, summary, rows)
  }

  /** Items; applied ids; rows. */
  predicate CanonicalLies(b: Bytes, items: seq<Item>, ids: seq<OpId>, rows: seq<OpId>) {
    var applied := 4 + ItemsSize(items);
    var summary := applied + 4 + 16 * |ids|;
    && |b| == summary + 4 + 16 * |rows|
    && SectionLies(b, 0, items) && CountedLie(b, applied, ids) && CountedLie(b, summary, rows)
  }

  lemma {:induction false} PairsExactly(b: Bytes, o: nat, pairs: seq<OpId>)
    requires o <= |b| && AllFit(pairs)
    ensures At(b, o, PairsBytes(pairs)) <==> PairsLie(b, o, pairs)
    ensures |PairsBytes(pairs)| == 16 * |pairs|
    decreases |pairs|
  {
    hide At, IdBytes, IdLies;
    if |pairs| == 0 {
      Same(b, o, []);
    } else {
      AtBoth(b, o, IdBytes(pairs[0]), PairsBytes(pairs[1..]));
      IdExactly(b, o, pairs[0]);
      if o + 16 <= |b| {
        PairsExactly(b, o + 16, pairs[1..]);
        PairsSplit(b, o, pairs);
      } else {
        PairsExactly(b, |b|, pairs[1..]);
        IdFits(b, o, pairs[0]);
      }
    }
  }

  lemma PairsSplit(b: Bytes, o: nat, pairs: seq<OpId>)
    requires |pairs| > 0
    ensures PairsLie(b, o, pairs) <==> IdLies(b, o, pairs[0]) && PairsLie(b, o + 16, pairs[1..])
  {
    hide IdLies;
    var rest := pairs[1..];
    if PairsLie(b, o, pairs) {
      forall i | 0 <= i < |rest| ensures IdLies(b, o + 16 + 16 * i, rest[i]) {
        assert rest[i] == pairs[i + 1];
      }
    }
    if IdLies(b, o, pairs[0]) && PairsLie(b, o + 16, rest) {
      forall i {:trigger pairs[i]} | 0 <= i < |pairs| ensures IdLies(b, o + 16 * i, pairs[i]) {
        if i > 0 {
          assert rest[i - 1] == pairs[i];
          assert IdLies(b, o + 16 + 16 * (i - 1), rest[i - 1]);
        }
      }
    }
  }

  lemma IdFits(b: Bytes, o: nat, id: OpId)
    ensures IdLies(b, o, id) ==> o + 16 <= |b|
  {
  }

  lemma CountedExactly(b: Bytes, o: nat, pairs: seq<OpId>)
    requires AllFit(pairs) && |pairs| < U32_END
    ensures At(b, o, CountedPairs(pairs)) <==> CountedLie(b, o, pairs)
    ensures |CountedPairs(pairs)| == 4 + 16 * |pairs|
  {
    hide At, Le, U32, PairsBytes, PairsLie, Fits;
    AtBoth(b, o, Le(|pairs|, 4), PairsBytes(pairs));
    U32Exact(b, o, |pairs|);
    if o + 4 <= |b| { PairsExactly(b, o + 4, pairs); } else { PairsExactly(b, |b|, pairs); }
  }

  lemma SectionExactly(b: Bytes, o: nat, items: seq<Item>)
    requires AllWired(items)
    ensures AllEncodable(items)
    ensures At(b, o, ItemSection(items)) <==> SectionLies(b, o, items)
    ensures |ItemSection(items)| == 4 + ItemsSize(items)
  {
    assert EachWired(items);
    ItemsEncodable(items);
    hide At, Le, U32, ItemsBytes, ItemsLie, Wired, ItemsSize, Encodable;
    AtBoth(b, o, Le(|items|, 4), ItemsBytes(items));
    U32Exact(b, o, |items|);
    ItemsLength(items);
    if o + 4 <= |b| { ItemsExactly(b, o + 4, items); }
  }

  lemma HeaderExactly(b: Bytes, d: S.Doc)
    requires d.self < U64_END && d.nextCounter < U64_END && d.lamport < U64_END
    ensures At(b, 0, HeaderBytes(d)) <==>
            |b| >= 25 && b[0] == 1 && U64(b, 1) == d.self && U64(b, 9) == d.nextCounter && U64(b, 17) == d.lamport
    ensures |HeaderBytes(d)| == 25
  {
    hide At, Le, U64;
    AtBoth(b, 0, [1], Le(d.self, 8) + (Le(d.nextCounter, 8) + Le(d.lamport, 8)));
    AtBoth(b, 1, Le(d.self, 8), Le(d.nextCounter, 8) + Le(d.lamport, 8));
    AtBoth(b, 9, Le(d.nextCounter, 8), Le(d.lamport, 8));
    OneByte(b, 0, 1);
    U64Exact(b, 1, d.self);
    U64Exact(b, 9, d.nextCounter);
    U64Exact(b, 17, d.lamport);
  }

  /** The snapshot of a document is the bytes that say so, one by one. */
  lemma SnapshotByPosition(b: Bytes, d: S.Doc, ids: seq<OpId>, rows: seq<OpId>, batch: Bytes)
    requires AllWired(d.stream) && AllFit(ids) && AllFit(rows)
    requires |ids| < U32_END && |rows| < U32_END && |batch| < U32_END
    requires d.self < U64_END && d.nextCounter < U64_END && d.lamport < U64_END
    ensures AllEncodable(d.stream)
    ensures b == SnapshotBytes(d, ids, rows, batch) <==> SnapshotLies(b, d, ids, rows, batch)
  {
    hide At, HeaderBytes, ItemSection, CountedPairs, Le, U32, U64, AllWired, AllFit, SectionLies, CountedLie, ItemsSize,
         AllEncodable;
    SectionExactly(b, 25, d.stream);
    var applied := 29 + ItemsSize(d.stream);
    var pending := applied + 4 + 16 * |ids|;
    var summary := pending + 4 + |batch|;
    HeaderExactly(b, d);
    CountedExactly(b, applied, ids);
    CountedExactly(b, summary, rows);
    U32Exact(b, pending, |batch|);
    var i, a, p, r := ItemSection(d.stream), CountedPairs(ids), PendingSection(batch), CountedPairs(rows);
    AtWhole(b, SnapshotBytes(d, ids, rows, batch));
    AtBoth(b, 0, HeaderBytes(d), i + (a + (p + r)));
    AtBoth(b, 25, i, a + (p + r));
    AtBoth(b, applied, a, p + r);
    AtBoth(b, pending, p, r);
    AtBoth(b, pending, Le(|batch|, 4), batch);
    if summary <= |b| { Slice(b, pending + 4, |batch|, batch); }
  }

  /** So is the canonical state. */
  lemma CanonicalByPosition(b: Bytes, items: seq<Item>, ids: seq<OpId>, rows: seq<OpId>)
    requires AllWired(items) && AllFit(ids) && AllFit(rows) && |ids| < U32_END && |rows| < U32_END
    ensures AllEncodable(items)
    ensures b == CanonicalBytes(items, ids, rows) <==> CanonicalLies(b, items, ids, rows)
  {
    hide At, ItemSection, CountedPairs, AllWired, AllFit, SectionLies, CountedLie, ItemsSize, AllEncodable;
    SectionExactly(b, 0, items);
    var applied := 4 + ItemsSize(items);
    var summary := applied + 4 + 16 * |ids|;
    CountedExactly(b, applied, ids);
    CountedExactly(b, summary, rows);
    AtWhole(b, CanonicalBytes(items, ids, rows));
    AtBoth(b, 0, ItemSection(items), CountedPairs(ids) + CountedPairs(rows));
    AtBoth(b, applied, CountedPairs(ids), CountedPairs(rows));
  }
}
