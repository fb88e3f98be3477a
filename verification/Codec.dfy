/** The wire format of operations (cpp/crdt/src/serialize.cpp): what the writer
    emits, what the strict parser accepts, and that the two are inverse. */
module Codec {
  import opened Types
  import opened Wire

  const PROTOCOL_VERSION: byte := 1
  const MAX_OP_BYTES: nat := 65536
  const MAX_ATTR_NAME: nat := 64
  const MAX_ATTR_VALUE: nat := 256
  // The reader is laxer than the writer.
  const READ_LIMIT: nat := 1024
  const MAX_ATTRS: nat := 255

  function KindByte(kind: ItemKind): byte {
    if kind == Text then 1 else 2
  }

  // ----------------------------------------------------------------- attributes

  function ValueBytes(value: Option<Bytes>): Bytes {
    if value.Some? then [1] + StringBytes(value.value) else [0]
  }

  function AttrBytes(attr: InitialAttr): Bytes {
    StringBytes(attr.name) + ValueBytes(attr.value)
  }

  function AttrsBytes(attrs: seq<InitialAttr>): Bytes {
    if |attrs| == 0 then [] else AttrBytes(attrs[0]) + AttrsBytes(attrs[1..])
  }

  function GetValue(bytes: Bytes, o: nat): Read<Option<Bytes>> {
    var flag := GetByte(bytes, o);
    if flag.Fail? then Fail
    else if flag.value == 0 then Got(None, flag.next)
    else if flag.value != 1 then Fail
    else
      var v := GetString(bytes, flag.next, READ_LIMIT);
      if v.Fail? then Fail else Got(Some(v.value), v.next)
  }

  function GetAttr(bytes: Bytes, o: nat): Read<InitialAttr> {
    var name := GetString(bytes, o, READ_LIMIT);
    if name.Fail? then Fail
    else
      var value := GetValue(bytes, name.next);
      if value.Fail? then Fail else Got(InitialAttr(name.value, value.value), value.next)
  }

  function GetAttrs(bytes: Bytes, o: nat, n: nat): Read<seq<InitialAttr>>
    decreases n
  {
    if n == 0 then Got([], o)
    else
      var head := GetAttr(bytes, o);
      if head.Fail? then Fail
      else
        var tail := GetAttrs(bytes, head.next, n - 1);
        if tail.Fail? then Fail else Got([head.value] + tail.value, tail.next)
  }

  predicate Within(limit: nat, value: Option<Bytes>) {
    value.Some? ==> |value.value| <= limit
  }

  predicate ReadableAttr(attr: InitialAttr) {
    |attr.name| <= READ_LIMIT && Within(READ_LIMIT, attr.value)
  }

  lemma ValueExact(bytes: Bytes, o: nat, v: Option<Bytes>, next: nat)
    ensures GetValue(bytes, o) == Got(v, next) <==>
            Within(READ_LIMIT, v) && At(bytes, o, ValueBytes(v)) && next == o + |ValueBytes(v)|
  {
    hide At, GetString, GetByte, StringBytes;
    ByteExact(bytes, o, 0, o + 1);
    ByteExact(bytes, o, 1, o + 1);
    GetByteNext(bytes, o);
    if v.Some? {
      AtBoth(bytes, o, [1], StringBytes(v.value));
      StringLength(v.value);
      StringExact(bytes, o + 1, READ_LIMIT, v.value, next);
    }
  }

  lemma StringLength(s: Bytes)
    ensures |StringBytes(s)| == 8 + |s|
  {
  }

  lemma GetStringNext(bytes: Bytes, o: nat, limit: nat)
    requires limit < U64_END
    ensures GetString(bytes, o, limit).Got? ==>
            var r := GetString(bytes, o, limit); r.next == o + 8 + |r.value|
  {
    var r := GetString(bytes, o, limit);
    if r.Got? { StringExact(bytes, o, limit, r.value, r.next); }
  }

  lemma AttrExact(bytes: Bytes, o: nat, attr: InitialAttr, next: nat)
    ensures GetAttr(bytes, o) == Got(attr, next) <==>
            ReadableAttr(attr) && At(bytes, o, AttrBytes(attr)) && next == o + |AttrBytes(attr)|
  {
    hide At, GetString, GetValue, StringBytes, ValueBytes;
    var mid := o + 8 + |attr.name|;
    AtBoth(bytes, o, StringBytes(attr.name), ValueBytes(attr.value));
    StringLength(attr.name);
    StringExact(bytes, o, READ_LIMIT, attr.name, mid);
    GetStringNext(bytes, o, READ_LIMIT);
    ValueExact(bytes, mid, attr.value, next);
  }

  lemma AtNone(bytes: Bytes, o: nat)
    requires o <= |bytes|
    ensures At(bytes, o, [])
  {
  }

  lemma AtBound(bytes: Bytes, o: nat, piece: Bytes)
    requires At(bytes, o, piece)
    ensures o + |piece| <= |bytes|
  {
  }

  lemma {:induction false} AttrsExact(bytes: Bytes, o: nat, n: nat, attrs: seq<InitialAttr>, next: nat)
    requires o <= |bytes|
    ensures GetAttrs(bytes, o, n) == Got(attrs, next) <==>
            (forall i :: 0 <= i < |attrs| ==> ReadableAttr(attrs[i])) && |attrs| == n
            && At(bytes, o, AttrsBytes(attrs)) && next == o + |AttrsBytes(attrs)|
    decreases n
  {
    hide At, GetAttr, AttrBytes, ReadableAttr;
    if n == 0 {
      AtNone(bytes, o);
    } else if |attrs| > 0 {
      var head, tail := attrs[0], attrs[1..];
      assert attrs == [head] + tail;
      var mid := o + |AttrBytes(head)|;
      AttrExact(bytes, o, head, mid);
      AtBoth(bytes, o, AttrBytes(head), AttrsBytes(tail));
      if At(bytes, o, AttrBytes(head)) {
        AtBound(bytes, o, AttrBytes(head));
        AttrsExact(bytes, mid, n - 1, tail, next);
      }
      var h := GetAttr(bytes, o);
      if h.Got? { AttrExact(bytes, o, h.value, h.next); }
    }
  }

  // ----------------------------------------------------------- kind and scalar

  function ScalarBytes(s: nat): Bytes
    requires s <= 0x10FFFF
  {
    [|Utf8(s)|] + Utf8(s)
  }

  /** A length byte and a scalar that must fill exactly that many bytes. */
  function ParseScalar(bytes: Bytes, o: nat): Result<(nat, nat)> {
    var n := GetByte(bytes, o);
    if n.Fail? || n.value < 1 || n.value > 4 || |bytes| < n.next + n.value then Err(MalformedFrame)
    else
      var s := GetScalar(bytes[n.next..n.next + n.value], 0);
      if s.Fail? || s.next != n.value || s.value == 0 then Err(InvalidUnicodeScalar)
      else Ok((s.value, n.next + n.value))
  }

  lemma ScalarFieldExact(bytes: Bytes, o: nat, s: nat, next: nat)
    ensures ParseScalar(bytes, o) == Ok((s, next)) <==>
            ValidScalar(s) && At(bytes, o, ScalarBytes(s)) && next == o + |ScalarBytes(s)|
  {
    hide GetScalar, Utf8;
    var n := GetByte(bytes, o);
    if n.Got? && 1 <= n.value <= 4 && n.next + n.value <= |bytes| {
      var part := bytes[n.next..n.next + n.value];
      ScalarExact(part, 0, s, n.value);
      if Scalar(s) {
        AtWhole(part, Utf8(s));
        AtBoth(bytes, o, [|Utf8(s)|], Utf8(s));
        ByteExact(bytes, o, |Utf8(s)|, o + 1);
      }
    } else if Scalar(s) {
      AtBoth(bytes, o, [|Utf8(s)|], Utf8(s));
      ByteExact(bytes, o, |Utf8(s)|, o + 1);
    }
  }

  function ContentBytes(kind: ItemKind, scalar: nat): Bytes
    requires kind == Text ==> scalar <= 0x10FFFF
  {
    [KindByte(kind)] + (if kind == Text then ScalarBytes(scalar) else [])
  }

  function ParseContent(bytes: Bytes, o: nat): Result<(ItemKind, nat, nat)> {
    var kind := GetByte(bytes, o);
    if kind.Fail? || (kind.value != 1 && kind.value != 2) then Err(MalformedFrame)
    else if kind.value == 2 then Ok((Delimiter, 0, kind.next))
    else
      var s := ParseScalar(bytes, kind.next);
      if s.Err? then Err(s.code) else Ok((Text, s.value.0, s.value.1))
  }

  predicate ValidContent(kind: ItemKind, scalar: nat) {
    if kind == Text then ValidScalar(scalar) else scalar == 0
  }

  lemma ContentExact(bytes: Bytes, o: nat, kind: ItemKind, scalar: nat, next: nat)
    ensures ParseContent(bytes, o) == Ok((kind, scalar, next)) <==>
            ValidContent(kind, scalar) && At(bytes, o, ContentBytes(kind, scalar))
            && next == o + |ContentBytes(kind, scalar)|
  {
    hide At, GetByte, ParseScalar, ScalarBytes;
    ByteExact(bytes, o, 1, o + 1);
    ByteExact(bytes, o, 2, o + 1);
    GetByteNext(bytes, o);
    if kind == Text {
      ScalarFieldExact(bytes, o + 1, scalar, next);
      if ValidScalar(scalar) { AtBoth(bytes, o, [KindByte(kind)], ScalarBytes(scalar)); }
    } else {
      assert [KindByte(kind)] + [] == [2];
    }
  }

  // ----------------------------------------------------------------- operations

  function TypeByte(op: Operation): byte {
    match op
    case Insert(_, _, _, _, _, _, _) => 1
    case Delete(_, _, _) => 2
    case SetAttr(_, _, _, _, _) => 3
  }

  function InsertBytes(op: Operation): Bytes
    requires op.Insert? && ValidContent(op.kind, op.scalar) && |op.attrs| <= MAX_ATTRS
  {
    OptIdBytes(op.left) + (OptIdBytes(op.right)
                           + (ContentBytes(op.kind, op.scalar) + ([|op.attrs|] + AttrsBytes(op.attrs))))
  }

  function SetAttrBytes(op: Operation): Bytes
    requires op.SetAttr? && op.target.Some?
  {
    IdBytes(op.target.value) + (StringBytes(op.name) + ValueBytes(op.value))
  }

  predicate FitsOpt(id: Option<OpId>) {
    id.Some? ==> Fits(id.value)
  }

  /** The operations a frame can carry. */
  predicate Parsable(op: Operation) {
    && op.id.Valid() && op.id.replica < U64_END && 1 <= op.lamport <= MAX_LAMPORT
    && match op
       case Insert(_, _, left, right, kind, scalar, attrs) =>
         && FitsOpt(left) && FitsOpt(right) && ValidContent(kind, scalar) && |attrs| <= MAX_ATTRS
         && (forall i :: 0 <= i < |attrs| ==> ReadableAttr(attrs[i]))
       case Delete(_, _, target) => target.Some? && Fits(target.value)
       case SetAttr(_, _, target, name, value) =>
         target.Some? && Fits(target.value) && |name| <= READ_LIMIT && Within(READ_LIMIT, value)
  }

  function BodyBytes(op: Operation): Bytes
    requires Parsable(op)
  {
    match op
    case Insert(_, _, _, _, _, _, _) => InsertBytes(op)
    case Delete(_, _, target) => IdBytes(target.value)
    case SetAttr(_, _, _, _, _) => SetAttrBytes(op)
  }

  /** The frame of an operation. */
  function OpBytes(op: Operation): Bytes
    requires Parsable(op)
  {
    [PROTOCOL_VERSION] + ([TypeByte(op)] + (IdBytes(op.id) + (Le(op.lamport, 8) + BodyBytes(op))))
  }

  function ParseInsert(bytes: Bytes, o: nat, id: OpId, lamport: nat): Result<(Operation, nat)> {
    var left := GetOptId(bytes, o);
    if left.Fail? then Err(MalformedFrame)
    else
      var right := GetOptId(bytes, left.next);
      if right.Fail? then Err(MalformedFrame)
      else
        var content := ParseContent(bytes, right.next);
        if content.Err? then Err(content.code)
        else
          var (kind, scalar, next) := content.value;
          var count := GetByte(bytes, next);
          if count.Fail? then Err(MalformedFrame)
          else
            var attrs := GetAttrs(bytes, count.next, count.value);
            if attrs.Fail? then Err(MalformedFrame)
            else Ok((Insert(id, lamport, left.value, right.value, kind, scalar, attrs.value), attrs.next))
  }

  function ParseDelete(bytes: Bytes, o: nat, id: OpId, lamport: nat): Result<(Operation, nat)> {
    var target := GetId(bytes, o);
    if target.Fail? then Err(MalformedFrame)
    else Ok((Delete(id, lamport, Some(target.value)), target.next))
  }

  function ParseSetAttr(bytes: Bytes, o: nat, id: OpId, lamport: nat): Result<(Operation, nat)> {
    var target := GetId(bytes, o);
    if target.Fail? then Err(MalformedFrame)
    else
      var attr := GetAttr(bytes, target.next);
      if attr.Fail? then Err(MalformedFrame)
      else Ok((SetAttr(id, lamport, Some(target.value), attr.value.name, attr.value.value), attr.next))
  }

  function ParseBody(bytes: Bytes, o: nat, kind: byte, id: OpId, lamport: nat): Result<(Operation, nat)> {
    if kind == 1 then ParseInsert(bytes, o, id, lamport)
    else if kind == 2 then ParseDelete(bytes, o, id, lamport)
    else if kind == 3 then ParseSetAttr(bytes, o, id, lamport)
    else Err(UnknownOpType)
  }

  /** The strict parser: the frame must be consumed exactly. */
  function ParseOp(bytes: Bytes): Result<Operation> {
    var version := GetByte(bytes, 0);
    if version.Fail? then Err(MalformedFrame)
    else if version.value != PROTOCOL_VERSION then Err(UnsupportedVersion)
    else
      var kind := GetByte(bytes, 1);
      if kind.Fail? then Err(MalformedFrame)
      else
        var id := GetId(bytes, 2);
        if id.Fail? then Err(MalformedFrame)
        else
          var lamport := GetLe(bytes, id.next, 8);
          if lamport.Fail? then Err(MalformedFrame)
          else if !id.value.Valid() then Err(InvalidReplicaId)
          else if !(1 <= lamport.value <= MAX_LAMPORT) then Err(InvalidLamport)
          else
            var body := ParseBody(bytes, lamport.next, kind.value, id.value, lamport.value);
            if body.Err? then Err(body.code)
            else if body.value.1 != |bytes| then Err(MalformedFrame)
            else Ok(body.value.0)
  }

  predicate ParsableInsert(op: Operation)
    requires op.Insert?
  {
    && FitsOpt(op.left) && FitsOpt(op.right) && ValidContent(op.kind, op.scalar) && |op.attrs| <= MAX_ATTRS
    && (forall i :: 0 <= i < |op.attrs| ==> ReadableAttr(op.attrs[i]))
  }

  lemma InsertReads(bytes: Bytes, o: nat, op: Operation)
    requires op.Insert? && ParsableInsert(op) && At(bytes, o, InsertBytes(op))
    ensures ParseInsert(bytes, o, op.id, op.lamport) == Ok((op, o + |InsertBytes(op)|))
  {
    hide At, GetOptId, ParseContent, GetAttrs, GetByte, OptIdBytes, ContentBytes, AttrsBytes, ReadableAttr;
    var l, r, c, a := OptIdBytes(op.left), OptIdBytes(op.right), ContentBytes(op.kind, op.scalar), AttrsBytes(op.attrs);
    var o1 := o + |l|;
    var o2 := o1 + |r|;
    var o3 := o2 + |c|;
    AtBoth(bytes, o, l, r + (c + ([|op.attrs|] + a)));
    AtBoth(bytes, o1, r, c + ([|op.attrs|] + a));
    AtBoth(bytes, o2, c, [|op.attrs|] + a);
    AtBoth(bytes, o3, [|op.attrs|], a);
    OptIdExact(bytes, o, op.left, o1);
    OptIdExact(bytes, o1, op.right, o2);
    ContentExact(bytes, o2, op.kind, op.scalar, o3);
    ByteExact(bytes, o3, |op.attrs|, o3 + 1);
    AtBound(bytes, o3, [|op.attrs|]);
    AttrsExact(bytes, o3 + 1, |op.attrs|, op.attrs, o3 + 1 + |a|);
  }

  lemma InsertWritten(bytes: Bytes, o: nat, op: Operation, next: nat)
    requires ParseInsert(bytes, o, op.id, op.lamport) == Ok((op, next))
    ensures op.Insert? && ParsableInsert(op) && At(bytes, o, InsertBytes(op)) && next == o + |InsertBytes(op)|
  {
    hide At, GetOptId, ParseContent, GetAttrs, GetByte, OptIdBytes, ContentBytes, AttrsBytes, ReadableAttr;
    var left := GetOptId(bytes, o);
    var right := GetOptId(bytes, left.next);
    var content := ParseContent(bytes, right.next);
    var o3 := content.value.2;
    var count := GetByte(bytes, o3);
    OptIdExact(bytes, o, op.left, left.next);
    OptIdExact(bytes, left.next, op.right, right.next);
    ContentExact(bytes, right.next, op.kind, op.scalar, o3);
    GetByteNext(bytes, o3);
    ByteExact(bytes, o3, count.value, o3 + 1);
    AtBound(bytes, o3, [count.value]);
    AttrsExact(bytes, o3 + 1, count.value, op.attrs, next);
    var l, r, c, a := OptIdBytes(op.left), OptIdBytes(op.right), ContentBytes(op.kind, op.scalar), AttrsBytes(op.attrs);
    AtBoth(bytes, o3, [|op.attrs|], a);
    AtBoth(bytes, right.next, c, [|op.attrs|] + a);
    AtBoth(bytes, left.next, r, c + ([|op.attrs|] + a));
    AtBoth(bytes, o, l, r + (c + ([|op.attrs|] + a)));
  }

  lemma SetAttrExact(bytes: Bytes, o: nat, op: Operation, next: nat)
    ensures ParseSetAttr(bytes, o, op.id, op.lamport) == Ok((op, next)) <==>
            op.SetAttr? && FitsOpt(op.target) && op.target.Some? && |op.name| <= READ_LIMIT
              && Within(READ_LIMIT, op.value)
            && At(bytes, o, SetAttrBytes(op)) && next == o + |SetAttrBytes(op)|
  {
    hide At, GetId, GetAttr, IdBytes, StringBytes, ValueBytes;
    if op.SetAttr? && op.target.Some? {
      var attr := InitialAttr(op.name, op.value);
      AtBoth(bytes, o, IdBytes(op.target.value), AttrBytes(attr));
      IdExact(bytes, o, op.target.value, o + 16);
      AttrExact(bytes, o + 16, attr, next);
      var id := GetId(bytes, o);
      if id.Got? { IdExact(bytes, o, id.value, id.next); }
    }
  }

  lemma DeleteExact(bytes: Bytes, o: nat, op: Operation, next: nat)
    ensures ParseDelete(bytes, o, op.id, op.lamport) == Ok((op, next)) <==>
            op.Delete? && FitsOpt(op.target) && op.target.Some?
            && At(bytes, o, IdBytes(op.target.value)) && next == o + 16
  {
    hide At, GetId, IdBytes;
    if op.Delete? && op.target.Some? { IdExact(bytes, o, op.target.value, next); }
  }

  lemma InsertExact(bytes: Bytes, o: nat, op: Operation, next: nat)
    ensures ParseInsert(bytes, o, op.id, op.lamport) == Ok((op, next)) <==>
            op.Insert? && ParsableInsert(op) && At(bytes, o, InsertBytes(op)) && next == o + |InsertBytes(op)|
  {
    hide At, InsertBytes, ParseInsert;
    if ParseInsert(bytes, o, op.id, op.lamport) == Ok((op, next)) { InsertWritten(bytes, o, op, next); }
    if op.Insert? && ParsableInsert(op) && At(bytes, o, InsertBytes(op)) { InsertReads(bytes, o, op); }
  }

  lemma ParsedKind(bytes: Bytes, o: nat, id: OpId, lamport: nat)
    ensures var r := ParseInsert(bytes, o, id, lamport); r.Ok? ==>
              r.value.0.Insert? && r.value.0.id == id && r.value.0.lamport == lamport
    ensures var r := ParseDelete(bytes, o, id, lamport); r.Ok? ==>
              r.value.0.Delete? && r.value.0.id == id && r.value.0.lamport == lamport
    ensures var r := ParseSetAttr(bytes, o, id, lamport); r.Ok? ==>
              r.value.0.SetAttr? && r.value.0.id == id && r.value.0.lamport == lamport
  {
    hide GetOptId, GetId, GetAttr, GetAttrs, ParseContent, GetByte;
  }

  lemma BodyExact(bytes: Bytes, o: nat, kind: byte, op: Operation, next: nat)
    requires op.id.Valid() && op.id.replica < U64_END && 1 <= op.lamport <= MAX_LAMPORT
    ensures ParseBody(bytes, o, kind, op.id, op.lamport) == Ok((op, next)) <==>
            kind == TypeByte(op) && Parsable(op) && At(bytes, o, BodyBytes(op)) && next == o + |BodyBytes(op)|
  {
    hide At, ParseInsert, ParseDelete, ParseSetAttr, InsertBytes, SetAttrBytes, IdBytes, Fits, ValidContent,
         ReadableAttr, Within;
    ParsedKind(bytes, o, op.id, op.lamport);
    InsertExact(bytes, o, op, next);
    DeleteExact(bytes, o, op, next);
    SetAttrExact(bytes, o, op, next);
  }

  /** The parser accepts exactly the frames of the operations a frame can carry. */
  lemma OpExact(bytes: Bytes, op: Operation)
    ensures ParseOp(bytes) == Ok(op) <==> Parsable(op) && bytes == OpBytes(op)
  {
    hide ParseOp, OpBytes, At;
    if ParseOp(bytes) == Ok(op) { OpWritten(bytes, op); }
    if Parsable(op) && bytes == OpBytes(op) { OpReads(bytes, op); }
  }

  lemma OpPieces(bytes: Bytes, op: Operation)
    requires Parsable(op)
    ensures bytes == OpBytes(op) <==>
            At(bytes, 0, [PROTOCOL_VERSION]) && At(bytes, 1, [TypeByte(op)]) && At(bytes, 2, IdBytes(op.id))
            && At(bytes, 18, Le(op.lamport, 8)) && At(bytes, 26, BodyBytes(op)) && |bytes| == 26 + |BodyBytes(op)|
  {
    hide At, IdBytes, Le, BodyBytes, Parsable, TypeByte;
    var v, t, i, l, b := [PROTOCOL_VERSION], [TypeByte(op)], IdBytes(op.id), Le(op.lamport, 8), BodyBytes(op);
    AtWhole(bytes, OpBytes(op));
    AtBoth(bytes, 0, v, t + (i + (l + b)));
    AtBoth(bytes, 1, t, i + (l + b));
    AtBoth(bytes, 2, i, l + b);
    AtBoth(bytes, 18, l, b);
  }

  lemma ParsableHeader(op: Operation)
    requires Parsable(op)
    ensures op.id.Valid() && Fits(op.id) && 1 <= op.lamport <= MAX_LAMPORT && op.lamport < U64_END
            && op.id.replica < U64_END
  {
  }

  lemma ParseSteps(bytes: Bytes, op: Operation)
    requires GetByte(bytes, 0) == Got(PROTOCOL_VERSION, 1) && GetByte(bytes, 1) == Got(TypeByte(op), 2)
    requires GetId(bytes, 2) == Got(op.id, 18) && GetLe(bytes, 18, 8) == Got(op.lamport, 26)
    requires op.id.Valid() && 1 <= op.lamport <= MAX_LAMPORT
    requires ParseBody(bytes, 26, TypeByte(op), op.id, op.lamport) == Ok((op, |bytes|))
    ensures ParseOp(bytes) == Ok(op)
  {
    hide GetByte, GetId, GetLe, ParseBody, TypeByte;
  }

  lemma OpReads(bytes: Bytes, op: Operation)
    requires Parsable(op) && bytes == OpBytes(op)
    ensures ParseOp(bytes) == Ok(op)
  {
    ParsableHeader(op);
    OpPieces(bytes, op);
    hide *;
    Widths();
    ByteExact(bytes, 0, PROTOCOL_VERSION, 1);
    ByteExact(bytes, 1, TypeByte(op), 2);
    IdExact(bytes, 2, op.id, 18);
    LeExact(bytes, 18, 8, op.lamport, 26);
    BodyExact(bytes, 26, TypeByte(op), op, |bytes|);
    ParseSteps(bytes, op);
  }

  lemma ParsedBody(bytes: Bytes, o: nat, kind: byte, id: OpId, lamport: nat)
    ensures var r := ParseBody(bytes, o, kind, id, lamport); r.Ok? ==>
              r.value.0.id == id && r.value.0.lamport == lamport
  {
    hide ParseInsert, ParseDelete, ParseSetAttr;
    ParsedKind(bytes, o, id, lamport);
  }

  lemma OpWritten(bytes: Bytes, op: Operation)
    requires ParseOp(bytes) == Ok(op)
    ensures Parsable(op) && bytes == OpBytes(op)
  {
    hide At, IdBytes, Le, BodyBytes, TypeByte, GetByte, GetLe, GetId, ParseBody, OpBytes, Pow256, Parsable;
    Widths();
    var kind, id, lamport := GetByte(bytes, 1), GetId(bytes, 2), GetLe(bytes, 18, 8);
    GetByteNext(bytes, 0);
    GetByteNext(bytes, 1);
    IdExact(bytes, 2, id.value, id.next);
    GetLeNext(bytes, 18, 8);
    ParsedBody(bytes, 26, kind.value, id.value, lamport.value);
    ByteExact(bytes, 0, PROTOCOL_VERSION, 1);
    ByteExact(bytes, 1, kind.value, 2);
    LeExact(bytes, 18, 8, op.lamport, 26);
    BodyExact(bytes, 26, kind.value, op, |bytes|);
    OpPieces(bytes, op);
  }

  // ----------------------------------------------------------------- the writer

  /** What the field types and the checks at an operation's creation guarantee. */
  predicate Typed(op: Operation) {
    && Fits(op.id) && op.lamport < U64_END
    && match op
       case Insert(_, _, left, right, kind, scalar, _) => FitsOpt(left) && FitsOpt(right) && ValidContent(kind, scalar)
       case Delete(_, _, target) => FitsOpt(target)
       case SetAttr(_, _, target, _, _) => FitsOpt(target)
  }

  predicate WritableAttr(attr: InitialAttr) {
    |attr.name| <= MAX_ATTR_NAME && Within(MAX_ATTR_VALUE, attr.value)
  }

  /** The first check the writer fails, leaving the size of the frame aside. */
  function WriterError(op: Operation): Option<ErrorCode> {
    if !op.id.Valid() then Some(InvalidReplicaId)
    else if !(1 <= op.lamport <= MAX_LAMPORT) then Some(InvalidLamport)
    else match op
      case Insert(_, _, _, _, _, _, attrs) =>
        if |attrs| > MAX_ATTRS || exists i :: 0 <= i < |attrs| && !WritableAttr(attrs[i]) then Some(OpTooLarge)
        else None
      case Delete(_, _, target) => if target.None? then Some(InvalidArgument) else None
      case SetAttr(_, _, target, name, value) =>
        if target.None? then Some(InvalidArgument)
        else if !WritableAttr(InitialAttr(name, value)) then Some(OpTooLarge)
        else None
  }

  lemma WriterAdmits(op: Operation)
    requires Typed(op) && WriterError(op).None?
    ensures Parsable(op)
  {
  }

  function SerializeOp(op: Operation): Result<Bytes>
    requires Typed(op)
  {
    var bad := WriterError(op);
    if bad.Some? then Err(bad.value)
    else
      WriterAdmits(op);
      var frame := OpBytes(op);
      if |frame| > MAX_OP_BYTES then Err(OpTooLarge) else Ok(frame)
  }

  lemma SerializeWritten(op: Operation)
    requires Typed(op) && SerializeOp(op).Ok?
    ensures Parsable(op) && SerializeOp(op).value == OpBytes(op) && |OpBytes(op)| <= MAX_OP_BYTES
  {
    hide OpBytes, WriterError, Parsable;
    WriterAdmits(op);
  }

  /** Parsing a serialised operation returns it. */
  lemma SerializeThenParse(op: Operation)
    requires Typed(op) && SerializeOp(op).Ok?
    ensures ParseOp(SerializeOp(op).value) == Ok(op)
  {
    hide ParseOp, OpBytes, WriterError;
    WriterAdmits(op);
    OpExact(OpBytes(op), op);
  }

  /** Serialising an accepted frame's operation returns the frame whenever names,
      values and size are within the writer's limits, and is refused otherwise. */
  lemma ParseThenSerialize(bytes: Bytes, op: Operation)
    requires ParseOp(bytes) == Ok(op)
    ensures Typed(op)
    ensures SerializeOp(op) == if WriterError(op).None? && |bytes| <= MAX_OP_BYTES then Ok(bytes) else Err(OpTooLarge)
  {
    hide ParseOp, OpBytes;
    OpExact(bytes, op);
  }
}
