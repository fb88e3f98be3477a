/** The byte formats by position: which byte means what, with numbers, flags and
    characters written out. */
module Layout {
  import opened Types
  import opened Wire
  import opened Codec

  // --------------------------------------------------------------------- numbers

  /** Four and eight bytes as a number, the first byte least significant. */
  function U32(b: Bytes, o: nat): nat
    requires o + 4 <= |b|
  {
    (b[o] as nat) + 0x100 * (b[o + 1] as nat) + 0x1_0000 * (b[o + 2] as nat) + 0x100_0000 * (b[o + 3] as nat)
  }

  function U64(b: Bytes, o: nat): nat
    requires o + 8 <= |b|
  {
    U32(b, o) + 0x1_0000_0000 * U32(b, o + 4)
  }

  lemma FromTwo(s: Bytes)
    requires |s| >= 2
    ensures FromLe(s) == (s[0] as nat) + 0x100 * (s[1] as nat) + 0x1_0000 * FromLe(s[2..])
  {
    var t := s[1..];
    assert t[1..] == s[2..];
    assert FromLe(t) == t[0] + 256 * FromLe(t[1..]);
  }

  lemma FromFour(s: Bytes)
    requires |s| >= 4
    ensures FromLe(s) == U32(s, 0) + 0x1_0000_0000 * FromLe(s[4..])
  {
    hide FromLe;
    FromTwo(s);
    FromTwo(s[2..]);
    assert s[2..][2..] == s[4..];
  }

  lemma U32Exact(b: Bytes, o: nat, v: nat)
    requires v < U32_END
    ensures At(b, o, Le(v, 4)) <==> o + 4 <= |b| && U32(b, o) == v
  {
    Widths();
    LeExact(b, o, 4, v, o + 4);
    if o + 4 <= |b| {
      var s := b[o..o + 4];
      FromFour(s);
      assert s[4..] == [];
    }
  }

  lemma U64Exact(b: Bytes, o: nat, v: nat)
    requires v < U64_END
    ensures At(b, o, Le(v, 8)) <==> o + 8 <= |b| && U64(b, o) == v
  {
    Widths();
    LeExact(b, o, 8, v, o + 8);
    if o + 8 <= |b| {
      var s := b[o..o + 8];
      FromFour(s);
      FromFour(s[4..]);
      assert s[4..][4..] == [];
    }
  }

  // ------------------------------------------------------------------ characters

  /** A continuation byte and the six bits it carries. */
  predicate Tail(x: byte) {
    0x80 <= x < 0xC0
  }

  /** The one to four bytes of a Unicode scalar. */
  predicate CharLies(b: Bytes, o: nat, n: nat, s: nat) {
    && 1 <= n <= 4 && o + n <= |b|
    && (n == 1 ==> b[o] < 0x80 && s == b[o])
    && (n == 2 ==> 0xC0 <= b[o] < 0xE0 && Tail(b[o + 1]) && s >= 0x80
                   && s == ((b[o] - 0xC0) as nat) * 64 + (b[o + 1] - 0x80) as nat)
    && (n == 3 ==> 0xE0 <= b[o] < 0xF0 && Tail(b[o + 1]) && Tail(b[o + 2]) && s >= 0x800
                   && s == ((b[o] - 0xE0) as nat) * 4096 + ((b[o + 1] - 0x80) as nat) * 64
                           + (b[o + 2] - 0x80) as nat)
    && (n == 4 ==> 0xF0 <= b[o] < 0xF8 && Tail(b[o + 1]) && Tail(b[o + 2]) && Tail(b[o + 3]) && s >= 0x1_0000
                   && s == ((b[o] - 0xF0) as nat) * 262144 + ((b[o + 1] - 0x80) as nat) * 4096
                           + ((b[o + 2] - 0x80) as nat) * 64 + (b[o + 3] - 0x80) as nat)
  }

  lemma CharExact(b: Bytes, o: nat, s: nat)
    requires Scalar(s)
    ensures At(b, o, Utf8(s)) <==> CharLies(b, o, |Utf8(s)|, s)
    ensures forall n :: CharLies(b, o, n, s) ==> n == |Utf8(s)|
  {
    if s <= 0x7F {
    } else if s <= 0x7FF {
      TwoBytes(b, o, s);
    } else if s <= 0xFFFF {
      ThreeBytes(b, o, s);
    } else {
      FourBytes(b, o, s);
    }
  }

  lemma TwoBytes(b: Bytes, o: nat, s: nat)
    requires 0x80 <= s <= 0x7FF
    ensures At(b, o, Utf8(s)) <==> CharLies(b, o, 2, s)
  {
    if o + 2 <= |b| { assert b[o..o + 2] == [b[o], b[o + 1]]; }
  }

  lemma ThreeBytes(b: Bytes, o: nat, s: nat)
    requires 0x800 <= s <= 0xFFFF
    ensures At(b, o, Utf8(s)) <==> CharLies(b, o, 3, s)
  {
    var x := s / 64;
    if o + 3 <= |b| { assert b[o..o + 3] == [b[o], b[o + 1], b[o + 2]]; }
  }

  /** Four digits in base 64. */
  lemma FourDigits(s: nat, a: nat, c: nat, d: nat, e: nat)
    requires c < 64 && d < 64 && e < 64
    ensures s == a * 262144 + c * 4096 + d * 64 + e <==>
            a == s / 64 / 64 / 64 && c == s / 64 / 64 % 64 && d == s / 64 % 64 && e == s % 64
  {
    LastDigit(s, (a * 64 + c) * 64 + d, e);
    LastDigit(s / 64, a * 64 + c, d);
    LastDigit(s / 64 / 64, a, c);
  }

  lemma LastDigit(s: nat, q: nat, r: nat)
    requires r < 64
    ensures s == q * 64 + r <==> q == s / 64 && r == s % 64
  {
  }

  lemma FourBytes(b: Bytes, o: nat, s: nat)
    requires 0x1_0000 <= s <= 0x10FFFF
    ensures At(b, o, Utf8(s)) <==> CharLies(b, o, 4, s)
  {
    if o + 4 <= |b| {
      var a, c, d, e := b[o], b[o + 1], b[o + 2], b[o + 3];
      assert b[o..o + 4] == [a, c, d, e];
      if a >= 0xF0 && Tail(c) && Tail(d) && Tail(e) {
        FourDigits(s, a - 0xF0, c - 0x80, d - 0x80, e - 0x80);
      }
    }
  }

  // ------------------------------------------------- ids, strings, values, attributes

  /** Replica, then counter. */
  predicate IdLies(b: Bytes, o: nat, id: OpId) {
    o + 16 <= |b| && U64(b, o) == id.replica && U64(b, o + 8) == id.counter
  }

  /** A flag, and behind a set one the id. */
  predicate OptLies(b: Bytes, o: nat, a: Option<OpId>) {
    o < |b| && if a.None? then b[o] == 0 else b[o] == 1 && IdLies(b, o + 1, a.value)
  }

  function OptSize(a: Option<OpId>): nat {
    if a.None? then 1 else 17
  }

  /** The length in eight bytes, then the bytes themselves. */
  predicate TextLies(b: Bytes, o: nat, s: Bytes) {
    o + 8 + |s| <= |b| && U64(b, o) == |s| && forall k :: 0 <= k < |s| ==> b[o + 8 + k] == s[k]
  }

  /** A flag, and behind a set one the value. */
  predicate ValueLies(b: Bytes, o: nat, v: Option<Bytes>) {
    o < |b| && if v.None? then b[o] == 0 else b[o] == 1 && TextLies(b, o + 1, v.value)
  }

  function ValueSize(v: Option<Bytes>): nat {
    if v.None? then 1 else 9 + |v.value|
  }

  /** Name and value of each attribute, one behind the other. */
  predicate AttrsLie(b: Bytes, o: nat, attrs: seq<InitialAttr>)
    decreases |attrs|
  {
    |attrs| == 0
    || (&& TextLies(b, o, attrs[0].name) && ValueLies(b, o + 8 + |attrs[0].name|, attrs[0].value)
        && AttrsLie(b, o + 8 + |attrs[0].name| + ValueSize(attrs[0].value), attrs[1..]))
  }

  function AttrsSize(attrs: seq<InitialAttr>): nat
    decreases |attrs|
  {
    if |attrs| == 0 then 0
    else 8 + |attrs[0].name| + ValueSize(attrs[0].value) + AttrsSize(attrs[1..])
  }

  lemma IdExactly(b: Bytes, o: nat, id: OpId)
    requires Fits(id)
    ensures At(b, o, IdBytes(id)) <==> IdLies(b, o, id)
    ensures |IdBytes(id)| == 16
  {
    hide At, Le, U64;
    AtBoth(b, o, Le(id.replica, 8), Le(id.counter, 8));
    U64Exact(b, o, id.replica);
    U64Exact(b, o + 8, id.counter);
  }

  lemma OptExactly(b: Bytes, o: nat, a: Option<OpId>)
    requires FitsOpt(a)
    ensures At(b, o, OptIdBytes(a)) <==> OptLies(b, o, a)
    ensures |OptIdBytes(a)| == OptSize(a)
  {
    hide IdBytes, IdLies;
    OneByte(b, o, 0);
    OneByte(b, o, 1);
    if a.Some? {
      hide At;
      AtBoth(b, o, [1], IdBytes(a.value));
      IdExactly(b, o + 1, a.value);
    }
  }

  lemma OneByte(b: Bytes, o: nat, x: byte)
    ensures At(b, o, [x]) <==> o < |b| && b[o] == x
  {
  }

  lemma Same(b: Bytes, o: nat, s: Bytes)
    ensures At(b, o, s) <==> o + |s| <= |b| && forall k :: 0 <= k < |s| ==> b[o + k] == s[k]
  {
  }

  lemma TextExactly(b: Bytes, o: nat, s: Bytes)
    requires |s| < U64_END
    ensures At(b, o, StringBytes(s)) <==> TextLies(b, o, s)
    ensures |StringBytes(s)| == 8 + |s|
  {
    hide At, Le, U64;
    AtBoth(b, o, Le(|s|, 8), s);
    U64Exact(b, o, |s|);
    Same(b, o + 8, s);
  }

  lemma ValueExactly(b: Bytes, o: nat, v: Option<Bytes>)
    requires v.Some? ==> |v.value| < U64_END
    ensures At(b, o, ValueBytes(v)) <==> ValueLies(b, o, v)
    ensures |ValueBytes(v)| == ValueSize(v)
  {
    hide StringBytes, TextLies;
    OneByte(b, o, 0);
    OneByte(b, o, 1);
    if v.Some? {
      hide At;
      AtBoth(b, o, [1], StringBytes(v.value));
      TextExactly(b, o + 1, v.value);
    }
  }

  lemma {:induction false} AttrsExactly(b: Bytes, o: nat, attrs: seq<InitialAttr>)
    requires o <= |b| && forall i :: 0 <= i < |attrs| ==> ReadableAttr(attrs[i])
    ensures At(b, o, AttrsBytes(attrs)) <==> AttrsLie(b, o, attrs)
    ensures |AttrsBytes(attrs)| == AttrsSize(attrs)
    decreases |attrs|
  {
    hide At, StringBytes, ValueBytes, TextLies, ValueLies;
    if |attrs| == 0 {
      Same(b, o, []);
    } else {
      var name, value, rest := attrs[0].name, attrs[0].value, AttrsBytes(attrs[1..]);
      var p := o + 8 + |name|;
      assert ReadableAttr(attrs[0]);
      AtBoth(b, o, AttrBytes(attrs[0]), rest);
      AtBoth(b, o, StringBytes(name), ValueBytes(value));
      TextExactly(b, o, name);
      ValueExactly(b, p, value);
      if p + ValueSize(value) <= |b| {
        AttrsExactly(b, p + ValueSize(value), attrs[1..]);
      } else {
        AttrsExactly(b, |b|, attrs[1..]);
        ValueFits(b, p, value);
      }
    }
  }

  lemma ValueFits(b: Bytes, o: nat, v: Option<Bytes>)
    ensures ValueLies(b, o, v) ==> o + ValueSize(v) <= |b|
  {
  }

  // --------------------------------------------------------------- operation frames

  /** Kind 1 with its character's length and bytes, or kind 2 alone. */
  predicate ContentLies(b: Bytes, o: nat, kind: ItemKind, scalar: nat) {
    if kind == Text then o + 1 < |b| && b[o] == 1 && CharLies(b, o + 2, b[o + 1], scalar) else o < |b| && b[o] == 2
  }

  function ContentSize(b: Bytes, o: nat, kind: ItemKind): nat
    requires kind == Text ==> o + 1 < |b|
  {
    if kind == Text then 2 + b[o + 1] as nat else 1
  }

  /** Left anchor, right anchor, kind and character, the number of attributes, and the
      attributes, to the end of the frame. */
  predicate InsertLies(b: Bytes, op: Operation)
    requires op.Insert?
  {
    var right := 26 + OptSize(op.left);
    var kind := right + OptSize(op.right);
    && OptLies(b, 26, op.left) && OptLies(b, right, op.right) && ContentLies(b, kind, op.kind, op.scalar)
    && var count := kind + ContentSize(b, kind, op.kind);
       && count < |b| && b[count] == |op.attrs| && AttrsLie(b, count + 1, op.attrs)
       && |b| == count + 1 + AttrsSize(op.attrs)
  }

  /** Version, type, identity and clock of every frame, then what its type asks for. */
  predicate OpLies(b: Bytes, op: Operation) {
    && |b| >= 26 && b[0] == 1 && IdLies(b, 2, op.id) && U64(b, 18) == op.lamport
    && match op
       case Insert(_, _, _, _, _, _, _) => b[1] == 1 && InsertLies(b, op)
       case Delete(_, _, target) => b[1] == 2 && target.Some? && IdLies(b, 26, target.value) && |b| == 42
       case SetAttr(_, _, target, name, value) =>
         && b[1] == 3 && target.Some? && IdLies(b, 26, target.value)
         && TextLies(b, 42, name) && ValueLies(b, 50 + |name|, value) && |b| == 50 + |name| + ValueSize(value)
  }

  lemma ContentExactly(b: Bytes, o: nat, kind: ItemKind, scalar: nat)
    requires ValidContent(kind, scalar)
    ensures At(b, o, ContentBytes(kind, scalar)) <==> ContentLies(b, o, kind, scalar)
    ensures ContentLies(b, o, kind, scalar) ==> ContentSize(b, o, kind) == |ContentBytes(kind, scalar)|
  {
    if kind == Text {
      TextContentExactly(b, o, scalar);
    } else {
      OneByte(b, o, 2);
    }
  }

  lemma TextContentExactly(b: Bytes, o: nat, scalar: nat)
    requires ValidScalar(scalar)
    ensures At(b, o, ContentBytes(Text, scalar)) <==> ContentLies(b, o, Text, scalar)
    ensures ContentLies(b, o, Text, scalar) ==> ContentSize(b, o, Text) == |ContentBytes(Text, scalar)|
  {
    hide At, Utf8, CharLies;
    var n, u := |Utf8(scalar)|, Utf8(scalar);
    AtBoth(b, o, [1], [n] + u);
    AtBoth(b, o + 1, [n], u);
    OneByte(b, o, 1);
    OneByte(b, o + 1, n);
    CharExact(b, o + 2, scalar);
  }

  lemma InsertExactly(b: Bytes, op: Operation)
    requires op.Insert? && ParsableInsert(op)
    ensures At(b, 26, InsertBytes(op)) && |b| == 26 + |InsertBytes(op)| <==> InsertLies(b, op)
  {
    hide At, OptIdBytes, ContentBytes, AttrsBytes, OptLies, ContentLies, AttrsLie, ReadableAttr;
    var l, r, c, a := OptIdBytes(op.left), OptIdBytes(op.right), ContentBytes(op.kind, op.scalar), AttrsBytes(op.attrs);
    var n := [|op.attrs|];
    AtBoth(b, 26, l, r + (c + (n + a)));
    AtBoth(b, 26 + |l|, r, c + (n + a));
    AtBoth(b, 26 + |l| + |r|, c, n + a);
    AtBoth(b, 26 + |l| + |r| + |c|, n, a);
    OptExactly(b, 26, op.left);
    OptExactly(b, 26 + |l|, op.right);
    ContentExactly(b, 26 + |l| + |r|, op.kind, op.scalar);
    OneByte(b, 26 + |l| + |r| + |c|, |op.attrs|);
    if 26 + |l| + |r| + |c| + 1 <= |b| {
      AttrsExactly(b, 26 + |l| + |r| + |c| + 1, op.attrs);
    }
  }

  lemma SetAttrExactly(b: Bytes, op: Operation)
    requires op.SetAttr? && op.target.Some? && Fits(op.target.value)
    requires |op.name| < U64_END && (op.value.Some? ==> |op.value.value| < U64_END)
    ensures At(b, 26, SetAttrBytes(op)) && |b| == 26 + |SetAttrBytes(op)| <==>
            && IdLies(b, 26, op.target.value) && TextLies(b, 42, op.name)
            && ValueLies(b, 50 + |op.name|, op.value) && |b| == 50 + |op.name| + ValueSize(op.value)
  {
    hide At, IdBytes, StringBytes, ValueBytes, IdLies, TextLies, ValueLies;
    AtBoth(b, 26, IdBytes(op.target.value), StringBytes(op.name) + ValueBytes(op.value));
    AtBoth(b, 42, StringBytes(op.name), ValueBytes(op.value));
    IdExactly(b, 26, op.target.value);
    TextExactly(b, 42, op.name);
    ValueExactly(b, 50 + |op.name|, op.value);
  }

  /** The frame of an operation is the one that lies so. */
  lemma FrameLies(b: Bytes, op: Operation)
    requires Parsable(op)
    ensures b == OpBytes(op) <==> OpLies(b, op)
  {
    ParsableHeader(op);
    OpPieces(b, op);
    OneByte(b, 0, 1);
    OneByte(b, 1, TypeByte(op));
    IdExactly(b, 2, op.id);
    U64Exact(b, 18, op.lamport);
    hide At, IdBytes, Le, U64, IdLies, TextLies, ValueLies, InsertLies, InsertBytes, SetAttrBytes, OptIdBytes;
    match op
    case Insert(_, _, _, _, _, _, _) => InsertExactly(b, op);
    case Delete(_, _, target) => IdExactly(b, 26, target.value);
    case SetAttr(_, _, _, _, _) => SetAttrExactly(b, op);
  }

  /** The parser gives an operation exactly for the frame whose bytes, one by one, say so. */
  lemma ParsedByPosition(b: Bytes, op: Operation)
    ensures ParseOp(b) == Ok(op) <==> Parsable(op) && OpLies(b, op)
  {
    hide ParseOp, OpBytes, OpLies, Parsable;
    OpExact(b, op);
    if Parsable(op) { FrameLies(b, op); }
  }

  /** The writer's frame says so, too. */
  lemma WrittenByPosition(op: Operation)
    requires Typed(op) && SerializeOp(op).Ok?
    ensures OpLies(SerializeOp(op).value, op)
  {
    hide ParseOp, OpBytes, OpLies, Parsable, Typed, SerializeOp;
    SerializeThenParse(op);
    ParsedByPosition(SerializeOp(op).value, op);
  }
}
