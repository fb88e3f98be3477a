/** Byte-level encodings: little-endian integers, optional ids, length-prefixed
    strings and UTF-8 scalars (cpp/crdt/include/concord/crdt: ids.hpp, item.hpp). */
module Wire {
  import opened Types

  /** The outcome of reading at an offset: a value and the offset behind it. */
  datatype Read<+T> = Fail | Got(value: T, next: nat)

  /** `piece` stands in `bytes` at offset `o`. */
  predicate At(bytes: Bytes, o: nat, piece: Bytes) {
    o + |piece| <= |bytes| && bytes[o..o + |piece|] == piece
  }

  lemma AtBoth(bytes: Bytes, o: nat, p: Bytes, q: Bytes)
    ensures At(bytes, o, p + q) <==> At(bytes, o, p) && At(bytes, o + |p|, q)
  {
    if o + |p| + |q| <= |bytes| {
      var s := bytes[o..o + |p| + |q|];
      assert s[..|p|] == bytes[o..o + |p|] && s[|p|..] == bytes[o + |p|..o + |p| + |q|];
      assert s == s[..|p|] + s[|p|..];
      assert (p + q)[..|p|] == p && (p + q)[|p|..] == q;
    }
  }

  lemma AtWhole(bytes: Bytes, piece: Bytes)
    ensures At(bytes, 0, piece) && |piece| == |bytes| <==> bytes == piece
  {
    assert bytes[0..|bytes|] == bytes;
  }

  // ------------------------------------------------------------------- integers

  function Pow256(n: nat): (r: nat)
    ensures r > 0
  {
    if n == 0 then 1 else 256 * Pow256(n - 1)
  }

  /** The `n` low bytes of a value, least significant first. */
  function Le(value: nat, n: nat): (r: Bytes)
    ensures |r| == n
  {
    if n == 0 then [] else [value % 256] + Le(value / 256, n - 1)
  }

  function FromLe(b: Bytes): nat {
    if |b| == 0 then 0 else b[0] + 256 * FromLe(b[1..])
  }

  lemma {:induction false} LeFromLe(b: Bytes)
    ensures Le(FromLe(b), |b|) == b && FromLe(b) < Pow256(|b|)
  {
    if |b| > 0 {
      LeFromLe(b[1..]);
      var rest := FromLe(b[1..]);
      assert (b[0] + 256 * rest) % 256 == b[0] && (b[0] + 256 * rest) / 256 == rest;
    }
  }

  lemma {:induction false} FromLeLe(value: nat, n: nat)
    requires value < Pow256(n)
    ensures FromLe(Le(value, n)) == value
  {
    if n > 0 {
      FromLeLe(value / 256, n - 1);
      assert Le(value, n)[1..] == Le(value / 256, n - 1);
    }
  }

  function GetLe(bytes: Bytes, o: nat, n: nat): Read<nat> {
    if |bytes| < o + n then Fail else Got(FromLe(bytes[o..o + n]), o + n)
  }

  /** Reading gives a value exactly where its encoding stands. */
  lemma LeExact(bytes: Bytes, o: nat, n: nat, value: nat, next: nat)
    ensures GetLe(bytes, o, n) == Got(value, next) <==>
            value < Pow256(n) && At(bytes, o, Le(value, n)) && next == o + n
  {
    hide Le, FromLe, Pow256;
    if o + n <= |bytes| {
      LeFromLe(bytes[o..o + n]);
      if value < Pow256(n) { FromLeLe(value, n); }
    }
  }

  const U8_END: nat := 0x100
  const U32_END: nat := 0x1_0000_0000
  const U64_END: nat := 0x1_0000_0000_0000_0000

  lemma Widths()
    ensures Pow256(1) == U8_END && Pow256(4) == U32_END && Pow256(8) == U64_END
  {
    assert Pow256(2) == 65536;
    assert Pow256(4) == 256 * Pow256(3) && Pow256(3) == 256 * Pow256(2);
    assert Pow256(8) == 256 * Pow256(7) && Pow256(7) == 256 * Pow256(6);
    assert Pow256(6) == 256 * Pow256(5) && Pow256(5) == 256 * Pow256(4);
  }

  /** put_u8, put_u32_le and put_u64_le. */
  method PutLe(out: Bytes, value: nat, width: nat) returns (r: Bytes)
    ensures r == out + Le(value, width)
  {
    r := out;
    var shifted, i := value, 0;
    while i < width
      invariant i <= width
      invariant r + Le(shifted, width - i) == out + Le(value, width)
    {
      assert Le(shifted, width - i) == [shifted % 256] + Le(shifted / 256, width - i - 1);
      r := r + [shifted % 256];
      shifted := shifted / 256;
      i := i + 1;
    }
  }

  /** get_u8, get_u32_le and get_u64_le. */
  method ReadLe(bytes: Bytes, offset: nat, width: nat) returns (r: Read<nat>)
    ensures r == GetLe(bytes, offset, width)
  {
    if |bytes| < offset + width {
      return Fail;
    }
    var value: nat, i := 0, width;
    while i > 0
      invariant 0 <= i <= width
      invariant value == FromLe(bytes[offset + i..offset + width])
    {
      i := i - 1;
      assert bytes[offset + i..offset + width][1..] == bytes[offset + i + 1..offset + width];
      value := bytes[offset + i] + 256 * value;
    }
    return Got(value, offset + width);
  }

  // ------------------------------------------------------------------------ ids

  predicate Fits(id: OpId) {
    id.replica < U64_END && id.counter < U64_END
  }

  function IdBytes(id: OpId): (r: Bytes)
    ensures |r| == 16
  {
    Le(id.replica, 8) + Le(id.counter, 8)
  }

  function GetId(bytes: Bytes, o: nat): Read<OpId> {
    var r := GetLe(bytes, o, 8);
    if r.Fail? then Fail
    else
      var c := GetLe(bytes, r.next, 8);
      if c.Fail? then Fail else Got(OpId(r.value, c.value), c.next)
  }

  lemma IdExact(bytes: Bytes, o: nat, id: OpId, next: nat)
    ensures GetId(bytes, o) == Got(id, next) <==> Fits(id) && At(bytes, o, IdBytes(id)) && next == o + 16
  {
    hide At, GetLe, Le, Pow256;
    Widths();
    LeExact(bytes, o, 8, id.replica, o + 8);
    LeExact(bytes, o + 8, 8, id.counter, o + 16);
    AtBoth(bytes, o, Le(id.replica, 8), Le(id.counter, 8));
    GetLeNext(bytes, o, 8);
    GetLeNext(bytes, o + 8, 8);
  }

  lemma GetLeNext(bytes: Bytes, o: nat, n: nat)
    ensures GetLe(bytes, o, n).Got? ==> GetLe(bytes, o, n).next == o + n
  {
  }

  function OptIdBytes(id: Option<OpId>): Bytes {
    if id.Some? then [1] + IdBytes(id.value) else [0]
  }

  function GetByte(bytes: Bytes, o: nat): Read<byte> {
    if o < |bytes| then Got(bytes[o], o + 1) else Fail
  }

  lemma ByteExact(bytes: Bytes, o: nat, b: byte, next: nat)
    ensures GetByte(bytes, o) == Got(b, next) <==> At(bytes, o, [b]) && next == o + 1
  {
  }

  function GetOptId(bytes: Bytes, o: nat): Read<Option<OpId>> {
    var flag := GetByte(bytes, o);
    if flag.Fail? then Fail
    else if flag.value == 0 then Got(None, flag.next)
    else if flag.value != 1 then Fail
    else
      var id := GetId(bytes, flag.next);
      if id.Fail? then Fail else Got(Some(id.value), id.next)
  }

  lemma OptIdExact(bytes: Bytes, o: nat, id: Option<OpId>, next: nat)
    ensures GetOptId(bytes, o) == Got(id, next) <==>
            (id.Some? ==> Fits(id.value)) && At(bytes, o, OptIdBytes(id)) && next == o + |OptIdBytes(id)|
  {
    hide At, GetId, GetByte, IdBytes;
    ByteExact(bytes, o, 0, o + 1);
    ByteExact(bytes, o, 1, o + 1);
    GetByteNext(bytes, o);
    if id.Some? {
      AtBoth(bytes, o, [1], IdBytes(id.value));
      IdExact(bytes, o + 1, id.value, next);
    }
  }

  lemma GetByteNext(bytes: Bytes, o: nat)
    ensures GetByte(bytes, o).Got? ==> GetByte(bytes, o).next == o + 1
  {
  }

  // -------------------------------------------------------------------- strings

  function StringBytes(s: Bytes): Bytes {
    Le(|s|, 8) + s
  }

  /** A length-prefixed string of at most `limit` bytes. */
  function GetString(bytes: Bytes, o: nat, limit: nat): Read<Bytes> {
    var n := GetLe(bytes, o, 8);
    if n.Fail? || n.value > limit || |bytes| < n.next + n.value then Fail
    else Got(bytes[n.next..n.next + n.value], n.next + n.value)
  }

  lemma StringExact(bytes: Bytes, o: nat, limit: nat, s: Bytes, next: nat)
    requires limit < U64_END
    ensures GetString(bytes, o, limit) == Got(s, next) <==>
            |s| <= limit && At(bytes, o, StringBytes(s)) && next == o + 8 + |s|
  {
    hide GetLe, Le, Pow256;
    Widths();
    GetLeNext(bytes, o, 8);
    LeExact(bytes, o, 8, |s|, o + 8);
    AtBoth(bytes, o, Le(|s|, 8), s);
  }

  // ---------------------------------------------------------------------- UTF-8

  /** A Unicode scalar value; U+0000 included. */
  predicate Scalar(s: nat) {
    s <= 0x10FFFF && !(0xD800 <= s <= 0xDFFF)
  }

  function Utf8(s: nat): (r: Bytes)
    requires s <= 0x10FFFF
    ensures 1 <= |r| <= 4
  {
    if s <= 0x7F then [s]
    else if s <= 0x7FF then [0xC0 + s / 64, 0x80 + s % 64]
    else if s <= 0xFFFF then [0xE0 + s / 64 / 64, 0x80 + s / 64 % 64, 0x80 + s % 64]
    else [0xF0 + s / 64 / 64 / 64, 0x80 + s / 64 / 64 % 64, 0x80 + s / 64 % 64, 0x80 + s % 64]
  }

  /** The sequence length a lead byte announces, 0 for none. */
  function LeadLength(b: byte): nat {
    if b < 0x80 then 1 else if 0xC0 <= b < 0xE0 then 2 else if 0xE0 <= b < 0xF0 then 3
    else if 0xF0 <= b < 0xF8 then 4 else 0
  }

  function LeadBits(b: byte): nat {
    if b < 0x80 then b else if b < 0xE0 then b % 32 else if b < 0xF0 then b % 16 else b % 8
  }

  /** The payload of the `n` continuation bytes at `o`, added to `acc`. */
  function Continue(bytes: Bytes, o: nat, n: nat, acc: nat): Option<nat>
    requires o + n <= |bytes|
    decreases n
  {
    if n == 0 then Some(acc)
    else if !(0x80 <= bytes[o] < 0xC0) then None
    else Continue(bytes, o + 1, n - 1, acc * 64 + bytes[o] % 64)
  }

  /** The least scalar that needs `n` bytes: anything below is an overlong form. */
  function Shortest(n: nat): nat {
    if n == 2 then 0x80 else if n == 3 then 0x800 else if n == 4 then 0x10000 else 0
  }

  function GetScalar(bytes: Bytes, o: nat): Read<nat> {
    if o >= |bytes| then Fail
    else
      var n := LeadLength(bytes[o]);
      if n == 0 || o + n > |bytes| then Fail
      else
        var s := Continue(bytes, o + 1, n - 1, LeadBits(bytes[o]));
        if s.None? || s.value < Shortest(n) || !Scalar(s.value) then Fail
        else Got(s.value, o + n)
  }

  /** decode_utf8. */
  method DecodeUtf8(bytes: Bytes, offset: nat) returns (r: Read<nat>)
    ensures r == GetScalar(bytes, offset)
  {
    if offset >= |bytes| {
      return Fail;
    }
    var length := LeadLength(bytes[offset]);
    if length == 0 || offset + length > |bytes| {
      return Fail;
    }
    var scalar: nat, i := LeadBits(bytes[offset]), 1;
    while i < length
      invariant 1 <= i <= length
      invariant Continue(bytes, offset + i, length - i, scalar) ==
                Continue(bytes, offset + 1, length - 1, LeadBits(bytes[offset]))
    {
      if !(0x80 <= bytes[offset + i] < 0xC0) {
        return Fail;
      }
      scalar := scalar * 64 + bytes[offset + i] % 64;
      i := i + 1;
    }
    if scalar < Shortest(length) || !Scalar(scalar) {
      return Fail;
    }
    return Got(scalar, offset + length);
  }

  /** Decoding is strict: it gives a scalar exactly where its shortest encoding stands. */
  lemma ScalarExact(bytes: Bytes, o: nat, s: nat, next: nat)
    ensures GetScalar(bytes, o) == Got(s, next) <==>
            Scalar(s) && At(bytes, o, Utf8(s)) && next == o + |Utf8(s)|
  {
    hide At, GetScalar;
    if Scalar(s) && At(bytes, o, Utf8(s)) && next == o + |Utf8(s)| { ScalarRead(bytes, o, s); }
    if GetScalar(bytes, o) == Got(s, next) { ScalarWritten(bytes, o, s, next); }
  }

  lemma Digit(a: nat, c: nat)
    requires c < 64
    ensures (a * 64 + c) / 64 == a && (a * 64 + c) % 64 == c
  {
  }

  lemma DigitOf(s: nat)
    ensures (s / 64) * 64 + s % 64 == s
  {
  }

  lemma ContinueThree(bytes: Bytes, o: nat, n: nat, acc: nat)
    decreases n
    requires o + n <= |bytes| && n <= 3 && forall i :: o <= i < o + n ==> 0x80 <= bytes[i] < 0xC0
    ensures Continue(bytes, o, n, acc) ==
            if n == 0 then Some(acc)
            else if n == 1 then Some(acc * 64 + bytes[o] % 64)
            else if n == 2 then Some((acc * 64 + bytes[o] % 64) * 64 + bytes[o + 1] % 64)
            else Some(((acc * 64 + bytes[o] % 64) * 64 + bytes[o + 1] % 64) * 64 + bytes[o + 2] % 64)
  {
    if n > 0 { ContinueThree(bytes, o + 1, n - 1, acc * 64 + bytes[o] % 64); }
  }

  lemma {:induction false} ContinueBytes(bytes: Bytes, o: nat, n: nat, acc: nat)
    requires o + n <= |bytes| && Continue(bytes, o, n, acc).Some?
    ensures forall i :: o <= i < o + n ==> 0x80 <= bytes[i] < 0xC0
    decreases n
  {
    if n > 0 { ContinueBytes(bytes, o + 1, n - 1, acc * 64 + bytes[o] % 64); }
  }

  lemma AtIndex(bytes: Bytes, o: nat, piece: Bytes)
    ensures At(bytes, o, piece) <==> o + |piece| <= |bytes| && forall i :: 0 <= i < |piece| ==> bytes[o + i] == piece[i]
  {
    if o + |piece| <= |bytes| {
      var part := bytes[o..o + |piece|];
      assert forall i :: 0 <= i < |piece| ==> part[i] == bytes[o + i];
    }
  }

  lemma Utf8Lead(s: nat)
    requires Scalar(s)
    ensures var u := Utf8(s);
            && LeadLength(u[0]) == |u| && Shortest(|u|) <= s
            && (forall i :: 1 <= i < |u| ==> 0x80 <= u[i] < 0xC0)
  {
  }

  /** Lead and continuation bytes carry the scalar's digits to base 64. */
  lemma Utf8Short(s: nat)
    requires Scalar(s) && s <= 0x7FF
    ensures var u := Utf8(s);
            && |u| <= 2
            && (|u| == 1 ==> LeadBits(u[0]) == s)
            && (|u| == 2 ==> LeadBits(u[0]) == s / 64 && u[1] % 64 == s % 64)
  {
  }

  lemma Utf8Middle(s: nat)
    requires Scalar(s) && 0x7FF < s <= 0xFFFF
    ensures var u := Utf8(s);
            |u| == 3 && LeadBits(u[0]) == s / 64 / 64 && u[1] % 64 == s / 64 % 64 && u[2] % 64 == s % 64
  {
    var a, b, c := s / 64 / 64, s / 64 % 64, s % 64;
    assert a < 16 && b < 64 && c < 64;
    TailBits(b);
    TailBits(c);
  }

  lemma Utf8High(s: nat)
    requires Scalar(s) && s > 0xFFFF
    ensures var u := Utf8(s);
            |u| == 4 && LeadBits(u[0]) == s / 64 / 64 / 64 && u[1] % 64 == s / 64 / 64 % 64
            && u[2] % 64 == s / 64 % 64 && u[3] % 64 == s % 64
  {
    var a, b, c, d := s / 64 / 64 / 64, s / 64 / 64 % 64, s / 64 % 64, s % 64;
    assert a < 8 && b < 64 && c < 64 && d < 64;
    TailBits(b);
    TailBits(c);
    TailBits(d);
  }

  /** A continuation byte carries its six low bits. */
  lemma TailBits(c: nat)
    requires c < 64
    ensures (0x80 + c) % 64 == c
  {
  }

  lemma Utf8Value(s: nat)
    requires Scalar(s)
    ensures var u := Utf8(s);
            s == if |u| == 1 then LeadBits(u[0])
                 else if |u| == 2 then LeadBits(u[0]) * 64 + u[1] % 64
                 else if |u| == 3 then (LeadBits(u[0]) * 64 + u[1] % 64) * 64 + u[2] % 64
                 else ((LeadBits(u[0]) * 64 + u[1] % 64) * 64 + u[2] % 64) * 64 + u[3] % 64
  {
    DigitOf(s);
    DigitOf(s / 64);
    DigitOf(s / 64 / 64);
    hide Utf8;
    if s <= 0x7FF { Utf8Short(s); } else if s <= 0xFFFF { Utf8Middle(s); } else { Utf8High(s); }
  }

  lemma ScalarRead(bytes: Bytes, o: nat, s: nat)
    requires Scalar(s) && At(bytes, o, Utf8(s))
    ensures GetScalar(bytes, o) == Got(s, o + |Utf8(s)|)
  {
    hide At, Utf8, LeadLength, LeadBits, Continue, Shortest;
    var u := Utf8(s);
    AtIndex(bytes, o, u);
    assert bytes[o + 0] == u[0];
    Utf8Lead(s);
    Utf8Value(s);
    forall i | o + 1 <= i < o + |u| ensures 0x80 <= bytes[i] < 0xC0 {
      assert bytes[i] == u[i - o];
    }
    ContinueThree(bytes, o + 1, |u| - 1, LeadBits(u[0]));
  }

  lemma ScalarWritten(bytes: Bytes, o: nat, s: nat, next: nat)
    requires GetScalar(bytes, o) == Got(s, next)
    ensures Scalar(s) && At(bytes, o, Utf8(s)) && next == o + |Utf8(s)|
  {
    hide At, Utf8, Continue;
    var n := LeadLength(bytes[o]);
    ContinueBytes(bytes, o + 1, n - 1, LeadBits(bytes[o]));
    ContinueThree(bytes, o + 1, n - 1, LeadBits(bytes[o]));
    Utf8Digits(bytes[o..o + n], s);
    AtIndex(bytes, o, Utf8(s));
  }

  lemma Utf8Digits(u: Bytes, s: nat)
    requires |u| > 0 && LeadLength(u[0]) == |u| && Shortest(|u|) <= s && Scalar(s)
    requires forall i :: 1 <= i < |u| ==> 0x80 <= u[i] < 0xC0
    requires s == if |u| == 1 then LeadBits(u[0])
                  else if |u| == 2 then LeadBits(u[0]) * 64 + u[1] % 64
                  else if |u| == 3 then (LeadBits(u[0]) * 64 + u[1] % 64) * 64 + u[2] % 64
                  else ((LeadBits(u[0]) * 64 + u[1] % 64) * 64 + u[2] % 64) * 64 + u[3] % 64
    ensures Utf8(s) == u
  {
    hide Utf8, LeadBits;
    if |u| == 1 { Utf8One(u[0]); }
    else if |u| == 2 { Utf8Two(u[0], u[1], s); }
    else if |u| == 3 { Utf8Three(u[0], u[1], u[2], s); }
    else { Utf8Four(u[0], u[1], u[2], u[3], s); }
  }

  lemma Utf8One(b0: byte)
    requires LeadLength(b0) == 1
    ensures Utf8(LeadBits(b0)) == [b0]
  {
  }

  lemma Utf8Two(b0: byte, b1: byte, s: nat)
    requires LeadLength(b0) == 2 && 0x80 <= b1 < 0xC0
    requires s == LeadBits(b0) * 64 + b1 % 64 && Shortest(2) <= s
    ensures s <= 0x10FFFF && Utf8(s) == [b0, b1]
  {
    Digit(LeadBits(b0), b1 % 64);
  }

  lemma Utf8Three(b0: byte, b1: byte, b2: byte, s: nat)
    requires LeadLength(b0) == 3 && 0x80 <= b1 < 0xC0 && 0x80 <= b2 < 0xC0
    requires s == (LeadBits(b0) * 64 + b1 % 64) * 64 + b2 % 64 && Shortest(3) <= s
    ensures s <= 0x10FFFF && Utf8(s) == [b0, b1, b2]
  {
    var hi := LeadBits(b0) * 64 + b1 % 64;
    Digit(LeadBits(b0), b1 % 64);
    Digit(hi, b2 % 64);
    assert s / 64 == hi;
  }

  lemma HighBytes(s: nat, top: nat, hi: nat, lead: nat, c1: nat, c2: nat, c3: nat)
    requires 0xFFFF < s <= 0x10FFFF && s == hi * 64 + c3 && hi == top * 64 + c2 && top == lead * 64 + c1
    requires lead < 8 && c1 < 64 && c2 < 64 && c3 < 64
    ensures Utf8(s) == [0xF0 + lead, 0x80 + c1, 0x80 + c2, 0x80 + c3]
  {
    Digit(hi, c3);
    Digit(top, c2);
    Digit(lead, c1);
  }

  lemma Utf8Four(b0: byte, b1: byte, b2: byte, b3: byte, s: nat)
    requires LeadLength(b0) == 4 && 0x80 <= b1 < 0xC0 && 0x80 <= b2 < 0xC0 && 0x80 <= b3 < 0xC0
    requires s == ((LeadBits(b0) * 64 + b1 % 64) * 64 + b2 % 64) * 64 + b3 % 64 && Shortest(4) <= s <= 0x10FFFF
    ensures Utf8(s) == [b0, b1, b2, b3]
  {
    hide Utf8;
    var top := LeadBits(b0) * 64 + b1 % 64;
    HighBytes(s, top, top * 64 + b2 % 64, LeadBits(b0), b1 % 64, b2 % 64, b3 % 64);
    LeadOf(b0);
    TailOf(b1);
    TailOf(b2);
    TailOf(b3);
  }

  lemma LeadOf(b: byte)
    requires LeadLength(b) == 4
    ensures 0xF0 + LeadBits(b) == b && LeadBits(b) < 8
  {
  }

  lemma TailOf(b: byte)
    requires 0x80 <= b < 0xC0
    ensures 0x80 + b % 64 == b
  {
  }
}
