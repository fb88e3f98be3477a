/** Frames written out, one for each shape of operation. */
module Samples {
  import opened Types
  import opened Wire
  import opened Codec

  // Eight-byte numbers, the first byte least significant.
  const N1: Bytes := [1, 0, 0, 0, 0, 0, 0, 0]
  const N2: Bytes := [2, 0, 0, 0, 0, 0, 0, 0]
  const N3: Bytes := [3, 0, 0, 0, 0, 0, 0, 0]
  const N4: Bytes := [4, 0, 0, 0, 0, 0, 0, 0]
  const N258: Bytes := [2, 1, 0, 0, 0, 0, 0, 0]

  lemma Zeros(n: nat)
    requires n <= 7
    ensures Le(0, n) == [0, 0, 0, 0, 0, 0, 0][..n]
  {
    if n > 0 {
      Zeros(n - 1);
      assert [0] + [0, 0, 0, 0, 0, 0, 0][..n - 1] == [0, 0, 0, 0, 0, 0, 0][..n];
    }
  }

  lemma Small(v: nat)
    requires v < 256
    ensures Le(v, 8) == [v, 0, 0, 0, 0, 0, 0, 0]
  {
    Zeros(7);
    assert Le(v, 8) == [v % 256] + Le(v / 256, 7);
    assert [0, 0, 0, 0, 0, 0, 0][..7] == [0, 0, 0, 0, 0, 0, 0];
  }

  lemma Words()
    ensures Le(1, 8) == N1 && Le(2, 8) == N2 && Le(3, 8) == N3 && Le(4, 8) == N4 && Le(258, 8) == N258
  {
    Small(1);
    Small(2);
    Small(3);
    Small(4);
    Zeros(6);
    assert Le(258, 8) == [2] + Le(1, 7) && Le(1, 7) == [1] + Le(0, 6);
    assert [0, 0, 0, 0, 0, 0, 0][..6] == [0, 0, 0, 0, 0, 0];
  }

  lemma Sample(frame: Bytes, op: Operation)
    requires Parsable(op) && frame == OpBytes(op) && WriterError(op).None? && |frame| <= MAX_OP_BYTES
    ensures ParseOp(frame) == Ok(op) && SerializeOp(op) == Ok(frame)
  {
    hide OpBytes, ParseOp, WriterError, Parsable;
    OpExact(frame, op);
    ParseThenSerialize(frame, op);
  }

  // Version and type; identity; clock; left anchor; right anchor; kind, length and
  // character; number of attributes.

  /** Replica 1's second operation, clock 2: "b" behind item (1, 1), at the end. */
  const TEXT_OP: Operation := Insert(OpId(1, 2), 2, Some(OpId(1, 1)), None, Text, 98, [])
  const TEXT_FRAME: Bytes :=
    [1] + ([1] + ((N1 + N2) + (N2 + (([1] + (N1 + N1)) + ([0] + (([1] + ([1] + [98])) + ([0] + [])))))))

  lemma TextFrame()
    ensures ParseOp(TEXT_FRAME) == Ok(TEXT_OP) && SerializeOp(TEXT_OP) == Ok(TEXT_FRAME)
  {
    hide Le;
    Words();
    Sample(TEXT_FRAME, TEXT_OP);
  }

  /** Replica 2's first operation, clock 3: a delimiter before item (1, 1), its register
      "b" set to "1" and "x" cleared. */
  const DELIMITER_OP: Operation :=
    Insert(OpId(2, 1), 3, None, Some(OpId(1, 1)), Delimiter, 0,
           [InitialAttr([98], Some([49])), InitialAttr([120], None)])
  const DELIMITER_FRAME: Bytes :=
    [1] + ([1] + ((N2 + N1) + (N3 + ([0] + (([1] + (N1 + N1)) + (([2] + []) + ([2] +
      (((N1 + [98]) + ([1] + (N1 + [49]))) + (((N1 + [120]) + [0]) + [])))))))))

  lemma DelimiterFrame()
    ensures ParseOp(DELIMITER_FRAME) == Ok(DELIMITER_OP) && SerializeOp(DELIMITER_OP) == Ok(DELIMITER_FRAME)
  {
    hide Le;
    Words();
    var attrs := DELIMITER_OP.attrs;
    assert attrs[1..] == [attrs[1]] && attrs[1..][1..] == [];
    assert AttrsBytes(attrs[1..]) == AttrBytes(attrs[1]) + [];
    assert AttrsBytes(attrs) == AttrBytes(attrs[0]) + (AttrBytes(attrs[1]) + []);
    Sample(DELIMITER_FRAME, DELIMITER_OP);
  }

  /** Replica 1's third operation, clock 4: item (1, 2) is deleted. */
  const DELETE_OP: Operation := Delete(OpId(1, 3), 4, Some(OpId(1, 2)))
  const DELETE_FRAME: Bytes := [1] + ([2] + ((N1 + N3) + (N4 + (N1 + N2))))

  lemma DeleteFrame()
    ensures ParseOp(DELETE_FRAME) == Ok(DELETE_OP) && SerializeOp(DELETE_OP) == Ok(DELETE_FRAME)
  {
    hide Le;
    Words();
    Sample(DELETE_FRAME, DELETE_OP);
  }

  /** Replica 2's second operation, clock 258: register "b" of item (1, 2) becomes "12". */
  const WRITE_OP: Operation := SetAttr(OpId(2, 2), 258, Some(OpId(1, 2)), [98], Some([49, 50]))
  const WRITE_FRAME: Bytes :=
    [1] + ([3] + ((N2 + N2) + (N258 + ((N1 + N2) + ((N1 + [98]) + ([1] + (N2 + [49, 50])))))))

  lemma WriteFrame()
    ensures ParseOp(WRITE_FRAME) == Ok(WRITE_OP) && SerializeOp(WRITE_OP) == Ok(WRITE_FRAME)
  {
    hide Le;
    Words();
    Sample(WRITE_FRAME, WRITE_OP);
  }
}
