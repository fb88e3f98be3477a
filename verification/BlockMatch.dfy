/** Which blocks are kept as which, and what it takes to turn the old blocks into the
    new ones (src/lib/crdt/adapter.ts, reconcile). */
module BlockMatch {
  import opened Types
  import opened Visible
  import opened Network
  import opened Tracking
  import opened Emitting
  import opened CharDiff
  import opened BlockDiff

  // --------------------------------------------------------------- matching blocks

  /** blockEq: the same text, whatever its formatting. */
  predicate SameText(a: VisibleBlock, b: VisibleBlock) {
    |a.chars| == |b.chars| && forall i :: 0 <= i < |a.chars| ==> a.chars[i].scalar == b.chars[i].scalar
  }

  /** How many blocks match from the start on, beyond the first `n`: as many as do. */
  function StartMatch(before: seq<VisibleBlock>, after: seq<VisibleBlock>, n: nat): (r: nat)
    requires n <= |before| && n <= |after|
    ensures n <= r <= |before| && r <= |after|
    ensures forall k :: n <= k < r ==> SameText(before[k], after[k])
    ensures r < |before| && r < |after| ==> !SameText(before[r], after[r])
    decreases |before| - n
  {
    if n < |before| && n < |after| && SameText(before[n], after[n]) then StartMatch(before, after, n + 1) else n
  }

  /** How many of the rest match from the end, beyond `n`: as many as do. */
  function EndMatch(before: seq<VisibleBlock>, after: seq<VisibleBlock>, start: nat, n: nat): (r: nat)
    requires start + n <= |before| && start + n <= |after|
    ensures n <= r && start + r <= |before| && start + r <= |after|
    ensures forall k :: |before| - r <= k < |before| - n ==> SameText(before[k], after[|after| - |before| + k])
    ensures start + r < |before| && start + r < |after| ==>
              !SameText(before[|before| - 1 - r], after[|after| - 1 - r])
    decreases |before| - n
  {
    if start + n < |before| && start + n < |after| && SameText(before[|before| - 1 - n], after[|after| - 1 - n]) then
      EndMatch(before, after, start, n + 1)
    else n
  }

  function Least(a: nat, b: nat): nat {
    if a < b then a else b
  }

  /** How many blocks are kept from the start: those that match and, as long as there
      are two, those in between. */
  function KeptFirst(before: seq<VisibleBlock>, after: seq<VisibleBlock>): nat {
    var p := StartMatch(before, after, 0);
    var s := EndMatch(before, after, p, 0);
    p + Least(|before| - p - s, |after| - p - s)
  }

  /** How many blocks are kept at the end. */
  function KeptLast(before: seq<VisibleBlock>, after: seq<VisibleBlock>): (s: nat)
    ensures KeptFirst(before, after) + s <= |before| && KeptFirst(before, after) + s <= |after|
  {
    EndMatch(before, after, StartMatch(before, after, 0), 0)
  }

  lemma KeptAre(before: seq<VisibleBlock>, after: seq<VisibleBlock>, p: nat, s: nat)
    requires p == StartMatch(before, after, 0) && s == EndMatch(before, after, p, 0)
    ensures p + s <= |before| && p + s <= |after| && KeptLast(before, after) == s
    ensures KeptFirst(before, after) == p + Least(|before| - p - s, |after| - p - s)
  {
    hide StartMatch, EndMatch, Least, SameText;
    assert KeptLast(before, after) == s;
  }

  /** Which new block an old one is kept as. */
  function KeptAs(before: seq<VisibleBlock>, after: seq<VisibleBlock>, k: nat): (n: Option<nat>)
    ensures n.Some? ==> k < |before| && n.value < |after|
  {
    if k < KeptFirst(before, after) then Some(k)
    else if |before| - KeptLast(before, after) <= k < |before| then Some(|after| - |before| + k)
    else None
  }

  method MatchEnds(before: seq<VisibleBlock>, after: seq<VisibleBlock>) returns (prefix: nat, suffix: nat)
    ensures prefix == StartMatch(before, after, 0) && suffix == EndMatch(before, after, prefix, 0)
  {
    hide SameText;
    prefix := 0;
    while prefix < |before| && prefix < |after| && SameText(before[prefix], after[prefix])
      invariant prefix <= |before| && prefix <= |after|
                && StartMatch(before, after, prefix) == StartMatch(before, after, 0)
    {
      prefix := prefix + 1;
    }
    suffix := 0;
    while suffix < |before| - prefix && suffix < |after| - prefix
          && SameText(before[|before| - 1 - suffix], after[|after| - 1 - suffix])
      invariant prefix + suffix <= |before| && prefix + suffix <= |after|
      invariant EndMatch(before, after, prefix, suffix) == EndMatch(before, after, prefix, 0)
    {
      suffix := suffix + 1;
    }
  }

  /** Lists of one length that match throughout match from the start. */
  lemma EndMatchesFirst(before: seq<VisibleBlock>, after: seq<VisibleBlock>, s: nat)
    requires s == EndMatch(before, after, 0, 0) && s == |before| == |after| && s > 0
    ensures StartMatch(before, after, 0) > 0
  {
    assert SameText(before[0], after[0]);
  }

  // ----------------------------------------------------------------- what it takes

  /** What a run of kept blocks takes. */
  function RunWork(before: seq<VisibleBlock>, after: seq<VisibleBlock>, k0: nat, n0: nat, count: nat, bare: bool): Work
    requires k0 + count <= |before| && n0 + count <= |after|
  {
    if count == 0 then NO_WORK
    else
      var i := count - 1;
      RunWork(before, after, k0, n0, i, bare).Plus(BlockWork(before[k0 + i], after[n0 + i], k0 + i == 0 && bare))
  }

  lemma RunWorkNext(before: seq<VisibleBlock>, after: seq<VisibleBlock>, k0: nat, n0: nat, count: nat, bare: bool)
    requires k0 + count <= |before| && n0 + count <= |after|
    ensures RunWork(before, after, k0, n0, count, bare) ==
            if count == 0 then NO_WORK
            else RunWork(before, after, k0, n0, count - 1, bare).Plus(
                   BlockWork(before[k0 + count - 1], after[n0 + count - 1], k0 + count == 1 && bare))
  {
    hide BlockWork;
  }

  lemma {:induction false} RunWorkJoin(before: seq<VisibleBlock>, after: seq<VisibleBlock>, a: nat, b: nat, bare: bool)
    requires a + b <= |before| && a + b <= |after|
    ensures RunWork(before, after, 0, 0, a + b, bare)
            == RunWork(before, after, 0, 0, a, bare).Plus(RunWork(before, after, a, a, b, bare))
    decreases b
  {
    hide *;
    RunWorkNext(before, after, 0, 0, a + b, bare);
    RunWorkNext(before, after, a, a, b, bare);
    NoEdits();
    if b > 0 {
      RunWorkJoin(before, after, a, b - 1, bare);
      PlusPlus(RunWork(before, after, 0, 0, a, bare), RunWork(before, after, a, a, b - 1, bare),
               BlockWork(before[a + b - 1], after[a + b - 1], a + b == 1 && bare));
    }
  }

  lemma PlusPlus(a: Work, b: Work, c: Work)
    ensures a.Plus(b).Plus(c) == a.Plus(b.Plus(c))
  {
  }

  lemma NoEdits()
    ensures WorkOf([]) == NO_WORK
    ensures forall w: Work :: NO_WORK.Plus(w) == w && w.Plus(NO_WORK) == w
  {
  }

  /** The items of blocks `b` up to `behind`: delimiters and characters. */
  function ItemsIn(before: seq<VisibleBlock>, b: nat, behind: nat, bare: bool): nat
    requires b <= behind <= |before|
    decreases behind - b
  {
    if b == behind then 0
    else (if b == 0 && bare then 0 else 1) + |before[b].chars| + ItemsIn(before, b + 1, behind, bare)
  }

  function NewWork(after: seq<VisibleBlock>, n0: nat, n: nat): Work
    requires n0 <= n <= |after|
  {
    if n == n0 then NO_WORK else NewWork(after, n0, n - 1).Plus(NewBlockWork(after[n - 1]))
  }

  /** All it takes: for the blocks kept at the start and in between, for the items
      deleted, for the blocks added, for the blocks kept at the end. */
  function ReconcileWork(before: seq<VisibleBlock>, after: seq<VisibleBlock>, bare: bool): Work {
    var first, last := KeptFirst(before, after), KeptLast(before, after);
    RunWork(before, after, 0, 0, first, bare)
      .Plus(Erasing(ItemsIn(before, first, |before| - last, bare)))
      .Plus(NewWork(after, first, |after| - last))
      .Plus(RunWork(before, after, |before| - last, |after| - last, last, bare))
  }

  // -------------------------------------------------------------------- what it means

  /** A block with the same text is kept character by character. */
  lemma SameTextKeeps(was: VisibleBlock, goal: VisibleBlock, bare: bool)
    requires SameText(was, goal)
    ensures Front(was.chars, goal.chars) == |was.chars|
    ensures BlockWork(was, goal, bare).erased == BlockWork(was, goal, bare).typed == 0
  {
  }

  lemma {:induction false} SameRemarks(chars: seq<VisibleChar>)
    ensures Remarks(chars, chars) == 0
  {
    if |chars| > 0 {
      var n := |chars| - 1;
      SameRemarks(chars[..n]);
      NoneDiffer(chars[n].marks);
    }
  }

  lemma SameChars(chars: seq<VisibleChar>)
    ensures CharsWork(chars, chars) == NO_WORK
  {
    hide Remarks, MarksIn;
    assert Front(chars, chars) == |chars| && Back(chars, chars) == 0;
    assert chars[..|chars|] == chars && chars[|chars|..] == [];
    SameRemarks(chars);
    SameRemarks([]);
    MarksNone(chars[|chars|..]);
  }

  lemma SameBlock(block: VisibleBlock, bare: bool)
    ensures BlockWork(block, block, bare) == NO_WORK
  {
    hide CharsWork, Differing;
    NoneDiffer(block.attrs);
    SameChars(block.chars);
  }

  lemma {:induction false} SameRun(blocks: seq<VisibleBlock>, count: nat, bare: bool)
    requires count <= |blocks|
    ensures RunWork(blocks, blocks, 0, 0, count, bare) == NO_WORK
  {
    hide *;
    RunWorkNext(blocks, blocks, 0, 0, count, bare);
    NoEdits();
    if count > 0 {
      SameRun(blocks, count - 1, bare);
      SameBlock(blocks[count - 1], count == 1 && bare);
    }
  }

  lemma MatchesItself(blocks: seq<VisibleBlock>)
    ensures StartMatch(blocks, blocks, 0) == |blocks| && EndMatch(blocks, blocks, |blocks|, 0) == 0
  {
  }

  lemma NothingNew(blocks: seq<VisibleBlock>, bare: bool)
    ensures ItemsIn(blocks, |blocks|, |blocks|, bare) == 0 && NewWork(blocks, |blocks|, |blocks|) == NO_WORK
    ensures Least(0, 0) == 0 && Erasing(0) == NO_WORK && NO_WORK.Total() == 0
  {
  }

  lemma WorkIs(before: seq<VisibleBlock>, after: seq<VisibleBlock>, bare: bool)
    ensures var first, last := KeptFirst(before, after), KeptLast(before, after);
            ReconcileWork(before, after, bare)
            == RunWork(before, after, 0, 0, first, bare)
               .Plus(Erasing(ItemsIn(before, first, |before| - last, bare)))
               .Plus(NewWork(after, first, |after| - last))
               .Plus(RunWork(before, after, |before| - last, |after| - last, last, bare))
  {
    hide RunWork, ItemsIn, NewWork, KeptFirst, KeptLast;
  }

  /** Equal content takes nothing at all. */
  lemma SameContent(blocks: seq<VisibleBlock>, ops: seq<Edit>, bare: bool)
    requires WorkOf(ops) == ReconcileWork(blocks, blocks, bare)
    ensures ops == []
  {
    hide *;
    MatchesItself(blocks);
    KeptAre(blocks, blocks, |blocks|, 0);
    NothingNew(blocks, bare);
    WorkIs(blocks, blocks, bare);
    SameRun(blocks, |blocks|, bare);
    RunWorkNext(blocks, blocks, |blocks|, |blocks|, 0, bare);
    NoEdits();
    WorkTotal(ops);
  }
}
