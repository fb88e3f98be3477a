/** The block merge command (cpp/worker/main.cpp): ranges checked, then carried out
    from last to first through local edits, then compared with the expected blocks. */
module BlockMerge {
  import opened Types
  import opened State
  import opened Visible
  import opened Network
  import opened Edits
  import opened Splice
  import opened BlockSpots
  import opened Sessions
  import opened BlockMergePlan

  const MAX_MERGE_OPS: nat := 1_000_000

  datatype MergeRange = MergeRange(start: nat, end: nat, sourceStart: nat, sourceEnd: nat)

  predicate ValidRange(range: MergeRange, n: nat, m: nat) {
    range.start <= range.end <= n && range.sourceStart <= range.sourceEnd <= m
  }

  predicate Follows(a: MergeRange, b: MergeRange) {
    !(b.start < a.end || (b.start == a.end && b.start == b.end))
  }

  predicate ValidRanges(ranges: seq<MergeRange>, n: nat, m: nat) {
    && (forall i :: 0 <= i < |ranges| ==> ValidRange(ranges[i], n, m))
    && (forall i :: 0 < i < |ranges| ==> Follows(ranges[i - 1], ranges[i]))
  }

  function HunksOf(ranges: seq<MergeRange>, source: seq<VisibleBlock>): (r: seq<BlockHunk>)
    requires forall i :: 0 <= i < |ranges| ==> ranges[i].sourceStart <= ranges[i].sourceEnd <= |source|
    ensures |r| == |ranges|
  {
    seq(|ranges|, i requires 0 <= i < |ranges| =>
      Hunk(ranges[i].start, ranges[i].end, source[ranges[i].sourceStart..ranges[i].sourceEnd]))
  }

  /** Every source slice lies in a source of `m` blocks. */
  predicate SlicesThere(ranges: seq<MergeRange>, m: nat) {
    forall i :: 0 <= i < |ranges| ==> ranges[i].sourceStart <= ranges[i].sourceEnd <= m
  }

  /** The ranges are valid if and only if their slices lie in the source and the hunks
      cut out of it can be carried out together. */
  lemma RangesAccepted(ranges: seq<MergeRange>, n: nat, source: seq<VisibleBlock>)
    ensures ValidRanges(ranges, n, |source|) <==> SlicesThere(ranges, |source|) && Accepted(HunksOf(ranges, source), n)
  {
    if SlicesThere(ranges, |source|) {
      var hunks := HunksOf(ranges, source);
      forall i | 0 <= i < |ranges|
        ensures hunks[i].start == ranges[i].start && hunks[i].end == ranges[i].end
      {}
      if Accepted(hunks, n) {
        forall i | 0 < i < |ranges| ensures Follows(ranges[i - 1], ranges[i]) {
          assert hunks[i - 1].end == ranges[i - 1].end && hunks[i].start == ranges[i].start;
        }
      }
      if ValidRanges(ranges, n, |source|) {
        forall i | 0 <= i < |ranges| && i > 0 ensures Follows(ranges[i - 1], ranges[i]) {}
      }
    }
  }

  /** The check: bounds, order, and no addition where the range before it ends. */
  method CheckRanges(ranges: seq<MergeRange>, n: nat, m: nat) returns (ok: bool)
    ensures ok <==> ValidRanges(ranges, n, m)
    ensures ok <==>
            && (forall i :: 0 <= i < |ranges| ==> ranges[i].start <= ranges[i].end && ranges[i].end <= n)
            && (forall i :: 0 <= i < |ranges| ==> ranges[i].sourceStart <= ranges[i].sourceEnd <= m)
            && (forall i :: 0 < i < |ranges| ==> ranges[i - 1].end <= ranges[i].start)
            && (forall i :: 0 < i < |ranges| && ranges[i].start == ranges[i].end ==>
                  ranges[i - 1].end < ranges[i].start)
  {
    var previousEnd, i := 0, 0;
    while i < |ranges|
      invariant 0 <= i <= |ranges| && (i > 0 ==> previousEnd == ranges[i - 1].end)
      invariant forall k :: 0 <= k < i ==> ValidRange(ranges[k], n, m)
      invariant forall k :: 0 < k < i ==> Follows(ranges[k - 1], ranges[k])
    {
      var range := ranges[i];
      if range.start > range.end || range.end > n || range.sourceStart > range.sourceEnd || range.sourceEnd > m
         || (i > 0 && (range.start < previousEnd || (range.start == previousEnd && range.start == range.end))) {
        assert i > 0 ==> !ValidRange(range, n, m) || !Follows(ranges[i - 1], range);
        return false;
      }
      previousEnd := range.end;
      i := i + 1;
    }
    return true;
  }

  // ------------------------------------------------------------------ one document

  lemma StartsNext(sp: seq<Spot>, i: int)
    requires 0 <= i < |sp|
    ensures Starts(sp[..i + 1]) ==
            if sp[i].live && (|Starts(sp[..i])| == 0 || sp[i].show.kind == Delimiter) then Starts(sp[..i]) + [i]
            else Starts(sp[..i])
  {
    assert sp[..i + 1][..i] == sp[..i];
  }

  /** Where blocks start, with the end of the stream behind the last. */
  method BlockStarts(items: seq<Item>) returns (starts: seq<nat>)
    ensures var sp := Spots(items);
            && |starts| == (if |Starts(sp)| == 0 then 2 else |Starts(sp)| + 1)
            && forall k :: 0 <= k < |starts| ==> starts[k] == Place(sp, k)
  {
    ghost var sp := Spots(items);
    starts := [];
    var i := 0;
    while i < |items|
      invariant 0 <= i <= |items| && starts == Starts(sp[..i])
    {
      StartsNext(sp, i);
      if !items[i].tombstoned && (|starts| == 0 || items[i].kind == Delimiter) {
        starts := starts + [i];
      }
      i := i + 1;
    }
    assert sp[..i] == sp;
    if |starts| == 0 {
      starts := starts + [|items|];
    }
    starts := starts + [|items|];
  }

  method LiveCount(items: seq<Item>, from: nat, to: nat) returns (n: nat)
    requires from <= to <= |items|
    ensures n == |Shown(Spots(items)[from..to])|
  {
    ghost var sp := Spots(items);
    HiddenNone(sp, from);
    n := 0;
    var i := from;
    while i < to
      invariant from <= i <= to && n == |Shown(sp[from..i])|
    {
      HiddenNext(sp, from, i);
      if !items[i].tombstoned {
        n := n + 1;
      }
      i := i + 1;
    }
  }

  method SourceCost(blocks: seq<VisibleBlock>) returns (n: nat)
    ensures n == WriteCost(blocks)
  {
    n := 0;
    var k := 0;
    NoBlocks(blocks);
    while k < |blocks|
      invariant 0 <= k <= |blocks| && n == WriteCost(blocks[..k])
    {
      NextBlock(blocks, k);
      n := n + 1 + |blocks[k].attrs|;
      var chars, c := blocks[k].chars, 0;
      NoChars(chars, []);
      ghost var n0 := n;
      while c < |chars|
        invariant 0 <= c <= |chars| && n == n0 + CharsCost(chars[..c])
      {
        CharsNext(chars, c);
        n := n + 1 + |chars[c].marks|;
        c := c + 1;
      }
      assert chars[..c] == chars;
      k := k + 1;
    }
    assert blocks[..k] == blocks;
  }

  // --------------------------------------------------------------- range by range

  /** Every range finds the starts it asks for. */
  lemma PlacesThere(sp0: seq<Spot>, base: seq<VisibleBlock>, hunks: seq<BlockHunk>, j: nat)
    requires base == Document(Shown(sp0)) && Accepted(hunks, |base|) && AllTyped(hunks) && j < |hunks|
    ensures var sp := Merged(sp0, hunks, j + 1);
            hunks[j].start <= hunks[j].end < (if |Starts(sp)| == 0 then 2 else |Starts(sp)| + 1)
  {
    var sp := Merged(sp0, hunks, j + 1);
    TrackAll(sp0, base, hunks, j + 1);
    ExpectedNext(base, hunks, j);
    EmptyDocument(Shown(sp0));
    if Misplaced(Shown(sp0), hunks, j + 1) { MisplacedStays(Shown(sp0), hunks, |base|, j); }
    hide Blocks, Shown, Starts, Expected, Misplaced, Accepted, Document, Merged;
    StartsCut(sp);
    BlocksEmpty(Shown(sp));
  }

  lemma CostNext(sp0: seq<Spot>, hunks: seq<BlockHunk>, j: nat)
    requires j < |hunks|
    ensures var sp, h := Merged(sp0, hunks, j + 1), hunks[j];
            Cost(sp0, hunks, j) == Cost(sp0, hunks, j + 1) + HiddenCost(sp, Place(sp, h.start), Place(sp, h.end))
              + WriteCost(h.replacement)
  {
    hide Merged, Place, HiddenCost, WriteCost;
  }

  lemma {:induction false} CostGrows(sp0: seq<Spot>, hunks: seq<BlockHunk>, j: nat)
    requires j <= |hunks|
    ensures Cost(sp0, hunks, j) <= Cost(sp0, hunks, 0)
    decreases j
  {
    hide Cost, Merged, Place, HiddenCost, WriteCost;
    if j > 0 {
      CostNext(sp0, hunks, j - 1);
      CostGrows(sp0, hunks, j - 1);
    }
  }

  lemma MergedNext(sp0: seq<Spot>, hunks: seq<BlockHunk>, j: nat)
    requires j < |hunks|
    ensures var sp, h := Merged(sp0, hunks, j + 1), hunks[j];
            && Place(sp, h.start) <= |sp|
            && Merged(sp0, hunks, j) ==
               Written(Hidden(sp, Place(sp, h.start), Place(sp, h.end))[..Place(sp, h.start)], FlatAll(h.replacement),
                       Hidden(sp, Place(sp, h.start), Place(sp, h.end))[Place(sp, h.start)..])
  {
    var sp := Merged(sp0, hunks, j + 1);
    StartsAscend(sp);
    hide Place, FlatAll, Hidden;
  }

  lemma WrittenNone(sp: seq<Spot>, at: nat)
    requires at <= |sp|
    ensures Written(sp[..at], [], sp[at..]) == sp
  {
    assert LiveSpots([]) == [];
    assert sp[..at] + [] == sp[..at];
  }

  /** Hide the range, then write the replacement before what was hidden. */
  method ReplaceRange(reg: Registry, ghost start: Doc, target0: Doc, from: nat, to: nat, blocks: seq<VisibleBlock>,
                      ghost sp: seq<Spot>, ghost script0: seq<Edit>) returns (r: Result<Doc>, ghost script: seq<Edit>)
    requires Consistent(reg) && AllWritable(reg, blocks) && from <= to <= |sp|
    requires Session(reg, start, script0, target0, sp)
    ensures |script| <= |script0| + |Shown(sp[from..to])| + WriteCost(blocks)
    ensures r.Ok? ==> |script| == |script0| + |Shown(sp[from..to])| + WriteCost(blocks)
                      && Session(reg, start, script, r.value,
                                 Written(Hidden(sp, from, to)[..from], FlatAll(blocks), Hidden(sp, from, to)[from..]))
    ensures r.Err? ==> r.code == CounterOverflow && start.nextCounter + |script| >= MAX_COUNTER
  {
    hide Session, Written, Hidden, Shown, FlatAll, WriteCost, AllWritable, Consistent;
    r, script := HideRange(reg, start, target0, from, to, script0, sp);
    if r.Err? {
      return;
    }
    ghost var h := Hidden(sp, from, to);
    WrittenNone(h, from);
    r, script := WriteBlocks(reg, start, r.value, blocks, from, h[..from], h[from..], script);
  }

  datatype MergeOutcome = Malformed | TooLarge | Failed(code: ErrorCode) | Mismatch | Done(target: Doc)

  lemma HunksWritable(reg: Registry, ranges: seq<MergeRange>, source: seq<VisibleBlock>)
    requires AllWritable(reg, source)
    requires forall i :: 0 <= i < |ranges| ==> ranges[i].sourceStart <= ranges[i].sourceEnd <= |source|
    ensures AllTyped(HunksOf(ranges, source))
    ensures forall j :: 0 <= j < |ranges| ==> AllWritable(reg, HunksOf(ranges, source)[j].replacement)
  {
    hide WritableChars, AllowsAll;
  }

  lemma SessionStarts(reg: Registry, d: Doc)
    requires Editable(d)
    ensures Session(reg, d, [], d, Spots(d.stream))
  {
    hide Editable;
  }

  lemma SessionPerformed(reg: Registry, start: Doc, script: seq<Edit>, target: Doc, spots: seq<Spot>)
    requires Session(reg, start, script, target, spots)
    ensures target == PerformAll(reg, start, script) && Spots(target.stream) == spots && Editable(target)
    ensures VisibleDocument(target.stream) == Document(Shown(spots))
  {
    hide Editable, PerformAll, Document, Shown;
    LivesAreShown(target.stream);
  }

  /** The merge.  It refuses malformed ranges, too many operations and a used-up
      counter; the final comparison fails exactly on a misplaced addition. */
  method MergeBlocks(reg: Registry, current: Doc, source: seq<VisibleBlock>, ranges: seq<MergeRange>)
    returns (r: MergeOutcome, ghost script: seq<Edit>)
    requires Consistent(reg) && Editable(current) && AllWritable(reg, source)
    ensures r.Malformed? <==> !(SlicesThere(ranges, |source|)
                                && Accepted(HunksOf(ranges, source), |VisibleDocument(current.stream)|))
    ensures !r.Malformed? ==>
              var sp, hunks := Spots(current.stream), HunksOf(ranges, source);
              && Accepted(hunks, |VisibleDocument(current.stream)|)
              && (r.TooLarge? ==> Cost(sp, hunks, 0) > MAX_MERGE_OPS)
              && (r.Failed? ==> current.nextCounter + Cost(sp, hunks, 0) >= MAX_COUNTER)
              && (r.Done? || r.Mismatch? ==>
                    Cost(sp, hunks, 0) <= MAX_MERGE_OPS && (r.Mismatch? <==> Misplaced(Shown(sp), hunks, 0)))
              && (r.Done? ==> |script| == Cost(sp, hunks, 0) && r.target == PerformAll(reg, current, script)
                              && Editable(r.target)
                              && VisibleDocument(r.target.stream)
                                 == OrDefault(Expected(VisibleDocument(current.stream), hunks, 0)))
  {
    hide *;
    script := [];
    var base := VisibleDocument(current.stream);
    var ok := CheckRanges(ranges, |base|, |source|);
    RangesAccepted(ranges, |base|, source);
    if !ok {
      return Malformed, script;
    }
    ghost var sp0 := Spots(current.stream);
    SourcesThere(ranges, |base|, |source|);
    ghost var hunks := HunksOf(ranges, source);
    HunksWritable(reg, ranges, source);
    SessionStarts(reg, current);
    SessionPerformed(reg, current, script, current, sp0);
    ExpectedEnd(base, hunks);
    NothingMerged(sp0, hunks);
    var target, expected, generated, j := current, base, 0, |ranges|;
    while j > 0
      invariant 0 <= j <= |ranges|
      invariant expected == Expected(base, hunks, j) && generated == Cost(sp0, hunks, j) == |script|
                && generated <= MAX_MERGE_OPS
      invariant Session(reg, current, script, target, Merged(sp0, hunks, j))
    {
      j := j - 1;
      ghost var sp := Merged(sp0, hunks, j + 1);
      PlacesThere(sp0, base, hunks, j);
      ExpectedNext(base, hunks, j);
      HunkAt(ranges, source, j);
      MergedNext(sp0, hunks, j);
      CostNext(sp0, hunks, j);
      CostGrows(sp0, hunks, j);
      SessionStream(reg, current, script, target, sp);
      SessionPerformed(reg, current, script, target, sp);
      PlacesAscend(sp, ranges[j].start, ranges[j].end);
      HiddenCostIs(sp, Place(sp, ranges[j].start), Place(sp, ranges[j].end));
      var starts := BlockStarts(target.stream);
      var from, to := starts[ranges[j].start], starts[ranges[j].end];
      var blocks := source[ranges[j].sourceStart..ranges[j].sourceEnd];
      var hidden := LiveCount(target.stream, from, to);
      var written := SourceCost(blocks);
      if hidden + written > MAX_MERGE_OPS - generated {
        return TooLarge, script;
      }
      var result;
      result, script := ReplaceRange(reg, current, target, from, to, blocks, sp, script);
      if result.Err? {
        return Failed(result.code), script;
      }
      target := result.value;
      generated := generated + hidden + written;
      expected := expected[..ranges[j].start] + blocks + expected[ranges[j].end..];
    }
    SessionPerformed(reg, current, script, target, Merged(sp0, hunks, 0));
    MergeAgrees(sp0, hunks);
    ExpectedOr(expected);
    if |expected| == 0 {
      expected := [DEFAULT_BLOCK];
    }
    if VisibleDocument(target.stream) != expected {
      return Mismatch, script;
    }
    return Done(target), script;
  }

  lemma SourcesThere(ranges: seq<MergeRange>, n: nat, m: nat)
    requires ValidRanges(ranges, n, m)
    ensures forall i :: 0 <= i < |ranges| ==> ranges[i].sourceStart <= ranges[i].sourceEnd <= m
  {
  }

  lemma NothingMerged(sp: seq<Spot>, hunks: seq<BlockHunk>)
    ensures Merged(sp, hunks, |hunks|) == sp && Cost(sp, hunks, |hunks|) == 0
  {
  }

  lemma HunkAt(ranges: seq<MergeRange>, source: seq<VisibleBlock>, j: nat)
    requires j < |ranges|
    requires forall i :: 0 <= i < |ranges| ==> ranges[i].sourceStart <= ranges[i].sourceEnd <= |source|
    ensures HunksOf(ranges, source)[j]
            == Hunk(ranges[j].start, ranges[j].end, source[ranges[j].sourceStart..ranges[j].sourceEnd])
  {
  }

  lemma HiddenCostIs(sp: seq<Spot>, from: nat, to: nat)
    requires from <= to <= |sp|
    ensures HiddenCost(sp, from, to) == |Shown(sp[from..to])|
  {
  }

  lemma ExpectedOr(blocks: seq<VisibleBlock>)
    ensures OrDefault(blocks) == if |blocks| == 0 then [DEFAULT_BLOCK] else blocks
  {
  }
}
