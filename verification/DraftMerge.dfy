/** Diffing content into hunks and merging selected draft hunks
    (src/lib/drafts.ts). */
module DraftMerge {
  import opened Types
  import opened Splice
  import opened Drafts

  // --------------------------------------------------------------------- anchors

  /** Uniquely matching blocks in the same order in both contents. */
  ghost predicate AnchorChain<T>(base: seq<T>, changed: seq<T>, anchors: seq<Pair>) {
    && (forall k :: 0 <= k < |anchors| ==> Match(base, changed, anchors[k]))
    && (forall i, j :: 0 <= i < j < |anchors| ==>
          anchors[i].base < anchors[j].base && anchors[i].changed < anchors[j].changed)
  }

  /** Any anchor chain is a climb through the candidates. */
  lemma ChainAsClimb<T>(base: seq<T>, changed: seq<T>, cands: seq<Pair>, other: seq<Pair>) returns (q: seq<int>)
    requires AnchorChain(base, changed, other)
    requires forall i, j :: 0 <= i < j < |cands| ==> cands[i].base < cands[j].base
    requires forall p :: Match(base, changed, p) ==> p in cands
    ensures |q| == |other| && Climbs(cands, q)
  {
    q := [];
    while |q| < |other|
      invariant |q| <= |other|
      invariant forall k :: 0 <= k < |q| ==> 0 <= q[k] < |cands| && cands[q[k]] == other[k]
    {
      assert other[|q|] in cands;
      var i :| 0 <= i < |cands| && cands[i] == other[|q|];
      q := q + [i];
    }
    forall i, j | 0 <= i < j < |q| ensures q[i] < q[j] {
      assert cands[q[i]].base < cands[q[j]].base;
    }
  }

  /** The longest possible chain of unique unchanged blocks. */
  method Anchors<T(==)>(base: seq<T>, changed: seq<T>) returns (anchors: seq<Pair>)
    ensures AnchorChain(base, changed, anchors)
    ensures forall other :: AnchorChain(base, changed, other) ==> |other| <= |anchors|
  {
    var cands := Candidates(base, changed);
    var q := LongestClimb(cands);
    anchors := [];
    for k := 0 to |q|
      invariant |anchors| == k && forall i :: 0 <= i < k ==> anchors[i] == cands[q[i]]
    {
      anchors := anchors + [cands[q[k]]];
    }
    forall other | AnchorChain(base, changed, other) ensures |other| <= |anchors| {
      var climb := ChainAsClimb(base, changed, cands, other);
    }
  }

  // ----------------------------------------------------------------------- hunks

  /** Every hunk changes something, and a kept block separates any two. */
  ghost predicate Separated<T>(hunks: seq<Hunk<T>>) {
    && (forall i :: 0 <= i < |hunks| ==> hunks[i].start < hunks[i].end || |hunks[i].replacement| > 0)
    && (forall i :: 0 < i < |hunks| ==> hunks[i - 1].end < hunks[i].start)
  }

  ghost predicate Covered<T>(base: seq<T>, changed: seq<T>, hunks: seq<Hunk<T>>, b: nat, c: nat) {
    && b <= |base| && c <= |changed|
    && Chain(hunks, b) && Patch(base, hunks, b) == changed[..c]
    && Separated(hunks) && (|hunks| > 0 ==> hunks[|hunks| - 1].end < b)
  }

  lemma CoverGap<T>(base: seq<T>, changed: seq<T>, hunks: seq<Hunk<T>>, b: nat, c: nat, b': nat, c': nat)
    requires Covered(base, changed, hunks, b, c) && b <= b' <= |base| && c <= c' <= |changed|
    requires b < b' || c < c'
    ensures var h := hunks + [Hunk(b, b', changed[c..c'])];
            Chain(h, b') && Patch(base, h, b') == changed[..c'] && Separated(h)
  {
    hide Separated;
    var n := Hunk(b, b', changed[c..c']);
    assert (hunks + [n])[..|hunks|] == hunks;
    assert changed[..c] + changed[c..c'] == changed[..c'];
    assert base[b'..b'] == [];
    SeparatedMore(hunks, n);
  }

  lemma SeparatedMore<T>(hunks: seq<Hunk<T>>, n: Hunk<T>)
    requires Separated(hunks) && (|hunks| > 0 ==> hunks[|hunks| - 1].end < n.start)
    requires n.start < n.end || |n.replacement| > 0
    ensures Separated(hunks + [n])
  {
  }

  lemma CoverKept<T>(base: seq<T>, changed: seq<T>, hunks: seq<Hunk<T>>, b: nat, c: nat)
    requires b < |base| && c < |changed| && base[b] == changed[c]
    requires Chain(hunks, b) && Patch(base, hunks, b) == changed[..c] && Separated(hunks)
    ensures Covered(base, changed, hunks, b + 1, c + 1)
  {
    PatchExtends(base, hunks, b, b + 1);
    assert base[b..b + 1] == [base[b]];
    assert changed[..c + 1] == changed[..c] + [changed[c]];
  }

  /** How many base blocks the hunks replace. */
  function Touched<T>(hunks: seq<Hunk<T>>): int {
    if |hunks| == 0 then 0
    else
      var h := hunks[|hunks| - 1];
      Touched(hunks[..|hunks| - 1]) + (h.end as int - h.start as int)
  }

  /** Base position `i` stands behind `q` hunks and within none. */
  ghost predicate Stands<T>(hunks: seq<Hunk<T>>, q: int, i: int) {
    0 <= q <= |hunks| && (q > 0 ==> hunks[q - 1].end <= i) && (q < |hunks| ==> i < hunks[q].start)
  }

  /** Every block of the first `b` that no hunk replaces stands once in each content, in
      the changed one at its shifted place. */
  ghost predicate KeptOnce<T>(base: seq<T>, changed: seq<T>, hunks: seq<Hunk<T>>, b: nat) {
    forall q, i :: 0 <= i < b && Stands(hunks, q, i) ==> KeptAt(base, changed, hunks, q, i)
  }

  ghost predicate KeptAt<T>(base: seq<T>, changed: seq<T>, hunks: seq<Hunk<T>>, q: int, i: int) {
    && 0 <= q <= |hunks| && 0 <= i && 0 <= i + Shift(hunks[..q])
    && Match(base, changed, Pair(i, i + Shift(hunks[..q])))
  }

  /** No diff by uniquely matching blocks keeps more; what is kept is such a block. */
  ghost predicate KeepsMost<T>(base: seq<T>, changed: seq<T>, hunks: seq<Hunk<T>>) {
    && (forall other :: AnchorChain(base, changed, other) ==> |other| <= |base| - Touched(hunks))
    && (base != changed ==> KeptOnce(base, changed, hunks, |base|))
  }

  lemma TouchedMore<T>(hunks: seq<Hunk<T>>, n: Hunk<T>)
    ensures Touched(hunks + [n]) == Touched(hunks) + (n.end as int - n.start as int)
    ensures Shift(hunks + [n]) == Shift(hunks) + |n.replacement| - (n.end as int - n.start as int)
  {
    assert (hunks + [n])[..|hunks|] == hunks;
  }

  /** A new hunk behind position `b` leaves what is before it. */
  lemma KeptBefore<T>(base: seq<T>, changed: seq<T>, hunks: seq<Hunk<T>>, b: nat, n: Hunk<T>)
    requires KeptOnce(base, changed, hunks, b) && n.start == b <= n.end
    requires forall k :: 0 <= k < |hunks| ==> hunks[k].start <= b && hunks[k].end <= b
    ensures KeptOnce(base, changed, hunks + [n], n.end)
  {
    hide KeptAt;
    var more := hunks + [n];
    forall q, i | 0 <= i < n.end && Stands(more, q, i) ensures KeptAt(base, changed, more, q, i) {
      StandsBefore(hunks, b, n, q, i);
      SameKept(base, changed, hunks, n, q, i);
    }
  }

  lemma StandsBefore<T>(hunks: seq<Hunk<T>>, b: nat, n: Hunk<T>, q: int, i: int)
    requires n.start == b && 0 <= i < n.end && Stands(hunks + [n], q, i)
    requires forall k :: 0 <= k < |hunks| ==> hunks[k].start <= b
    ensures i < b && q <= |hunks| && Stands(hunks, q, i)
  {
    var more := hunks + [n];
    assert q < |hunks| ==> more[q] == hunks[q];
    assert 0 < q <= |hunks| ==> more[q - 1] == hunks[q - 1];
  }

  lemma SameKept<T>(base: seq<T>, changed: seq<T>, hunks: seq<Hunk<T>>, n: Hunk<T>, q: int, i: int)
    requires 0 <= q <= |hunks| && KeptAt(base, changed, hunks, q, i)
    ensures KeptAt(base, changed, hunks + [n], q, i)
  {
    hide Match;
    assert (hunks + [n])[..q] == hunks[..q];
  }

  /** One more anchor behind all hunks. */
  lemma KeptAnchor<T>(base: seq<T>, changed: seq<T>, hunks: seq<Hunk<T>>, a: Pair)
    requires KeptOnce(base, changed, hunks, a.base) && Match(base, changed, a) && a.base + Shift(hunks) == a.changed
    requires forall k :: 0 <= k < |hunks| ==> hunks[k].start <= a.base
    ensures KeptOnce(base, changed, hunks, a.base + 1)
  {
    hide Match, KeptAt;
    forall q, i | 0 <= i < a.base + 1 && Stands(hunks, q, i) ensures KeptAt(base, changed, hunks, q, i) {
      if i == a.base {
        assert q == |hunks|;
        LastKept(base, changed, hunks, a);
      }
    }
  }

  lemma LastKept<T>(base: seq<T>, changed: seq<T>, hunks: seq<Hunk<T>>, a: Pair)
    requires Match(base, changed, a) && a.base + Shift(hunks) == a.changed
    ensures KeptAt(base, changed, hunks, |hunks|, a.base)
  {
    hide Match;
    assert hunks[..|hunks|] == hunks;
  }

  /** A cover ends where the changed content has been read to. */
  lemma CoverLength<T>(base: seq<T>, changed: seq<T>, hunks: seq<Hunk<T>>, b: nat, c: nat)
    requires b <= |base| && c <= |changed| && Chain(hunks, b) && Patch(base, hunks, b) == changed[..c]
    ensures b + Shift(hunks) == c
    ensures forall k :: 0 <= k < |hunks| ==> hunks[k].start <= b && hunks[k].end <= b
  {
    PatchLength(base, hunks, b);
    ChainIsOrdered(hunks, b);
  }

  lemma {:induction false} ChainShort<T>(base: seq<T>, changed: seq<T>, other: seq<Pair>, k: nat)
    requires AnchorChain(base, changed, other) && k < |other|
    ensures k <= other[k].base
  {
    if k > 0 { ChainShort(base, changed, other, k - 1); }
  }

  /** The hunks between successive anchors. */
  method HunksBetween<T(==)>(base: seq<T>, changed: seq<T>, anchors: seq<Pair>) returns (hunks: seq<Hunk<T>>)
    requires AnchorChain(base, changed, anchors)
    ensures Chain(hunks, |base|) && Patch(base, hunks, |base|) == changed && Separated(hunks)
    ensures Touched(hunks) + |anchors| == |base| && KeptOnce(base, changed, hunks, |base|)
  {
    hide Chain, Patch, Separated, Once, Touched, Shift, KeptOnce;
    hunks := [];
    var baseCursor: nat, changedCursor: nat := 0, 0;
    CoveredNothing(base, changed);
    for k := 0 to |anchors|
      invariant Covered(base, changed, hunks, baseCursor, changedCursor)
      invariant forall i :: k <= i < |anchors| ==> baseCursor <= anchors[i].base && changedCursor <= anchors[i].changed
      invariant Touched(hunks) + k == baseCursor && KeptOnce(base, changed, hunks, baseCursor)
    {
      var a := anchors[k];
      assert Match(base, changed, a);
      CoveredEnds(base, changed, hunks, baseCursor, changedCursor);
      GapKept(base, changed, hunks, baseCursor, changedCursor, a.base, a.changed);
      if baseCursor < a.base || changedCursor < a.changed {
        CoverGap(base, changed, hunks, baseCursor, changedCursor, a.base, a.changed);
        hunks := hunks + [Hunk(baseCursor, a.base, changed[changedCursor..a.changed])];
      }
      CoverLength(base, changed, hunks, a.base, a.changed);
      KeptAnchor(base, changed, hunks, a);
      CoverKept(base, changed, hunks, a.base, a.changed);
      baseCursor := a.base + 1;
      changedCursor := a.changed + 1;
    }
    CoveredEnds(base, changed, hunks, baseCursor, changedCursor);
    GapKept(base, changed, hunks, baseCursor, changedCursor, |base|, |changed|);
    if baseCursor < |base| || changedCursor < |changed| {
      CoverGap(base, changed, hunks, baseCursor, changedCursor, |base|, |changed|);
      hunks := hunks + [Hunk(baseCursor, |base|, changed[changedCursor..])];
    }
    assert changed[..|changed|] == changed;
  }

  lemma CoveredEnds<T>(base: seq<T>, changed: seq<T>, hunks: seq<Hunk<T>>, b: nat, c: nat)
    requires Covered(base, changed, hunks, b, c)
    ensures b <= |base| && c <= |changed| && Chain(hunks, b) && Patch(base, hunks, b) == changed[..c]
    ensures forall k :: 0 <= k < |hunks| ==> hunks[k].start <= b && hunks[k].end <= b
  {
    ChainIsOrdered(hunks, b);
  }

  /** What a gap does to the count and to what is kept. */
  lemma GapKept<T>(base: seq<T>, changed: seq<T>, hunks: seq<Hunk<T>>, b: nat, c: nat, b': nat, c': nat)
    requires KeptOnce(base, changed, hunks, b)
    requires forall k :: 0 <= k < |hunks| ==> hunks[k].start <= b && hunks[k].end <= b
    requires b <= b' <= |base| && c <= c' <= |changed|
    ensures var more := hunks + [Hunk(b, b', changed[c..c'])];
            KeptOnce(base, changed, more, b') && Touched(more) == Touched(hunks) + b' - b
  {
    hide KeptOnce;
    var n := Hunk(b, b', changed[c..c']);
    KeptBefore(base, changed, hunks, b, n);
    TouchedMore(hunks, n);
  }

  lemma CoveredNothing<T>(base: seq<T>, changed: seq<T>)
    ensures Covered(base, changed, [], 0, 0) && Touched<T>([]) == 0 && KeptOnce(base, changed, [], 0)
  {
  }

  /** The diff: patching the base with its hunks yields the changed content. */
  method DiffBlocks<T(==)>(base: seq<T>, changed: seq<T>) returns (hunks: seq<Hunk<T>>)
    ensures Chain(hunks, |base|) && Patch(base, hunks, |base|) == changed && Separated(hunks)
    ensures KeepsMost(base, changed, hunks)
    ensures base == changed ==> hunks == []
  {
    hide Match;
    if base == changed {
      assert base[..|base|] == base;
      forall other | AnchorChain(base, changed, other) ensures |other| <= |base| {
        if |other| > 0 { AnchorInside(base, changed, other); }
      }
      return [];
    }
    var anchors := Anchors(base, changed);
    hunks := HunksBetween(base, changed, anchors);
  }

  lemma AnchorInside<T>(base: seq<T>, changed: seq<T>, other: seq<Pair>)
    requires AnchorChain(base, changed, other) && |other| > 0
    ensures |other| <= |base|
  {
    ChainShort(base, changed, other, |other| - 1);
  }

  // -------------------------------------------------------------- order and overlap

  /** In order and disjoint, by position. */
  ghost predicate Ordered<T>(hunks: seq<Hunk<T>>, lo: nat, hi: nat) {
    && (forall i :: 0 <= i < |hunks| ==> lo <= hunks[i].start <= hunks[i].end <= hi)
    && (forall i, j :: 0 <= i < j < |hunks| ==> hunks[i].end <= hunks[j].start)
  }

  lemma {:induction false} ChainIsOrdered<T>(hunks: seq<Hunk<T>>, x: nat)
    requires Chain(hunks, x)
    ensures Ordered(hunks, 0, x)
  {
    if |hunks| > 0 {
      ChainIsOrdered(hunks[..|hunks| - 1], hunks[|hunks| - 1].start);
    }
  }

  lemma {:induction false} OrderedIsChain<T>(hunks: seq<Hunk<T>>, lo: nat, x: nat)
    requires Ordered(hunks, lo, x)
    ensures Chain(hunks, x)
  {
    if |hunks| > 0 {
      OrderedIsChain(hunks[..|hunks| - 1], lo, hunks[|hunks| - 1].start);
    }
  }

  lemma {:induction false} OrderedAround<T>(pre: seq<Hunk<T>>, c: Hunk<T>, post: seq<Hunk<T>>, x: nat)
    requires Chain(pre, c.start) && c.start <= c.end <= x && Ordered(post, c.end, x)
    ensures Between(pre, c, post, x)
    decreases |post|
  {
    if |post| > 0 {
      OrderedAround(pre, c, post[..|post| - 1], post[|post| - 1].start);
    }
  }

  lemma {:induction false} ChainConcat<T>(a: seq<Hunk<T>>, b: seq<Hunk<T>>, s: nat, x: nat)
    requires Chain(a, s) && Ordered(b, s, x) && s <= x
    ensures Chain(a + b, x)
    decreases |b|
  {
    if |b| == 0 {
      assert a + b == a;
      ChainGrows(a, s, x);
    } else {
      FrontOf(a, b);
      ChainConcat(a, b[..|b| - 1], s, b[|b| - 1].start);
    }
  }

  lemma {:induction false} ShiftConcat<T>(a: seq<Hunk<T>>, b: seq<Hunk<T>>)
    ensures Shift(a + b) == Shift(a) + Shift(b)
  {
    if |b| == 0 {
      assert a + b == a;
    } else {
      FrontOf(a, b);
      ShiftConcat(a, b[..|b| - 1]);
    }
  }

  /** Two hunks conflict when their regions meet; an insertion also meets the edges
      of a replaced region. */
  predicate Overlaps<T>(left: Hunk<T>, right: Hunk<T>) {
    if left.start == left.end && right.start == right.end then left.start == right.start
    else if left.start == left.end then right.start <= left.start <= right.end
    else if right.start == right.end then left.start <= right.start <= left.end
    else left.start < right.end && right.start < left.end
  }

  /** Hunks that do not conflict lie entirely on one side of each other. */
  lemma ApartHunks<T>(c: Hunk<T>, m: Hunk<T>)
    requires c.start <= c.end && m.start <= m.end
    ensures !Overlaps(c, m) ==> m.end <= c.start || c.end <= m.start
    ensures Overlaps(c, m) <==> Overlaps(m, c)
  {
  }

  /** Two hunks do not conflict exactly when one ends before the other starts, with a
      base block between them if either of them only adds. */
  lemma OverlapsExactly<T>(c: Hunk<T>, m: Hunk<T>)
    requires c.start <= c.end && m.start <= m.end
    ensures !Overlaps(c, m) <==>
            if c.start == c.end || m.start == m.end then c.end < m.start || m.end < c.start
            else c.end <= m.start || m.end <= c.start
  {
  }

  function Overlapping<T>(c: Hunk<T>, mains: seq<Hunk<T>>): (r: seq<Hunk<T>>)
    ensures r == [] <==> forall i :: 0 <= i < |mains| ==> !Overlaps(c, mains[i])
  {
    if |mains| == 0 then []
    else
      var n := |mains| - 1;
      Overlapping(c, mains[..n]) + (if Overlaps(c, mains[n]) then [mains[n]] else [])
  }

  /** How many main hunks stand before the change: those ending by its start. */
  method Preceding<T>(mains: seq<Hunk<T>>, at: nat) returns (shift: int, ghost q: nat)
    requires exists x :: Ordered(mains, 0, x)
    ensures q <= |mains| && shift == Shift(mains[..q])
    ensures forall i :: 0 <= i < q ==> mains[i].end <= at
    ensures forall i :: q <= i < |mains| ==> at < mains[i].end
  {
    shift, q := 0, 0;
    ghost var x :| Ordered(mains, 0, x);
    for i := 0 to |mains|
      invariant q <= i && shift == Shift(mains[..q])
      invariant forall j :: 0 <= j < q ==> mains[j].end <= at
      invariant forall j :: q <= j < i ==> at < mains[j].end
    {
      if mains[i].end <= at {
        PrefixFirst(mains, x, q, i, at);
        assert mains[..i + 1][..i] == mains[..i];
        shift := shift + |mains[i].replacement| - (mains[i].end - mains[i].start);
        q := i + 1;
      }
    }
  }

  /** Once a hunk ends beyond a position, no later one ends by it. */
  lemma PrefixFirst<T>(mains: seq<Hunk<T>>, x: nat, q: nat, i: nat, at: nat)
    requires Ordered(mains, 0, x) && q <= i < |mains| && mains[i].end <= at
    requires forall j :: q <= j < i ==> at < mains[j].end
    ensures q == i
  {
    if q < i {
      EndsGrow(mains, x, q, i);
    }
  }

  lemma EndsGrow<T>(mains: seq<Hunk<T>>, x: nat, j: nat, i: nat)
    requires Ordered(mains, 0, x) && j < i < |mains|
    ensures mains[j].end <= mains[i].end
  {
  }

  // ------------------------------------------------------------------- the plan

  datatype Change<T> = Change(hunk: Hunk<T>, baseBlocks: seq<T>, currentBlocks: seq<T>, conflict: bool,
                              alreadyApplied: bool)

  /** JavaScript's slice: out-of-range bounds are clamped. */
  function Slice<T>(s: seq<T>, from: int, to: int): seq<T> {
    var lo := if from < 0 then 0 else if from > |s| then |s| else from;
    var hi := if to < lo then lo else if to > |s| then |s| else to;
    s[lo..hi]
  }

  function Replacements<T>(hunks: seq<Hunk<T>>): seq<T> {
    if |hunks| == 0 then [] else Replacements(hunks[..|hunks| - 1]) + hunks[|hunks| - 1].replacement
  }

  /** What a change of the plan says about its draft hunk. */
  ghost predicate Planned<T>(base: seq<T>, mains: seq<Hunk<T>>, h: Hunk<T>, c: Change<T>) {
    && c.hunk == h && h.start <= h.end <= |base| && c.baseBlocks == base[h.start..h.end]
    && var over := Overlapping(h, mains);
    && c.alreadyApplied == (|over| == 1 && over[0] == h)
    && c.conflict == (|over| > 0 && !c.alreadyApplied)
    && (over == [] ==> c.currentBlocks == c.baseBlocks)
    && (over != [] ==> c.currentBlocks == Replacements(over))
  }

  predicate Distinct<T(==)>(s: seq<T>) {
    forall i, j :: 0 <= i < j < |s| ==> s[i] != s[j]
  }

  lemma {:induction false} OverlappingIs<T>(c: Hunk<T>, mains: seq<Hunk<T>>)
    ensures forall h :: h in Overlapping(c, mains) <==> h in mains && Overlaps(c, h)
    ensures var over := Overlapping(c, mains);
            forall k :: 0 <= k < |over| ==> over[k] in mains && Overlaps(c, over[k])
    ensures Distinct(mains) ==> Distinct(Overlapping(c, mains))
  {
    hide Overlaps;
    if |mains| > 0 {
      var n := |mains| - 1;
      OverlappingIs(c, mains[..n]);
      assert mains == mains[..n] + [mains[n]];
    }
  }

  lemma SeparateHunks<T>(hunks: seq<Hunk<T>>, x: nat)
    requires Chain(hunks, x) && Separated(hunks)
    ensures Distinct(hunks)
  {
    ChainIsOrdered(hunks, x);
    forall i, j | 0 <= i < j < |hunks| ensures hunks[i] != hunks[j] {
      assert hunks[i].end <= hunks[j - 1].end < hunks[j].start || i == j - 1;
    }
  }

  /** A change is there already if and only if its hunk is one of the main hunks and the
      only one it meets; it conflicts if and only if it meets another. */
  lemma PlanMeans<T>(base: seq<T>, mains: seq<Hunk<T>>, h: Hunk<T>, c: Change<T>)
    requires Chain(mains, |base|) && Separated(mains) && Planned(base, mains, h, c)
    ensures c.alreadyApplied <==> (exists m :: m in mains && Overlaps(h, m) && m == h)
                                  && forall m :: m in mains && Overlaps(h, m) ==> m == h
    ensures c.conflict <==> exists m :: m in mains && Overlaps(h, m) && m != h
  {
    hide Chain, Separated, Overlaps;
    SeparateHunks(mains, |base|);
    OverlappingIs(h, mains);
    var over := Overlapping(h, mains);
    hide Overlapping;
    if |over| == 0 {
      assert !c.alreadyApplied && !c.conflict;
    } else if |over| == 1 {
      var m := over[0];
      assert m in mains && Overlaps(h, m);
      assert forall o :: o in over ==> o == m;
    } else {
      var k := if over[0] == h then 1 else 0;
      var m := over[k];
      assert over[0] != over[1] && m != h;
      assert m in mains && Overlaps(h, m);
    }
  }

  /** A main hunk list splits around a hunk that conflicts with none of it. */
  lemma SplitAround<T>(mains: seq<Hunk<T>>, c: Hunk<T>, q: nat, x: nat)
    requires Ordered(mains, 0, x) && c.start <= c.end <= x && q <= |mains|
    requires forall i :: 0 <= i < |mains| ==> !Overlaps(c, mains[i])
    requires forall i :: 0 <= i < q ==> mains[i].end <= c.start
    requires forall i :: q <= i < |mains| ==> c.start < mains[i].end
    ensures Chain(mains[..q], c.start) && Ordered(mains[q..], c.end, x)
    ensures Between(mains[..q], c, mains[q..], x)
  {
    hide Overlaps, Chain, Between;
    forall i | q <= i < |mains| ensures c.end <= mains[i].start {
      ApartHunks(c, mains[i]);
    }
    OrderedBefore(mains, c, q, x);
    OrderedAfter(mains, c, q, x);
    OrderedIsChain(mains[..q], 0, c.start);
    OrderedAround(mains[..q], c, mains[q..], x);
  }

  lemma OrderedBefore<T>(mains: seq<Hunk<T>>, c: Hunk<T>, q: nat, x: nat)
    requires Ordered(mains, 0, x) && q <= |mains| && forall i :: 0 <= i < q ==> mains[i].end <= c.start
    ensures Ordered(mains[..q], 0, c.start)
  {
  }

  lemma OrderedAfter<T>(mains: seq<Hunk<T>>, c: Hunk<T>, q: nat, x: nat)
    requires Ordered(mains, 0, x) && q <= |mains| && forall i :: q <= i < |mains| ==> c.end <= mains[i].start
    ensures Ordered(mains[q..], c.end, x)
  {
  }

  /** An unaffected region of the current content is the base region. */
  lemma RegionKept<T>(base: seq<T>, mains: seq<Hunk<T>>, current: seq<T>, c: Hunk<T>, q: nat)
    requires Chain(mains, |base|) && current == Patch(base, mains, |base|) && Ordered(mains, 0, |base|)
    requires c.start <= c.end <= |base| && q <= |mains|
    requires forall i :: 0 <= i < |mains| ==> !Overlaps(c, mains[i])
    requires forall i :: 0 <= i < q ==> mains[i].end <= c.start
    requires forall i :: q <= i < |mains| ==> c.start < mains[i].end
    ensures var p := c.start + Shift(mains[..q]);
            Slice(current, p, p + (c.end - c.start)) == base[c.start..c.end]
  {
    hide *;
    SplitAround(mains, c, q, |base|);
    RegionAt(base, mains, current, c, q);
  }

  lemma RegionAt<T>(base: seq<T>, mains: seq<Hunk<T>>, current: seq<T>, c: Hunk<T>, q: nat)
    requires Chain(mains, |base|) && current == Patch(base, mains, |base|) && c.start <= c.end <= |base| && q <= |mains|
    requires Between(mains[..q], c, mains[q..], |base|)
    ensures var p := c.start + Shift(mains[..q]);
            Slice(current, p, p + (c.end - c.start)) == base[c.start..c.end]
  {
    hide *;
    SplitJoin(mains, q);
    RegionOf(base, mains[..q], c, mains[q..], current);
  }

  lemma SplitJoin<T>(s: seq<T>, q: nat)
    requires q <= |s|
    ensures s[..q] + s[q..] == s
  {
  }

  lemma RegionOf<T>(base: seq<T>, pre: seq<Hunk<T>>, c: Hunk<T>, post: seq<Hunk<T>>, current: seq<T>)
    requires Between(pre, c, post, |base|) && c.start <= c.end <= |base|
    requires Chain(pre + post, |base|) && current == Patch(base, pre + post, |base|)
    ensures var p := c.start + Shift(pre);
            Slice(current, p, p + (c.end - c.start)) == base[c.start..c.end]
  {
    hide Between, Patch, Shift, Chain;
    SpliceHunk(base, pre, c, post, |base|);
  }

  /** The merge plan of a draft against the current content. */
  method PlanDraftMerge<T(==)>(base: seq<T>, draft: seq<T>, current: seq<T>)
    returns (changes: seq<Change<T>>, draftHunks: seq<Hunk<T>>, mains: seq<Hunk<T>>)
    ensures Chain(draftHunks, |base|) && Patch(base, draftHunks, |base|) == draft && Separated(draftHunks)
    ensures Chain(mains, |base|) && Patch(base, mains, |base|) == current && Separated(mains)
    ensures KeepsMost(base, draft, draftHunks) && KeepsMost(base, current, mains)
    ensures |changes| == |draftHunks|
    ensures forall k :: 0 <= k < |changes| ==> Planned(base, mains, draftHunks[k], changes[k])
  {
    hide KeepsMost, Chain, Patch, Separated, Planned;
    draftHunks := DiffBlocks(base, draft);
    mains := DiffBlocks(base, current);
    ChainIsOrdered(draftHunks, |base|);
    ChainIsOrdered(mains, |base|);
    changes := [];
    for k := 0 to |draftHunks|
      invariant |changes| == k
      invariant forall i :: 0 <= i < k ==> Planned(base, mains, draftHunks[i], changes[i])
    {
      var c := PlanOne(base, mains, current, draftHunks[k]);
      changes := changes + [c];
    }
  }

  method PlanOne<T(==)>(base: seq<T>, mains: seq<Hunk<T>>, current: seq<T>, h: Hunk<T>) returns (c: Change<T>)
    requires Chain(mains, |base|) && Patch(base, mains, |base|) == current && Ordered(mains, 0, |base|)
    requires h.start <= h.end <= |base|
    ensures Planned(base, mains, h, c)
  {
    var over := Overlapping(h, mains);
    var alreadyApplied := |over| == 1 && over[0] == h;
    var shift, q := Preceding(mains, h.start);
    var at := h.start + shift;
    if over == [] {
      RegionKept(base, mains, current, h, q);
    }
    var currentBlocks := if |over| > 0 then Replacements(over) else Slice(current, at, at + (h.end - h.start));
    c := Change(h, base[h.start..h.end], currentBlocks, |over| > 0 && !alreadyApplied, alreadyApplied);
  }

  // ------------------------------------------------------------------- the merge

  /** Choosing positions: in range, none twice, none conflicting or present. */
  ghost predicate Selectable<T>(changes: seq<Change<T>>, ids: seq<nat>) {
    && (forall i, j :: 0 <= i < j < |ids| ==> ids[i] != ids[j])
    && (forall i :: 0 <= i < |ids| ==>
          ids[i] < |changes| && !changes[ids[i]].conflict && !changes[ids[i]].alreadyApplied)
  }

  /** The merge in progress: `done` has all selected hunks so far and the main hunks
      up to `q`; the rest of the main hunks lie beyond. */
  ghost predicate Merging<T>(base: seq<T>, mains: seq<Hunk<T>>, picked: seq<Hunk<T>>, done: seq<Hunk<T>>, q: nat,
                             s: nat, blocks: seq<T>) {
    && q <= |mains| && s <= |base|
    && Chain(done, s) && Ordered(mains[q..], s, |base|)
    && Chain(done + mains[q..], |base|) && blocks == Patch(base, done + mains[q..], |base|)
    && Shift(done) == Shift(mains[..q]) + Shift(picked)
    && multiset(done) == multiset(mains[..q]) + multiset(picked)
  }

  lemma MergingStarts<T>(base: seq<T>, mains: seq<Hunk<T>>, current: seq<T>)
    requires Chain(mains, |base|) && current == Patch(base, mains, |base|)
    ensures Merging(base, mains, [], [], 0, 0, current)
  {
    ChainIsOrdered(mains, |base|);
    assert mains[0..] == mains && [] + mains == mains;
  }

  /** One more selected hunk: the splice position is the main shift plus the shift
      of what was selected before, and the region replaced is the base region. */
  lemma MergingStep<T>(base: seq<T>, mains: seq<Hunk<T>>, picked: seq<Hunk<T>>, done: seq<Hunk<T>>,
                       q: nat, s: nat, blocks: seq<T>, c: Hunk<T>, q': nat)
    requires Merging(base, mains, picked, done, q, s, blocks)
    requires s <= c.start <= c.end <= |base| && q <= q' <= |mains|
    requires Ordered(mains, 0, |base|)
    requires forall i :: 0 <= i < |mains| ==> !Overlaps(c, mains[i])
    requires forall i :: 0 <= i < q' ==> mains[i].end <= c.start
    requires forall i :: q' <= i < |mains| ==> c.start < mains[i].end
    ensures var p, n := c.start + Shift(mains[..q']) + Shift(picked), c.end - c.start;
            && 0 <= p && p + n <= |blocks| && blocks[p..p + n] == base[c.start..c.end]
            && Merging(base, mains, picked + [c], done + mains[q..q'] + [c], q', c.end,
                       Spliced(blocks, p, n, c.replacement))
  {
    hide Overlaps, Chain, Patch, Shift, Between, Spliced;
    var mid, post := mains[q..q'], mains[q'..];
    MainsSplit(mains, q, q');
    SplitAround(mains, c, q', |base|);
    OrderedMid(mains, c, q, s, q', |base|);
    JoinSplit(done, mid, post, mains[q..]);
    MergingSplice(base, done, mid, post, c, s, blocks);
    MergingCounts(mains[..q], mid, done, picked, c);
  }

  /** Shifts and contents add up. */
  lemma MergingCounts<T>(before: seq<Hunk<T>>, mid: seq<Hunk<T>>, done: seq<Hunk<T>>, picked: seq<Hunk<T>>, c: Hunk<T>)
    requires Shift(done) == Shift(before) + Shift(picked)
    requires multiset(done) == multiset(before) + multiset(picked)
    ensures Shift(done + mid) == Shift(before + mid) + Shift(picked)
    ensures Shift(done + mid + [c]) == Shift(before + mid) + Shift(picked + [c])
    ensures multiset(done + mid + [c]) == multiset(before + mid) + multiset(picked + [c])
  {
    hide Shift;
    ShiftConcat(done, mid);
    ShiftConcat(before, mid);
    ShiftOne(done + mid, c);
    ShiftOne(picked, c);
  }

  lemma OrderedMid<T>(mains: seq<Hunk<T>>, c: Hunk<T>, q: nat, s: nat, q': nat, x: nat)
    requires q <= q' <= |mains| && Ordered(mains[q..], s, x) && forall i :: 0 <= i < q' ==> mains[i].end <= c.start
    ensures Ordered(mains[q..q'], s, c.start)
  {
    assert forall i :: 0 <= i < q' - q ==> mains[q..q'][i] == mains[q..][i];
  }

  lemma MergingSplice<T>(base: seq<T>, done: seq<Hunk<T>>, mid: seq<Hunk<T>>, post: seq<Hunk<T>>, c: Hunk<T>, s: nat,
                         blocks: seq<T>)
    requires s <= c.start <= c.end <= |base| && Chain(done, s) && Ordered(mid, s, c.start)
             && Ordered(post, c.end, |base|)
    requires Chain(done + mid + post, |base|) && blocks == Patch(base, done + mid + post, |base|)
    ensures Chain(done + mid + [c], c.end) && Chain(done + mid + [c] + post, |base|)
    ensures var p, n := c.start + Shift(done + mid), c.end - c.start;
            && 0 <= p && p + n <= |blocks| && blocks[p..p + n] == base[c.start..c.end]
            && Patch(base, done + mid + [c] + post, |base|) == Spliced(blocks, p, n, c.replacement)
  {
    hide Patch, Shift;
    ChainConcat(done, mid, s, c.start);
    OrderedAround(done + mid, c, post, |base|);
    SpliceHunk(base, done + mid, c, post, |base|);
    ChainOne(done + mid, c);
  }

  lemma JoinSplit<T>(a: seq<T>, b: seq<T>, c: seq<T>, bc: seq<T>)
    requires bc == b + c
    ensures a + bc == a + b + c
  {
  }

  lemma MainsSplit<T>(mains: seq<T>, q: nat, q': nat)
    requires q <= q' <= |mains|
    ensures mains[..q'] == mains[..q] + mains[q..q'] && mains[q..] == mains[q..q'] + mains[q'..]
  {
  }

  lemma ShiftOne<T>(hunks: seq<Hunk<T>>, c: Hunk<T>)
    ensures Shift(hunks + [c]) == Shift(hunks) + |c.replacement| - (c.end as int - c.start as int)
  {
    assert (hunks + [c])[..|hunks|] == hunks;
  }

  lemma ChainOne<T>(hunks: seq<Hunk<T>>, c: Hunk<T>)
    requires Chain(hunks, c.start) && c.start <= c.end
    ensures Chain(hunks + [c], c.end)
  {
    assert (hunks + [c])[..|hunks|] == hunks;
  }

  ghost predicate InRange<T>(changes: seq<Change<T>>, ids: seq<nat>) {
    forall i :: 0 <= i < |ids| ==> ids[i] < |changes|
  }

  /** The library sort by start position. */
  function SortedInsert<T>(changes: seq<Change<T>>, sorted: seq<nat>, id: nat): (r: seq<nat>)
    requires id < |changes| && InRange(changes, sorted)
    ensures InRange(changes, r) && |r| == |sorted| + 1
  {
    if |sorted| == 0 then [id]
    else
      var n := |sorted| - 1;
      if changes[sorted[n]].hunk.start <= changes[id].hunk.start then sorted + [id]
      else SortedInsert(changes, sorted[..n], id) + [sorted[n]]
  }

  lemma {:induction false} SortedInsertOk<T>(changes: seq<Change<T>>, sorted: seq<nat>, id: nat)
    requires id < |changes| && InRange(changes, sorted) && ByStart(changes, sorted)
    ensures multiset(SortedInsert(changes, sorted, id)) == multiset(sorted) + multiset{id}
    ensures ByStart(changes, SortedInsert(changes, sorted, id))
  {
    if |sorted| > 0 {
      var n := |sorted| - 1;
      FrontLast(sorted);
      if changes[sorted[n]].hunk.start > changes[id].hunk.start {
        SortedInsertOk(changes, sorted[..n], id);
        InsertedBelow(changes, sorted, id, SortedInsert(changes, sorted[..n], id));
      }
    }
  }

  lemma FrontLast<T>(s: seq<T>)
    requires |s| > 0
    ensures s == s[..|s| - 1] + [s[|s| - 1]]
    ensures multiset(s) == multiset(s[..|s| - 1]) + multiset{s[|s| - 1]}
  {
    assert s == s[..|s| - 1] + [s[|s| - 1]];
  }

  ghost predicate ByStart<T>(changes: seq<Change<T>>, ids: seq<nat>)
    requires InRange(changes, ids)
  {
    forall i, j :: 0 <= i < j < |ids| ==> changes[ids[i]].hunk.start <= changes[ids[j]].hunk.start
  }

  lemma InsertedBelow<T>(changes: seq<Change<T>>, sorted: seq<nat>, id: nat, r: seq<nat>)
    requires |sorted| > 0 && id < |changes| && InRange(changes, sorted) && InRange(changes, r)
    requires multiset(r) == multiset(sorted[..|sorted| - 1]) + multiset{id}
    requires changes[id].hunk.start <= changes[sorted[|sorted| - 1]].hunk.start
    requires ByStart(changes, sorted) && ByStart(changes, r)
    ensures ByStart(changes, r + [sorted[|sorted| - 1]])
  {
    var n := |sorted| - 1;
    forall i | 0 <= i < |r| ensures changes[r[i]].hunk.start <= changes[sorted[n]].hunk.start {
      assert r[i] in multiset(r);
      if r[i] != id {
        assert r[i] in sorted[..n];
        var k :| 0 <= k < n && sorted[k] == r[i];
      }
    }
  }

  function SortByStart<T>(changes: seq<Change<T>>, ids: seq<nat>): (r: seq<nat>)
    requires InRange(changes, ids)
    ensures InRange(changes, r) && |r| == |ids|
  {
    if |ids| == 0 then [] else SortedInsert(changes, SortByStart(changes, ids[..|ids| - 1]), ids[|ids| - 1])
  }

  lemma {:induction false} SortByStartOk<T>(changes: seq<Change<T>>, ids: seq<nat>)
    requires InRange(changes, ids)
    ensures multiset(SortByStart(changes, ids)) == multiset(ids)
    ensures ByStart(changes, SortByStart(changes, ids))
  {
    if |ids| > 0 {
      var n := |ids| - 1;
      FrontLast(ids);
      SortByStartOk(changes, ids[..n]);
      SortedInsertOk(changes, SortByStart(changes, ids[..n]), ids[n]);
    }
  }

  /** Sorted distinct draft hunks follow each other without touching. */
  lemma SortedApart<T>(changes: seq<Change<T>>, hunks: seq<Hunk<T>>, ids: seq<nat>, r: seq<nat>, i: int, j: int)
    requires Separated(hunks) && |hunks| == |changes| && (forall k :: 0 <= k < |hunks| ==> changes[k].hunk == hunks[k])
    requires forall k :: 0 <= k < |hunks| ==> hunks[k].start <= hunks[k].end
    requires multiset(r) == multiset(ids) && Selectable(changes, ids)
    requires InRange(changes, r) && ByStart(changes, r) && 0 <= i < j < |r|
    ensures changes[r[i]].hunk.end < changes[r[j]].hunk.start
  {
    if r[i] == r[j] {
      TwiceCounts(r, i, j);
      OnceEach(ids, r[i]);
      assert false;
    } else if r[i] < r[j] {
      SeparatedFar(hunks, r[i], r[j]);
    } else {
      SeparatedFar(hunks, r[j], r[i]);
      assert false;
    }
  }

  lemma {:induction false} SeparatedFar<T>(hunks: seq<Hunk<T>>, a: int, b: int)
    requires Separated(hunks) && 0 <= a < b < |hunks|
    requires forall k :: 0 <= k < |hunks| ==> hunks[k].start <= hunks[k].end
    ensures hunks[a].end < hunks[b].start
  {
    if a + 1 < b {
      SeparatedFar(hunks, a, b - 1);
    }
  }

  lemma {:induction false} OnceEach<T>(s: seq<T>, x: T)
    requires forall i, j :: 0 <= i < j < |s| ==> s[i] != s[j]
    ensures multiset(s)[x] <= 1
  {
    if |s| > 0 {
      var n := |s| - 1;
      assert s == s[..n] + [s[n]];
      OnceEach(s[..n], x);
    }
  }

  function HunksOf<T>(changes: seq<Change<T>>, ids: seq<nat>): (r: seq<Hunk<T>>)
    requires InRange(changes, ids)
    ensures |r| == |ids|
  {
    if |ids| == 0 then [] else HunksOf(changes, ids[..|ids| - 1]) + [changes[ids[|ids| - 1]].hunk]
  }

  /** What a merge delivers: the base patched by a chain of hunks that is all main
      hunks and all selected draft hunks together. */
  ghost predicate MergedAs<T>(base: seq<T>, mains: seq<Hunk<T>>, picked: seq<Hunk<T>>, union: seq<Hunk<T>>,
                              blocks: seq<T>) {
    && Chain(union, |base|) && multiset(union) == multiset(mains) + multiset(picked)
    && blocks == Patch(base, union, |base|)
  }

  /** One splice: the region taken out equals the base blocks the hunk replaces. */
  ghost predicate SplicesAt<T>(base: seq<T>, c: Hunk<T>, p: int, before: seq<T>, after: seq<T>) {
    && c.start <= c.end <= |base| && 0 <= p && p + (c.end - c.start) <= |before|
    && before[p..p + (c.end - c.start)] == base[c.start..c.end]
    && after == Spliced(before, p, c.end - c.start, c.replacement)
  }

  /** The selected hunks spliced in one after the other, from the current content to the result. */
  ghost predicate SplicedInTurn<T>(base: seq<T>, changes: seq<Change<T>>, order: seq<nat>, places: seq<int>,
                                   trail: seq<seq<T>>)
    requires InRange(changes, order)
  {
    && |places| == |order| && |trail| == |order| + 1
    && forall k :: 0 <= k < |order| ==> SplicesAt(base, changes[order[k]].hunk, places[k], trail[k], trail[k + 1])
  }

  /** The merge: a selection with a repeated, missing, conflicting or present change
      is refused; otherwise the current content becomes the base patched by all
      main hunks and the selected draft hunks together. */
  method MergeSelected<T(==)>(base: seq<T>, draft: seq<T>, current: seq<T>, ids: seq<nat>)
    returns (r: Result<seq<T>>, order: seq<nat>, changes: seq<Change<T>>, ghost draftHunks: seq<Hunk<T>>,
             ghost mains: seq<Hunk<T>>, ghost union: seq<Hunk<T>>, ghost places: seq<int>, ghost trail: seq<seq<T>>)
    ensures Chain(draftHunks, |base|) && Patch(base, draftHunks, |base|) == draft && Separated(draftHunks)
    ensures Chain(mains, |base|) && Patch(base, mains, |base|) == current && Separated(mains)
    ensures KeepsMost(base, draft, draftHunks) && KeepsMost(base, current, mains)
    ensures |changes| == |draftHunks|
    ensures forall k :: 0 <= k < |changes| ==> Planned(base, mains, draftHunks[k], changes[k])
    ensures r.Ok? <==> Selectable(changes, ids)
    ensures r.Ok? <==>
            && (forall i, j :: 0 <= i < j < |ids| ==> ids[i] != ids[j])
            && (forall i :: 0 <= i < |ids| ==> ids[i] < |changes|)
            && (forall i :: 0 <= i < |ids| && ids[i] < |changes| ==>
                  !changes[ids[i]].conflict && !changes[ids[i]].alreadyApplied)
    ensures r.Ok? ==> multiset(order) == multiset(ids) && InRange(changes, order) && ByStart(changes, order)
    ensures r.Ok? ==> MergedAs(base, mains, HunksOf(changes, order), union, r.value)
    ensures r.Ok? ==>
              SplicedInTurn(base, changes, order, places, trail) && trail[0] == current && trail[|order|] == r.value
  {
    hide Chain, Patch, Separated, KeepsMost, ByStart, MergedAs, Planned, SplicesAt;
    var drafts, mainHunks;
    changes, drafts, mainHunks := PlanDraftMerge(base, draft, current);
    draftHunks, mains, union, order, places, trail := drafts, mainHunks, [], [], [], [current];
    PlannedHunks(base, mains, draftHunks, changes);
    var selectable := IsSelectable(changes, ids);
    if !selectable {
      r := Err(InvalidArgument);
      return;
    }
    order := SortByStart(changes, ids);
    SortByStartOk(changes, ids);
    var blocks;
    blocks, union, places, trail := ApplySelected(base, current, changes, draftHunks, mainHunks, ids, order);
    r := Ok(blocks);
  }

  lemma PlannedHunks<T>(base: seq<T>, mains: seq<Hunk<T>>, hunks: seq<Hunk<T>>, changes: seq<Change<T>>)
    requires |changes| == |hunks| && forall k :: 0 <= k < |changes| ==> Planned(base, mains, hunks[k], changes[k])
    ensures forall k :: 0 <= k < |changes| ==> changes[k].hunk == hunks[k] && hunks[k].start <= hunks[k].end
    ensures forall k :: 0 <= k < |changes| ==> Planned(base, mains, changes[k].hunk, changes[k])
  {
  }

  method IsSelectable<T>(changes: seq<Change<T>>, ids: seq<nat>) returns (ok: bool)
    ensures ok == Selectable(changes, ids)
  {
    var seen: set<nat> := {};
    for i := 0 to |ids|
      invariant seen == set k | 0 <= k < i :: ids[k]
      invariant Selectable(changes, ids[..i])
    {
      if ids[i] in seen || ids[i] >= |changes| || changes[ids[i]].conflict || changes[ids[i]].alreadyApplied {
        return false;
      }
      seen := seen + {ids[i]};
    }
    assert ids[..|ids|] == ids;
    ok := true;
  }

  lemma SelectedFree<T>(base: seq<T>, mains: seq<Hunk<T>>, c: Change<T>)
    requires Planned(base, mains, c.hunk, c) && !c.conflict && !c.alreadyApplied
    ensures forall i :: 0 <= i < |mains| ==> !Overlaps(c.hunk, mains[i])
    ensures c.hunk.start <= c.hunk.end <= |base|
  {
  }

  /** Splice the selected hunks, in order, into the current content. */
  method ApplySelected<T(==)>(base: seq<T>, current: seq<T>, changes: seq<Change<T>>, ghost draftHunks: seq<Hunk<T>>,
                              mains: seq<Hunk<T>>, ghost ids: seq<nat>, order: seq<nat>)
    returns (blocks: seq<T>, ghost union: seq<Hunk<T>>, ghost places: seq<int>, ghost trail: seq<seq<T>>)
    requires Chain(mains, |base|) && Patch(base, mains, |base|) == current
    requires Separated(draftHunks) && |changes| == |draftHunks|
    requires forall k :: 0 <= k < |changes| ==>
               changes[k].hunk == draftHunks[k] && draftHunks[k].start <= draftHunks[k].end
    requires forall k :: 0 <= k < |changes| ==> Planned(base, mains, changes[k].hunk, changes[k])
    requires Selectable(changes, ids) && multiset(order) == multiset(ids)
    requires InRange(changes, order) && ByStart(changes, order)
    ensures MergedAs(base, mains, HunksOf(changes, order), union, blocks)
    ensures SplicedInTurn(base, changes, order, places, trail) && trail[0] == current && trail[|order|] == blocks
  {
    hide Chain, Patch, Separated, ByStart, Overlaps, Shift, Merging, Planned, Selectable, Ordered, SplicesAt, Spliced;
    ghost var done: seq<Hunk<T>>, q: nat, s: nat := [], 0, 0;
    blocks, places, trail := current, [], [current];
    var selectedShift := 0;
    MergingStarts(base, mains, current);
    ChainIsOrdered(mains, |base|);
    ShiftNothing<T>();
    for k := 0 to |order|
      invariant q <= |mains| && Merging(base, mains, HunksOf(changes, order[..k]), done, q, s, blocks)
      invariant selectedShift == Shift(HunksOf(changes, order[..k]))
      invariant |places| == k && |trail| == k + 1 && trail[0] == current && trail[k] == blocks
      invariant forall i :: 0 <= i < k ==> SplicesAt(base, changes[order[i]].hunk, places[i], trail[i], trail[i + 1])
      invariant forall j :: k <= j < |order| ==> s <= changes[order[j]].hunk.start
    {
      var c := changes[order[k]].hunk;
      SelectedInOrder(changes, ids, order, k);
      SelectedFree(base, mains, changes[order[k]]);
      var precedingMain, q' := Preceding(mains, c.start);
      assert s <= c.start;
      QAdvances(base, mains, HunksOf(changes, order[..k]), done, q, s, blocks, c.start, q');
      MergingStep(base, mains, HunksOf(changes, order[..k]), done, q, s, blocks, c, q');
      ShiftOne(HunksOf(changes, order[..k]), c);
      HunksOfNext(changes, order, k);
      forall j | k < j < |order| ensures c.end <= changes[order[j]].hunk.start {
        SortedApart(changes, draftHunks, ids, order, k, j);
      }
      SpliceMade(base, c, c.start + precedingMain + selectedShift, blocks);
      blocks := Spliced(blocks, c.start + precedingMain + selectedShift, c.end - c.start, c.replacement);
      places, trail := places + [c.start + precedingMain + selectedShift], trail + [blocks];
      selectedShift := selectedShift + |c.replacement| - (c.end - c.start);
      done, q, s := done + mains[q..q'] + [c], q', c.end;
    }
    assert order[..|order|] == order;
    union := done + mains[q..];
    MergingEnds(base, mains, HunksOf(changes, order), done, q, s, blocks);
  }

  lemma SpliceMade<T>(base: seq<T>, c: Hunk<T>, p: int, before: seq<T>)
    requires c.start <= c.end <= |base| && 0 <= p && p + (c.end - c.start) <= |before|
    requires before[p..p + (c.end - c.start)] == base[c.start..c.end]
    ensures SplicesAt(base, c, p, before, Spliced(before, p, c.end - c.start, c.replacement))
  {
  }

  lemma MergingEnds<T>(base: seq<T>, mains: seq<Hunk<T>>, picked: seq<Hunk<T>>, done: seq<Hunk<T>>, q: nat, s: nat,
                       blocks: seq<T>)
    requires Merging(base, mains, picked, done, q, s, blocks)
    ensures MergedAs(base, mains, picked, done + mains[q..], blocks)
  {
    assert mains == mains[..q] + mains[q..];
  }

  lemma ShiftNothing<T>()
    ensures Shift<T>([]) == 0
  {
  }

  lemma SelectedInOrder<T>(changes: seq<Change<T>>, ids: seq<nat>, order: seq<nat>, k: int)
    requires Selectable(changes, ids) && multiset(order) == multiset(ids) && 0 <= k < |order|
    ensures order[k] < |changes| && !changes[order[k]].conflict && !changes[order[k]].alreadyApplied
  {
    assert order[k] in multiset(order);
    assert order[k] in ids;
  }

  /** Main hunks once passed stay passed. */
  lemma QAdvances<T>(base: seq<T>, mains: seq<Hunk<T>>, picked: seq<Hunk<T>>, done: seq<Hunk<T>>,
                     q: nat, s: nat, blocks: seq<T>, at: nat, q': nat)
    requires Merging(base, mains, picked, done, q, s, blocks) && s <= at && q' <= |mains|
    requires forall i :: q' <= i < |mains| ==> at < mains[i].end
    ensures q <= q'
  {
    if q' < q {
      DoneBefore(base, mains, picked, done, q, s, blocks, q');
    }
  }

  lemma DoneBefore<T>(base: seq<T>, mains: seq<Hunk<T>>, picked: seq<Hunk<T>>, done: seq<Hunk<T>>,
                      q: nat, s: nat, blocks: seq<T>, i: nat)
    requires Merging(base, mains, picked, done, q, s, blocks) && i < q
    ensures mains[i].end <= s
  {
    hide Patch;
    ChainIsOrdered(done, s);
    assert mains[..q][i] in multiset(mains[..q]);
    assert mains[i] in multiset(done);
    assert mains[i] in done;
  }

  lemma HunksOfNext<T>(changes: seq<Change<T>>, order: seq<nat>, k: int)
    requires 0 <= k < |order| && InRange(changes, order)
    ensures HunksOf(changes, order[..k + 1]) == HunksOf(changes, order[..k]) + [changes[order[k]].hunk]
  {
    assert order[..k + 1][..k] == order[..k];
  }
}
