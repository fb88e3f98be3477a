/** Patching a sequence by disjoint hunks, and the splice that adds one hunk. */
module Splice {

  /** Replace `base[start..end]` by `replacement`. */
  datatype Hunk<T> = Hunk(start: nat, end: nat, replacement: seq<T>)

  /** The hunks are in order, disjoint, and end by `x`. */
  ghost predicate Chain<T>(hunks: seq<Hunk<T>>, x: nat) {
    |hunks| == 0 ||
    (var h := hunks[|hunks| - 1]; h.start <= h.end <= x && Chain(hunks[..|hunks| - 1], h.start))
  }

  /** All hunks applied at once to the first `x` elements of the base. */
  function Patch<T>(base: seq<T>, hunks: seq<Hunk<T>>, x: nat): seq<T>
    requires Chain(hunks, x) && x <= |base|
  {
    if |hunks| == 0 then base[..x]
    else
      var h := hunks[|hunks| - 1];
      Patch(base, hunks[..|hunks| - 1], h.start) + h.replacement + base[h.end..x]
  }

  /** By how much hunks move what comes after them. */
  function Shift<T>(hunks: seq<Hunk<T>>): int {
    if |hunks| == 0 then 0
    else
      var h := hunks[|hunks| - 1];
      Shift(hunks[..|hunks| - 1]) + |h.replacement| - (h.end as int - h.start as int)
  }

  lemma {:induction false} PatchLength<T>(base: seq<T>, hunks: seq<Hunk<T>>, x: nat)
    requires Chain(hunks, x) && x <= |base|
    ensures |Patch(base, hunks, x)| == x + Shift(hunks)
  {
    if |hunks| > 0 {
      PatchLength(base, hunks[..|hunks| - 1], hunks[|hunks| - 1].start);
    }
  }

  /** Beyond the last hunk the base shows through. */
  lemma PatchExtends<T>(base: seq<T>, hunks: seq<Hunk<T>>, s: nat, x: nat)
    requires Chain(hunks, s) && s <= x <= |base|
    ensures Chain(hunks, x) && Patch(base, hunks, x) == Patch(base, hunks, s) + base[s..x]
  {
    if |hunks| > 0 {
      var h := hunks[|hunks| - 1];
      assert base[h.end..x] == base[h.end..s] + base[s..x];
    }
  }

  /** A sequence with one region replaced. */
  function Spliced<T>(s: seq<T>, at: int, count: int, replacement: seq<T>): seq<T>
    requires 0 <= at && 0 <= count && at + count <= |s|
  {
    s[..at] + replacement + s[at + count..]
  }

  /** `c` stands between `pre` and `post`. */
  ghost predicate Between<T>(pre: seq<Hunk<T>>, c: Hunk<T>, post: seq<Hunk<T>>, x: nat)
    decreases |post|
  {
    if |post| == 0 then Chain(pre, c.start) && c.start <= c.end <= x
    else
      var h := post[|post| - 1];
      h.start <= h.end <= x && Between(pre, c, post[..|post| - 1], h.start)
  }

  lemma {:induction false} BetweenChains<T>(pre: seq<Hunk<T>>, c: Hunk<T>, post: seq<Hunk<T>>, x: nat)
    requires Between(pre, c, post, x)
    ensures Chain(pre + post, x) && Chain(pre + [c] + post, x)
    decreases |post|
  {
    if |post| == 0 {
      assert pre + post == pre && pre + [c] + post == pre + [c];
      assert (pre + [c])[..|pre|] == pre;
      ChainGrows(pre, c.start, x);
    } else {
      var n := |post| - 1;
      BetweenChains(pre, c, post[..n], post[n].start);
      FrontOf(pre, post);
      FrontOf(pre + [c], post);
    }
  }

  lemma ChainGrows<T>(hunks: seq<Hunk<T>>, s: nat, x: nat)
    requires Chain(hunks, s) && s <= x
    ensures Chain(hunks, x)
  {
  }

  lemma FrontOf<T>(a: seq<T>, b: seq<T>)
    requires |b| > 0
    ensures (a + b)[..|a + b| - 1] == a + b[..|b| - 1] && (a + b)[|a + b| - 1] == b[|b| - 1]
  {
  }

  /** Adding a hunk between others is one splice at its shifted position, and the
      region spliced out is just the base region it claims to replace. */
  lemma {:induction false} SpliceHunk<T>(base: seq<T>, pre: seq<Hunk<T>>, c: Hunk<T>, post: seq<Hunk<T>>, x: nat)
    requires Between(pre, c, post, x) && x <= |base| && c.start <= c.end <= |base|
    ensures Chain(pre + post, x) && Chain(pre + [c] + post, x)
    ensures var y, p, n := Patch(base, pre + post, x), c.start + Shift(pre), c.end - c.start;
            && 0 <= p && p + n <= |y|
            && y[p..p + n] == base[c.start..c.end]
            && Patch(base, pre + [c] + post, x) == Spliced(y, p, n, c.replacement)
    decreases |post|
  {
    hide Chain, Patch, Shift;
    BetweenChains(pre, c, post, x);
    if |post| == 0 {
      SpliceLast(base, pre, c, x);
      assert pre + post == pre && pre + [c] + post == pre + [c];
    } else {
      var k := |post| - 1;
      SpliceHunk(base, pre, c, post[..k], post[k].start);
      var y, z := Patch(base, pre + post[..k], post[k].start), Patch(base, pre + [c] + post[..k], post[k].start);
      var tail := post[k].replacement + base[post[k].end..x];
      SplicedAppend(y, c.start + Shift(pre), c.end - c.start, c.replacement, tail);
      PatchAppend(base, pre, post, x);
      PatchAppend(base, pre + [c], post, x);
    }
  }

  lemma PatchAppend<T>(base: seq<T>, pre: seq<Hunk<T>>, post: seq<Hunk<T>>, x: nat)
    requires |post| > 0 && Chain(pre + post, x) && x <= |base|
    ensures var h := post[|post| - 1];
            && h.start <= h.end <= x && Chain(pre + post[..|post| - 1], h.start)
            && Patch(base, pre + post, x)
               == Patch(base, pre + post[..|post| - 1], h.start) + (h.replacement + base[h.end..x])
  {
    FrontOf(pre, post);
  }

  lemma SplicedAppend<T>(y: seq<T>, p: int, n: int, r: seq<T>, tail: seq<T>)
    requires 0 <= p && 0 <= n && p + n <= |y|
    ensures Spliced(y + tail, p, n, r) == Spliced(y, p, n, r) + tail
    ensures (y + tail)[p..p + n] == y[p..p + n]
  {
    assert (y + tail)[p + n..] == y[p + n..] + tail;
    assert (y + tail)[..p] == y[..p];
  }

  lemma PatchOneMore<T>(base: seq<T>, pre: seq<Hunk<T>>, c: Hunk<T>, x: nat)
    requires Chain(pre, c.start) && c.start <= c.end <= x <= |base|
    ensures Chain(pre + [c], x)
    ensures Patch(base, pre + [c], x) == Patch(base, pre, c.start) + c.replacement + base[c.end..x]
  {
    assert (pre + [c])[..|pre|] == pre;
  }

  lemma SpliceLast<T>(base: seq<T>, pre: seq<Hunk<T>>, c: Hunk<T>, x: nat)
    requires Chain(pre, c.start) && c.start <= c.end <= x <= |base|
    ensures Chain(pre, x) && Chain(pre + [c], x)
    ensures var y, p, n := Patch(base, pre, x), c.start + Shift(pre), c.end - c.start;
            && 0 <= p && p + n <= |y|
            && y[p..p + n] == base[c.start..c.end]
            && Patch(base, pre + [c], x) == Spliced(y, p, n, c.replacement)
  {
    PatchExtends(base, pre, c.start, x);
    PatchLength(base, pre, c.start);
    PatchOneMore(base, pre, c, x);
    hide Chain, Patch, Shift;
    var a := Patch(base, pre, c.start);
    assert base[c.start..x] == base[c.start..c.end] + base[c.end..x];
    SplicedMiddle(a, base[c.start..c.end], base[c.end..x], c.replacement);
  }

  lemma SplicedMiddle<T>(a: seq<T>, mid: seq<T>, tail: seq<T>, r: seq<T>)
    ensures Spliced(a + (mid + tail), |a|, |mid|, r) == a + r + tail
    ensures (a + (mid + tail))[|a|..|a| + |mid|] == mid
  {
    var y := a + (mid + tail);
    assert y[..|a|] == a;
    assert y[|a| + |mid|..] == tail;
  }
}
