/** Local drafts (src/lib/drafts.ts): block diff by unique anchors and the merge of
    selected draft hunks into the current content.  A block is an arbitrary value;
    two blocks are the same when their stable JSON texts are. */
module Drafts {

  /** Positions of one block in the base and in the changed content. */
  datatype Pair = Pair(base: nat, changed: nat)

  // ------------------------------------------------------------- unique blocks

  method SignatureCounts<T(==)>(blocks: seq<T>) returns (counts: map<T, nat>)
    ensures forall x :: x in counts <==> x in blocks
    ensures forall x :: x in counts ==> counts[x] == multiset(blocks)[x]
  {
    counts := map[];
    for k := 0 to |blocks|
      invariant forall x :: x in counts <==> x in blocks[..k]
      invariant forall x :: x in counts ==> counts[x] == multiset(blocks[..k])[x]
    {
      assert blocks[..k + 1] == blocks[..k] + [blocks[k]];
      counts := counts[blocks[k] := (if blocks[k] in counts then counts[blocks[k]] else 0) + 1];
    }
    assert blocks[..|blocks|] == blocks;
  }

  ghost predicate Once<T>(s: seq<T>, x: T) {
    multiset(s)[x] == 1
  }

  /** A block standing once in each content, at these positions. */
  ghost predicate Match<T>(base: seq<T>, changed: seq<T>, p: Pair) {
    p.base < |base| && p.changed < |changed| && base[p.base] == changed[p.changed]
    && Once(base, base[p.base]) && Once(changed, base[p.base])
  }

  lemma OncePosition<T>(s: seq<T>, i: int, j: int)
    requires 0 <= i < |s| && 0 <= j < |s| && s[i] == s[j] && Once(s, s[i])
    ensures i == j
  {
    if i < j {
      TwiceCounts(s, i, j);
    } else if j < i {
      TwiceCounts(s, j, i);
    }
  }

  lemma TwiceCounts<T>(s: seq<T>, i: int, j: int)
    requires 0 <= i < j < |s| && s[i] == s[j]
    ensures multiset(s)[s[i]] >= 2
  {
    assert s == s[..i] + [s[i]] + s[i + 1..j] + [s[j]] + s[j + 1..];
  }

  /** The candidate anchors: every block that stands once in both contents. */
  method Candidates<T(==)>(base: seq<T>, changed: seq<T>) returns (cands: seq<Pair>)
    ensures forall k :: 0 <= k < |cands| ==> Match(base, changed, cands[k])
    ensures forall i, j :: 0 <= i < j < |cands| ==> cands[i].base < cands[j].base
    ensures forall p :: Match(base, changed, p) ==> p in cands
  {
    var baseCounts := SignatureCounts(base);
    var changedCounts := SignatureCounts(changed);
    var changedIndexes := IndexOnce(changed, changedCounts);
    cands := [];
    for i := 0 to |base|
      invariant forall k :: 0 <= k < |cands| ==> Match(base, changed, cands[k]) && cands[k].base < i
      invariant forall a, b :: 0 <= a < b < |cands| ==> cands[a].base < cands[b].base
      invariant forall p :: Match(base, changed, p) && p.base < i ==> p in cands
    {
      if baseCounts[base[i]] == 1 && base[i] in changedIndexes {
        cands := cands + [Pair(i, changedIndexes[base[i]])];
      }
      forall p | Match(base, changed, p) && p.base == i ensures p in cands {
        MatchIndexed(base, changed, p, changedIndexes);
      }
    }
  }

  lemma MatchIndexed<T>(base: seq<T>, changed: seq<T>, p: Pair, index: map<T, nat>)
    requires Match(base, changed, p)
    requires forall x :: x in index ==> index[x] < |changed| && changed[index[x]] == x
    requires forall x :: Once(changed, x) ==> x in index
    ensures base[p.base] in index && index[base[p.base]] == p.changed
  {
    OncePosition(changed, p.changed, index[base[p.base]]);
  }

  method IndexOnce<T(==)>(blocks: seq<T>, counts: map<T, nat>) returns (index: map<T, nat>)
    requires forall x :: x in counts <==> x in blocks
    requires forall x :: x in counts ==> counts[x] == multiset(blocks)[x]
    ensures forall x :: x in index ==> index[x] < |blocks| && blocks[index[x]] == x && Once(blocks, x)
    ensures forall x :: Once(blocks, x) ==> x in index
  {
    index := map[];
    for k := 0 to |blocks|
      invariant forall x :: x in index ==> index[x] < |blocks| && blocks[index[x]] == x && Once(blocks, x)
      invariant forall x :: Once(blocks, x) && x in blocks[..k] ==> x in index
    {
      assert blocks[..k + 1] == blocks[..k] + [blocks[k]];
      if counts[blocks[k]] == 1 {
        index := index[blocks[k] := k];
      }
    }
    assert blocks[..|blocks|] == blocks;
    forall x | Once(blocks, x) ensures x in blocks {
      assert x in multiset(blocks);
    }
  }

  // --------------------------------------------- the longest increasing subsequence

  /** Increasing candidate indices with increasing changed positions. */
  ghost predicate Climbs(cands: seq<Pair>, q: seq<int>) {
    && (forall k :: 0 <= k < |q| ==> 0 <= q[k] < |cands|)
    && (forall i, j :: 0 <= i < j < |q| ==> q[i] < q[j] && cands[q[i]].changed < cands[q[j]].changed)
  }


  /** The tails are the last candidates of the climbs they stand for, and strictly
      increase. */
  ghost predicate TailsOk(cands: seq<Pair>, tails: seq<nat>, tc: seq<int>, rank: seq<nat>) {
    && |tc| == |tails| && |rank| <= |cands|
    && (forall k :: 0 <= k < |tails| ==> 0 <= tc[k] < |rank|)
    && (forall k :: 0 <= k < |tails| ==> tails[k] == cands[tc[k]].changed && rank[tc[k]] == k + 1)
    && (forall i, j :: 0 <= i < j < |tails| ==> tails[i] < tails[j])
  }

  /** Every candidate is bounded below by the tail of its rank. */
  ghost predicate RanksOk(cands: seq<Pair>, tails: seq<nat>, rank: seq<nat>)
    requires |rank| <= |cands|
  {
    forall j :: 0 <= j < |rank| ==> 1 <= rank[j] <= |tails| && tails[rank[j] - 1] <= cands[j].changed
  }

  /** Back pointers lead to an earlier, lower candidate one rank down. */
  ghost predicate PreviousOk(cands: seq<Pair>, previous: seq<int>, rank: seq<nat>)
    requires |rank| <= |cands|
  {
    && |previous| == |rank|
    && (forall j :: 0 <= j < |rank| && rank[j] == 1 ==> previous[j] == -1)
    && (forall j :: 0 <= j < |rank| && rank[j] > 1 ==>
          0 <= previous[j] < j && rank[previous[j]] == rank[j] - 1 && cands[previous[j]].changed < cands[j].changed)
  }

  /** Climbing a step raises the rank, so no climb is longer than the tails. */
  ghost predicate RankClimbs(cands: seq<Pair>, rank: seq<nat>)
    requires |rank| <= |cands|
  {
    forall a, b :: 0 <= a < b < |rank| && cands[a].changed < cands[b].changed ==> rank[a] < rank[b]
  }

  /** The first tail not below `v`. */
  method LowerBound(tails: seq<nat>, v: nat) returns (low: nat)
    requires forall i, j :: 0 <= i < j < |tails| ==> tails[i] < tails[j]
    ensures low <= |tails|
    ensures forall k :: 0 <= k < low ==> tails[k] < v
    ensures forall k :: low <= k < |tails| ==> v <= tails[k]
  {
    low := 0;
    var high := |tails|;
    while low < high
      invariant 0 <= low <= high <= |tails|
      invariant forall k :: 0 <= k < low ==> tails[k] < v
      invariant forall k :: high <= k < |tails| ==> v <= tails[k]
    {
      var mid := (low + high) / 2;
      if tails[mid] < v {
        low := mid + 1;
      } else {
        high := mid;
      }
    }
  }

  function Put<T>(s: seq<T>, k: nat, x: T): (r: seq<T>)
    requires k <= |s|
    ensures |r| == (if k == |s| then |s| + 1 else |s|) && r[k] == x
    ensures forall i :: 0 <= i < |s| && i != k ==> r[i] == s[i]
  {
    if k == |s| then s + [x] else s[k := x]
  }

  lemma StepTails(cands: seq<Pair>, tails: seq<nat>, tc: seq<int>, rank: seq<nat>, low: nat)
    requires TailsOk(cands, tails, tc, rank) && |rank| < |cands| && low <= |tails|
    requires forall k :: 0 <= k < low ==> tails[k] < cands[|rank|].changed
    requires forall k :: low <= k < |tails| ==> cands[|rank|].changed <= tails[k]
    ensures TailsOk(cands, Put(tails, low, cands[|rank|].changed), Put(tc, low, |rank|), rank + [low + 1])
  {
    hide Put;
  }

  lemma StepRanks(cands: seq<Pair>, tails: seq<nat>, rank: seq<nat>, low: nat)
    requires |rank| < |cands| && RanksOk(cands, tails, rank) && low <= |tails|
    requires forall k :: low <= k < |tails| ==> cands[|rank|].changed <= tails[k]
    ensures RanksOk(cands, Put(tails, low, cands[|rank|].changed), rank + [low + 1])
  {
    hide Put;
  }

  lemma StepPrevious(cands: seq<Pair>, tails: seq<nat>, tc: seq<int>, previous: seq<int>, rank: seq<nat>, low: nat)
    requires TailsOk(cands, tails, tc, rank) && |rank| < |cands| && PreviousOk(cands, previous, rank) && low <= |tails|
    requires forall k :: 0 <= k < low ==> tails[k] < cands[|rank|].changed
    ensures PreviousOk(cands, previous + [if low > 0 then tc[low - 1] else -1], rank + [low + 1])
  {
  }

  lemma StepClimbs(cands: seq<Pair>, tails: seq<nat>, rank: seq<nat>, low: nat)
    requires |rank| < |cands| && RanksOk(cands, tails, rank) && RankClimbs(cands, rank) && low <= |tails|
    requires forall k :: low <= k < |tails| ==> cands[|rank|].changed <= tails[k]
    ensures RankClimbs(cands, rank + [low + 1])
  {
    var n, r := |rank|, rank + [low + 1];
    forall a | 0 <= a < n && cands[a].changed < cands[n].changed ensures r[a] < r[n] {
      assert tails[rank[a] - 1] <= cands[a].changed;
    }
  }

  /** No climb is longer than the highest rank. */
  lemma {:induction false} ClimbBelowRank(cands: seq<Pair>, rank: seq<nat>, q: seq<int>, k: int)
    requires |rank| == |cands| && RankClimbs(cands, rank) && Climbs(cands, q) && 0 <= k < |q|
    requires forall j :: 0 <= j < |rank| ==> 1 <= rank[j]
    ensures rank[q[k]] >= k + 1
  {
    if k > 0 {
      ClimbBelowRank(cands, rank, q, k - 1);
    }
  }

  /** The patience search over all candidates. */
  method Patience(cands: seq<Pair>)
      returns (tails: seq<nat>, tailCandidates: seq<int>, previous: seq<int>, ghost rank: seq<nat>)
    ensures |rank| == |cands| && TailsOk(cands, tails, tailCandidates, rank)
    ensures RanksOk(cands, tails, rank) && PreviousOk(cands, previous, rank) && RankClimbs(cands, rank)
  {
    tails, tailCandidates, previous, rank := [], [], [], [];
    for n := 0 to |cands|
      invariant |rank| == n && TailsOk(cands, tails, tailCandidates, rank)
      invariant RanksOk(cands, tails, rank) && PreviousOk(cands, previous, rank) && RankClimbs(cands, rank)
    {
      var low := LowerBound(tails, cands[n].changed);
      StepTails(cands, tails, tailCandidates, rank, low);
      StepRanks(cands, tails, rank, low);
      StepPrevious(cands, tails, tailCandidates, previous, rank, low);
      StepClimbs(cands, tails, rank, low);
      previous := previous + [if low > 0 then tailCandidates[low - 1] else -1];
      tails := Put(tails, low, cands[n].changed);
      tailCandidates := Put(tailCandidates, low, n);
      rank := rank + [low + 1];
    }
  }

  ghost predicate Under(cands: seq<Pair>, cursor: int, q: seq<int>) {
    && 0 <= cursor < |cands|
    && (|q| > 0 ==> 0 <= q[0] < |cands| && cursor < q[0] && cands[cursor].changed < cands[q[0]].changed)
  }

  lemma ClimbPrepend(cands: seq<Pair>, cursor: int, q: seq<int>)
    requires Climbs(cands, q) && Under(cands, cursor, q)
    ensures Climbs(cands, [cursor] + q)
  {
    var r := [cursor] + q;
    forall j | 0 < j < |r| ensures r[0] < r[j] && cands[r[0]].changed < cands[r[j]].changed {
      assert r[j] == q[j - 1];
    }
  }

  lemma NoLongerClimb(cands: seq<Pair>, tails: seq<nat>, rank: seq<nat>, other: seq<int>)
    requires |rank| == |cands| && RanksOk(cands, tails, rank) && RankClimbs(cands, rank) && Climbs(cands, other)
    ensures |other| <= |tails|
  {
    if |other| > 0 {
      ClimbBelowRank(cands, rank, other, |other| - 1);
    }
  }

  /** The longest climb, read back from the last tail. */
  method LongestClimb(cands: seq<Pair>) returns (q: seq<int>)
    ensures Climbs(cands, q)
    ensures forall other :: Climbs(cands, other) ==> |other| <= |q|
  {
    hide Climbs, RankClimbs;
    var tails, tailCandidates, previous;
    ghost var rank;
    tails, tailCandidates, previous, rank := Patience(cands);
    q := ReadBack(cands, previous, rank, if |tails| > 0 then tailCandidates[|tails| - 1] else -1);
    forall other | Climbs(cands, other) ensures |other| <= |q| {
      NoLongerClimb(cands, tails, rank, other);
    }
  }

  /** Follow the back pointers from one candidate. */
  method ReadBack(cands: seq<Pair>, previous: seq<int>, ghost rank: seq<nat>, from: int) returns (q: seq<int>)
    requires |rank| == |cands| && PreviousOk(cands, previous, rank) && -1 <= from < |cands|
    requires forall j :: 0 <= j < |rank| ==> rank[j] >= 1
    ensures Climbs(cands, q) && |q| == if from >= 0 then rank[from] else 0
  {
    q := [];
    var cursor := from;
    assert Climbs(cands, q);
    hide Climbs, PreviousOk;
    while cursor >= 0
      invariant -1 <= cursor < |cands| && Climbs(cands, q)
      invariant cursor >= 0 ==> Under(cands, cursor, q)
      invariant |q| + (if cursor >= 0 then rank[cursor] else 0) == if from >= 0 then rank[from] else 0
      decreases cursor
    {
      BackPointer(cands, previous, rank, cursor, q);
      ClimbPrepend(cands, cursor, q);
      q := [cursor] + q;
      cursor := previous[cursor];
    }
  }

  lemma BackPointer(cands: seq<Pair>, previous: seq<int>, rank: seq<nat>, j: int, q: seq<int>)
    requires |rank| == |cands| && PreviousOk(cands, previous, rank) && 0 <= j < |rank| && rank[j] >= 1
    ensures j < |previous| && -1 <= previous[j] < j
    ensures previous[j] == -1 ==> rank[j] == 1
    ensures previous[j] >= 0 ==> rank[previous[j]] == rank[j] - 1 && rank[previous[j]] >= 1
    ensures previous[j] >= 0 ==> Under(cands, previous[j], [j] + q)
  {
  }
}
