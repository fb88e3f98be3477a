/** Reconciling the characters of one block: marks on the matching ends, deletions
    and insertions in between (src/lib/crdt/adapter.ts, reconcileBlockChars). */
module CharDiff {
  import opened Types
  import opened Visible
  import opened Network
  import opened Edits
  import opened BlockSpots
  import opened Sessions
  import opened Rewriting
  import opened Tracking
  import opened Emitting

  function CharLive(ch: VisibleChar): Live {
    Live(Text, ch.scalar, ch.marks)
  }

  /** What becomes of character `c` of the old block: the first `lo` and the `hi`
      after the changed middle have their new marks, the middle is gone from `cut`. */
  function CharNews(bc: seq<VisibleChar>, ac: seq<VisibleChar>, s: nat, lo: nat, cut: nat, hi: nat,
                    c: nat): Option<Live>
    requires c < |bc| && s <= |bc| && s <= |ac| && lo <= |ac| && hi <= s
  {
    if c < lo then Some(CharLive(ac[c]))
    else if c < |bc| - s then (if c < cut then Some(CharLive(bc[c])) else None)
    else if c < |bc| - s + hi then Some(CharLive(ac[|ac| - |bc| + c]))
    else Some(CharLive(bc[c]))
  }

  /** All live items of the block's region, the head first. */
  function News(head: seq<Live>, bc: seq<VisibleChar>, ac: seq<VisibleChar>, s: nat, lo: nat, cut: nat,
                hi: nat): (r: seq<Option<Live>>)
    requires s <= |bc| && s <= |ac| && lo <= |ac| && hi <= s
    ensures |r| == |head| + |bc|
    ensures forall c :: 0 <= c < |bc| ==> r[|head| + c] == CharNews(bc, ac, s, lo, cut, hi, c)
  {
    Kept(head) + seq(|bc|, c requires 0 <= c < |bc| => CharNews(bc, ac, s, lo, cut, hi, c))
  }

  lemma NewsStart(head: seq<Live>, bc: seq<VisibleChar>, ac: seq<VisibleChar>, s: nat)
    requires s <= |bc| && s <= |ac|
    ensures News(head, bc, ac, s, 0, |bc| - s, 0) == Kept(head + FlatChars(bc))
  {
  }

  /** The step that settles one entry. */
  lemma NewsStep(head: seq<Live>, bc: seq<VisibleChar>, ac: seq<VisibleChar>, s: nat, lo: nat, cut: nat, hi: nat,
                 lo': nat, cut': nat, hi': nat, c: nat)
    requires s <= |bc| && s <= |ac| && lo <= |ac| && lo' <= |ac| && hi <= s && hi' <= s && c < |bc|
    requires forall j :: 0 <= j < |bc| && j != c ==>
               CharNews(bc, ac, s, lo, cut, hi, j) == CharNews(bc, ac, s, lo', cut', hi', j)
    ensures News(head, bc, ac, s, lo, cut, hi)[|head| + c := CharNews(bc, ac, s, lo', cut', hi', c)]
            == News(head, bc, ac, s, lo', cut', hi')
  {
  }

  lemma StepPrefix(head: seq<Live>, bc: seq<VisibleChar>, ac: seq<VisibleChar>, s: nat, c: nat)
    requires s <= |bc| && s <= |ac| && c < |ac| && c < |bc| - s
    ensures News(head, bc, ac, s, c, |bc| - s, 0)[|head| + c := Some(CharLive(ac[c]))]
            == News(head, bc, ac, s, c + 1, |bc| - s, 0)
    ensures News(head, bc, ac, s, c, |bc| - s, 0)[|head| + c] == Some(CharLive(bc[c]))
  {
    NewsStep(head, bc, ac, s, c, |bc| - s, 0, c + 1, |bc| - s, 0, c);
  }

  lemma StepCut(head: seq<Live>, bc: seq<VisibleChar>, ac: seq<VisibleChar>, s: nat, p: nat, c: nat)
    requires s <= |bc| && s <= |ac| && p <= |ac| && p <= c < |bc| - s
    ensures News(head, bc, ac, s, p, c + 1, 0)[|head| + c := None] == News(head, bc, ac, s, p, c, 0)
    ensures News(head, bc, ac, s, p, c + 1, 0)[|head| + c] == Some(CharLive(bc[c]))
  {
    NewsStep(head, bc, ac, s, p, c + 1, 0, p, c, 0, c);
  }

  lemma StepSuffix(head: seq<Live>, bc: seq<VisibleChar>, ac: seq<VisibleChar>, s: nat, p: nat, k: nat)
    requires s <= |bc| && s <= |ac| && p <= |ac| && p <= |bc| - s && k < s
    ensures News(head, bc, ac, s, p, p, k)[|head| + |bc| - s + k := Some(CharLive(ac[|ac| - s + k]))]
            == News(head, bc, ac, s, p, p, k + 1)
    ensures News(head, bc, ac, s, p, p, k)[|head| + |bc| - s + k] == Some(CharLive(bc[|bc| - s + k]))
  {
    NewsStep(head, bc, ac, s, p, p, k, p, p, k + 1, |bc| - s + k);
  }

  lemma NewsFront(head: seq<Live>, bc: seq<VisibleChar>, ac: seq<VisibleChar>, s: nat, p: nat)
    requires s <= |bc| && s <= |ac| && p <= |ac| && p <= |bc| - s
    ensures Somes(News(head, bc, ac, s, p, p, s)[..|head| + p]) == head + FlatChars(ac[..p])
  {
    assert News(head, bc, ac, s, p, p, s)[..|head| + p] == Kept(head + FlatChars(ac[..p]));
    SomesKept(head + FlatChars(ac[..p]));
  }

  lemma NewsBack(head: seq<Live>, bc: seq<VisibleChar>, ac: seq<VisibleChar>, s: nat, p: nat)
    requires s <= |bc| && s <= |ac| && p <= |ac| && p <= |bc| - s
    ensures Somes(News(head, bc, ac, s, p, p, s)[|head| + p..]) == FlatChars(ac[|ac| - s..])
  {
    hide Somes;
    var news := News(head, bc, ac, s, p, p, s);
    var gone, stay := news[|head| + p..|head| + |bc| - s], news[|head| + |bc| - s..];
    assert news[|head| + p..] == gone + stay;
    SomesConcat(gone, stay);
    SomesNone(gone);
    assert stay == Kept(FlatChars(ac[|ac| - s..]));
    SomesKept(FlatChars(ac[|ac| - s..]));
    assert [] + FlatChars(ac[|ac| - s..]) == FlatChars(ac[|ac| - s..]);
  }

  // ------------------------------------------------------------------ common ends

  predicate SameStart(bc: seq<VisibleChar>, ac: seq<VisibleChar>, p: nat) {
    p <= |bc| && p <= |ac| && forall c :: 0 <= c < p ==> bc[c].scalar == ac[c].scalar
  }

  predicate SameEnd(bc: seq<VisibleChar>, ac: seq<VisibleChar>, s: nat) {
    s <= |bc| && s <= |ac| && forall c :: |bc| - s <= c < |bc| ==> bc[c].scalar == ac[|ac| - |bc| + c].scalar
  }

  function FrontFrom(bc: seq<VisibleChar>, ac: seq<VisibleChar>, n: nat): (p: nat)
    requires SameStart(bc, ac, n)
    ensures SameStart(bc, ac, p) && (p < |bc| && p < |ac| ==> bc[p].scalar != ac[p].scalar)
    decreases |bc| - n
  {
    if n < |bc| && n < |ac| && bc[n].scalar == ac[n].scalar then FrontFrom(bc, ac, n + 1) else n
  }

  /** How many characters the two have in common from the start: as many as there are. */
  function Front(bc: seq<VisibleChar>, ac: seq<VisibleChar>): (p: nat)
    ensures p <= |bc| && p <= |ac| && forall c :: 0 <= c < p ==> bc[c].scalar == ac[c].scalar
    ensures p < |bc| && p < |ac| ==> bc[p].scalar != ac[p].scalar
  {
    FrontFrom(bc, ac, 0)
  }

  function BackFrom(bc: seq<VisibleChar>, ac: seq<VisibleChar>, p: nat, n: nat): (s: nat)
    requires SameEnd(bc, ac, n) && p + n <= |bc| && p + n <= |ac|
    ensures SameEnd(bc, ac, s) && p + s <= |bc| && p + s <= |ac|
    ensures p + s < |bc| && p + s < |ac| ==> bc[|bc| - 1 - s].scalar != ac[|ac| - 1 - s].scalar
    decreases |bc| - n
  {
    if p + n < |bc| && p + n < |ac| && bc[|bc| - 1 - n].scalar == ac[|ac| - 1 - n].scalar then
      BackFrom(bc, ac, p, n + 1)
    else n
  }

  /** How many of the rest they have in common at the end: as many as there are. */
  function Back(bc: seq<VisibleChar>, ac: seq<VisibleChar>): (s: nat)
    ensures Front(bc, ac) + s <= |bc| && Front(bc, ac) + s <= |ac|
    ensures forall c :: |bc| - s <= c < |bc| ==> bc[c].scalar == ac[|ac| - |bc| + c].scalar
    ensures Front(bc, ac) + s < |bc| && Front(bc, ac) + s < |ac| ==>
              bc[|bc| - 1 - s].scalar != ac[|ac| - 1 - s].scalar
  {
    BackFrom(bc, ac, Front(bc, ac), 0)
  }

  lemma EndStep(bc: seq<VisibleChar>, ac: seq<VisibleChar>, s: nat)
    requires SameEnd(bc, ac, s) && s < |bc| && s < |ac| && bc[|bc| - 1 - s].scalar == ac[|ac| - 1 - s].scalar
    ensures SameEnd(bc, ac, s + 1)
  {
  }

  method CommonEnds(bc: seq<VisibleChar>, ac: seq<VisibleChar>) returns (p: nat, s: nat)
    ensures p == Front(bc, ac) && s == Back(bc, ac)
    ensures SameStart(bc, ac, p) && SameEnd(bc, ac, s) && p + s <= |bc| && p + s <= |ac|
    ensures p < |bc| && p < |ac| ==> bc[p].scalar != ac[p].scalar
    ensures p + s < |bc| && p + s < |ac| ==> bc[|bc| - 1 - s].scalar != ac[|ac| - 1 - s].scalar
  {
    hide SameEnd;
    p := 0;
    while p < |bc| && p < |ac| && bc[p].scalar == ac[p].scalar
      invariant SameStart(bc, ac, p) && FrontFrom(bc, ac, p) == Front(bc, ac)
    {
      p := p + 1;
    }
    s := 0;
    NoEnd(bc, ac);
    while s < |bc| - p && s < |ac| - p && bc[|bc| - 1 - s].scalar == ac[|ac| - 1 - s].scalar
      invariant SameEnd(bc, ac, s) && p + s <= |bc| && p + s <= |ac| && BackFrom(bc, ac, p, s) == Back(bc, ac)
    {
      EndStep(bc, ac, s);
      s := s + 1;
    }
  }

  lemma NoEnd(bc: seq<VisibleChar>, ac: seq<VisibleChar>)
    ensures SameEnd(bc, ac, 0)
  {
  }

  // ----------------------------------------------------------------- what it takes

  /** Attribute writes on characters that are kept. */
  function Remarks(was: seq<VisibleChar>, goal: seq<VisibleChar>): nat
    requires |was| == |goal|
  {
    if |was| == 0 then 0
    else
      var n := |was| - 1;
      Remarks(was[..n], goal[..n]) + |Differing(was[n].marks, goal[n].marks)|
  }

  lemma RemarksNext(was: seq<VisibleChar>, goal: seq<VisibleChar>, k: nat)
    requires |was| == |goal| && k < |was|
    ensures Remarks(was[..k + 1], goal[..k + 1])
            == Remarks(was[..k], goal[..k]) + |Differing(was[k].marks, goal[k].marks)|
  {
    assert was[..k + 1][..k] == was[..k] && goal[..k + 1][..k] == goal[..k];
  }

  lemma RemarksNone(was: seq<VisibleChar>, goal: seq<VisibleChar>)
    requires |was| == |goal|
    ensures Remarks(was[..0], goal[..0]) == 0
  {
  }

  /** Only what lies between the common ends is deleted, only what lies between them
      is typed, and only attributes that differ are written. */
  function CharsWork(bc: seq<VisibleChar>, ac: seq<VisibleChar>): Work {
    var p, s := Front(bc, ac), Back(bc, ac);
    Work(|bc| - p - s, |ac| - p - s, 0,
         Remarks(bc[..p], ac[..p]) + MarksIn(ac[p..|ac| - s]) + Remarks(bc[|bc| - s..], ac[|ac| - s..]))
  }

  /** The characters of the common ends, still there under the identity they had,
      with the new marks. */
  ghost predicate CharsStand(ops: seq<Edit>, spots: seq<Spot>, indices: seq<nat>, bc: seq<VisibleChar>,
                             ac: seq<VisibleChar>)
    requires |indices| == |bc|
  {
    && (forall c :: 0 <= c < Front(bc, ac) ==> Stands(ops, spots, indices[c], CharLive(ac[c])))
    && (forall c :: |bc| - Back(bc, ac) <= c < |bc| ==>
          Stands(ops, spots, indices[c], CharLive(ac[|ac| - |bc| + c])))
  }

  lemma ChangedAll(was: map<Bytes, Bytes>, goal: map<Bytes, Bytes>)
    ensures Changed(was, was, goal) == goal
  {
  }

  predicate NamedChars(reg: Registry, chars: seq<VisibleChar>) {
    forall i :: 0 <= i < |chars| ==> NamesAll(reg, Text, chars[i].marks)
  }

  // ------------------------------------------------------------------------ places

  lemma RankGrows(sp: seq<Spot>, i: nat, j: nat)
    requires i <= j <= |sp|
    ensures LiveRank(sp, i) <= LiveRank(sp, j)
  {
    assert sp[..j] == sp[..i] + sp[i..j];
    ShownConcat(sp[..i], sp[i..j]);
  }

  /** A live place whose rank is not below the cut's is not before the cut. */
  lemma BehindCut(sp: seq<Spot>, q: nat, r: nat)
    requires q <= |sp| && LiveRank(sp, q) <= r < |LivePlaces(sp)|
    ensures q <= LivePlaces(sp)[r]
  {
    hide Shown, LivePlaces;
    PlaceOfRank(sp, r);
    if LivePlaces(sp)[r] < q { RankGrows(sp, LivePlaces(sp)[r] + 1, q); }
  }

  /** The region of the stream a block stands in, as its reconciliation sees it. */
  ghost predicate Frame(mid: seq<Spot>, head: nat, bc: seq<VisibleChar>, at: nat, indices: seq<nat>,
                        contentStart: nat) {
    && head <= 1 && |Shown(mid)| == head + |bc| && Shown(mid)[head..] == FlatChars(bc)
    && |indices| == |bc| && (forall c :: 0 <= c < |bc| ==> indices[c] == at + LivePlaces(mid)[head + c])
    && contentStart == at + (if head == 0 then 0 else LivePlaces(mid)[0] + 1)
  }

  lemma FrameShows(mid: seq<Spot>, head: nat, bc: seq<VisibleChar>, at: nat, indices: seq<nat>, contentStart: nat,
                   c: nat)
    requires Frame(mid, head, bc, at, indices, contentStart) && c < |bc|
    ensures head + c < |Shown(mid)| && Shown(mid)[head + c] == CharLive(bc[c])
  {
    hide Shown, LivePlaces;
    assert Shown(mid)[head..][c] == Shown(mid)[head + c];
  }

  /** The insertion point, behind exactly `p` kept characters. */
  lemma CutPoint(mid: seq<Spot>, head: nat, bc: seq<VisibleChar>, at: nat, indices: seq<nat>, contentStart: nat, p: nat)
      returns (q: nat)
    requires Frame(mid, head, bc, at, indices, contentStart) && p <= |bc|
    ensures q <= |mid| && LiveRank(mid, q) == head + p
    ensures at + q == if p < |indices| then indices[p] else if |indices| > 0 then indices[|indices| - 1] + 1
                                                            else contentStart
  {
    hide Shown, LivePlaces;
    if p < |bc| {
      PlaceOfRank(mid, head + p);
      q := LivePlaces(mid)[head + p];
    } else if |bc| > 0 {
      PlaceOfRank(mid, head + |bc| - 1);
      q := LivePlaces(mid)[head + |bc| - 1] + 1;
    } else if head == 1 {
      PlaceOfRank(mid, 0);
      q := LivePlaces(mid)[0] + 1;
    } else {
      q := 0;
      ShownNone();
      assert mid[..0] == [];
    }
  }

  // ----------------------------------------------------------------------- phases

  /** The region with its items as `news` says, split at `q` by new items. */
  ghost function Stage(done: seq<Spot>, mid: seq<Spot>, news: seq<Option<Live>>, q: nat, lives: seq<Live>,
                       tail: seq<Spot>): seq<Spot>
    requires |news| == |Shown(mid)| && q <= |mid|
  {
    Around(done, Rewritten(mid, news), q, lives, tail)
  }

  /** writeMarks: the marks of one kept character. */
  method WriteMarks(ghost reg: Registry, ghost orig: seq<Spot>, ops0: seq<Edit>, was: VisibleChar, goal: VisibleChar,
                    position: nat, ghost done: seq<Spot>, ghost mid: seq<Spot>, ghost news: seq<Option<Live>>,
                    ghost q: nat, ghost lives: seq<Live>, ghost tail: seq<Spot>, ghost rank: nat)
      returns (ops: seq<Edit>)
    requires Consistent(reg) && was.scalar == goal.scalar && AllowsAll(reg, Text, goal.marks)
             && NamesAll(reg, Text, was.marks)
    requires |news| == |Shown(mid)| && q <= |mid| && rank < |news| && news[rank] == Some(CharLive(was))
    requires Emits(reg, orig, ops0, Stage(done, mid, news, q, lives, tail))
    requires q <= LivePlaces(mid)[rank] && position == |done| + |lives| + LivePlaces(mid)[rank]
    ensures Emits(reg, orig, ops, Stage(done, mid, news[rank := Some(CharLive(goal))], q, lives, tail))
    ensures Adds(ops0, ops, Remarking(|Differing(was.marks, goal.marks)|), position)
  {
    hide Adds, Differing, Emits, Consistent, AllowsAll, NamesAll, Shown, LivePlaces, Rewritten, Around, Changed;
    ChangedAll(was.marks, goal.marks);
    ops := RemarkItem(reg, orig, ops0, position, was.marks, goal.marks, done, mid, news, q, lives, tail, rank,
                      CharLive(was));
  }

  lemma RemarkAdds(ops0: seq<Edit>, ops1: seq<Edit>, ops2: seq<Edit>, was: seq<VisibleChar>, goal: seq<VisibleChar>,
                   k: nat, position: nat)
    requires |was| == |goal| && k < |was| && Adds(ops0, ops1, Remarking(Remarks(was[..k], goal[..k])), 0)
    requires Adds(ops1, ops2, Remarking(|Differing(was[k].marks, goal[k].marks)|), position)
    ensures Adds(ops0, ops2, Remarking(Remarks(was[..k + 1], goal[..k + 1])), 0)
  {
    hide Adds, Differing, Remarks;
    var w := Remarking(|Differing(was[k].marks, goal[k].marks)|);
    RemarksNext(was, goal, k);
    AddsAnywhere(ops1, ops2, w, position, 0);
    AddsThen(ops0, ops1, ops2, Remarking(Remarks(was[..k], goal[..k])), w, 0);
  }

  method RemarkStart(ghost reg: Registry, ghost orig: seq<Spot>, ops0: seq<Edit>, bc: seq<VisibleChar>,
                     ac: seq<VisibleChar>, p: nat, indices: seq<nat>, shift: nat, ghost done: seq<Spot>,
                     ghost mid: seq<Spot>, ghost tail: seq<Spot>, ghost at: nat, ghost head: seq<Live>, ghost s: nat,
                     ghost contentStart: nat)
      returns (ops: seq<Edit>)
    requires Consistent(reg) && WritableChars(reg, ac) && NamedChars(reg, bc) && SameStart(bc, ac, p)
    requires s <= |bc| && s <= |ac| && p <= |bc| - s
    requires Frame(mid, |head|, bc, at, indices, contentStart) && |done| == at + shift
    requires Emits(reg, orig, ops0, Stage(done, mid, News(head, bc, ac, s, 0, |bc| - s, 0), 0, [], tail))
    ensures Emits(reg, orig, ops, Stage(done, mid, News(head, bc, ac, s, p, |bc| - s, 0), 0, [], tail))
    ensures Adds(ops0, ops, Remarking(Remarks(bc[..p], ac[..p])), 0)
  {
    hide Adds, Differing, Remarks, Emits, Consistent, AllowsAll, NamesAll, Shown, LivePlaces, Stage, News, CharLive;
    ops := ops0;
    AddsNothing(ops, 0);
    RemarksNone(bc[..p], ac[..p]);
    assert bc[..p][..0] == bc[..0] && ac[..p][..0] == ac[..0];
    var c := 0;
    while c < p
      invariant 0 <= c <= p
      invariant Emits(reg, orig, ops, Stage(done, mid, News(head, bc, ac, s, c, |bc| - s, 0), 0, [], tail))
      invariant Adds(ops0, ops, Remarking(Remarks(bc[..c], ac[..c])), 0)
    {
      StepPrefix(head, bc, ac, s, c);
      ghost var ops1 := ops;
      ops := WriteMarks(reg, orig, ops, bc[c], ac[c], indices[c] + shift, done, mid,
                        News(head, bc, ac, s, c, |bc| - s, 0), 0, [], tail, |head| + c);
      assert bc[..p][..c] == bc[..c] && ac[..p][..c] == ac[..c];
      assert bc[..p][..c + 1] == bc[..c + 1] && ac[..p][..c + 1] == ac[..c + 1];
      RemarkAdds(ops0, ops1, ops, bc[..p], ac[..p], c, indices[c] + shift);
      c := c + 1;
    }
  }

  lemma EraseAdds(ops0: seq<Edit>, ops1: seq<Edit>, ops2: seq<Edit>, n: nat, position: nat)
    requires Adds(ops0, ops1, Erasing(n), 0) && Adds(ops1, ops2, Erasing(1), position)
    ensures Adds(ops0, ops2, Erasing(n + 1), 0)
  {
    hide Adds;
    AddsAnywhere(ops1, ops2, Erasing(1), position, 0);
    AddsThen(ops0, ops1, ops2, Erasing(n), Erasing(1), 0);
  }

  method CutMiddle(ghost reg: Registry, ghost orig: seq<Spot>, ops0: seq<Edit>, bc: seq<VisibleChar>,
                   ghost ac: seq<VisibleChar>, p: nat, s: nat, indices: seq<nat>, shift: nat, ghost done: seq<Spot>,
                   ghost mid: seq<Spot>, ghost tail: seq<Spot>, ghost at: nat, ghost head: seq<Live>,
                   ghost contentStart: nat)
      returns (ops: seq<Edit>)
    requires s <= |bc| && s <= |ac| && p <= |bc| - s && p <= |ac|
    requires Frame(mid, |head|, bc, at, indices, contentStart) && |done| == at + shift
    requires Emits(reg, orig, ops0, Stage(done, mid, News(head, bc, ac, s, p, |bc| - s, 0), 0, [], tail))
    ensures Emits(reg, orig, ops, Stage(done, mid, News(head, bc, ac, s, p, p, 0), 0, [], tail))
    ensures Adds(ops0, ops, Erasing(|bc| - s - p), 0)
  {
    hide Adds, Emits, Shown, LivePlaces, Rewritten, Around, News, CharLive;
    ops := ops0;
    AddsNothing(ops, 0);
    var c := |bc| - s;
    while c > p
      invariant p <= c <= |bc| - s
      invariant Emits(reg, orig, ops, Stage(done, mid, News(head, bc, ac, s, p, c, 0), 0, [], tail))
      invariant Adds(ops0, ops, Erasing(|bc| - s - c), 0)
    {
      c := c - 1;
      ghost var ops1 := ops;
      StepCut(head, bc, ac, s, p, c);
      FrameShows(mid, |head|, bc, at, indices, contentStart, c);
      ops := EraseItem(reg, orig, ops, indices[c] + shift, done, mid, News(head, bc, ac, s, p, c + 1, 0), tail,
                       |head| + c);
      EraseAdds(ops0, ops1, ops, |bc| - s - (c + 1), indices[c] + shift);
    }
  }

  method RemarkEnd(ghost reg: Registry, ghost orig: seq<Spot>, ops0: seq<Edit>, bc: seq<VisibleChar>,
                   ac: seq<VisibleChar>, s: nat, indices: seq<nat>, shift: nat, ghost p: nat, ghost q: nat,
                   ghost lives: seq<Live>, ghost done: seq<Spot>, ghost mid: seq<Spot>, ghost tail: seq<Spot>,
                   ghost at: nat, ghost head: seq<Live>, ghost contentStart: nat)
      returns (ops: seq<Edit>)
    requires Consistent(reg) && WritableChars(reg, ac) && NamedChars(reg, bc) && SameEnd(bc, ac, s)
    requires p <= |ac| && p <= |bc| - s && q <= |mid| && LiveRank(mid, q) == |head| + p
    requires Frame(mid, |head|, bc, at, indices, contentStart) && |done| + |lives| == at + shift
    requires Emits(reg, orig, ops0, Stage(done, mid, News(head, bc, ac, s, p, p, 0), q, lives, tail))
    ensures Emits(reg, orig, ops, Stage(done, mid, News(head, bc, ac, s, p, p, s), q, lives, tail))
    ensures Adds(ops0, ops, Remarking(Remarks(bc[|bc| - s..], ac[|ac| - s..])), 0)
  {
    hide Adds, Differing, Remarks, Emits, Consistent, AllowsAll, NamesAll, Shown, LivePlaces, Stage, News, CharLive,
         LiveRank;
    ops := ops0;
    ghost var was, goal := bc[|bc| - s..], ac[|ac| - s..];
    AddsNothing(ops, 0);
    RemarksNone(was, goal);
    var k := 0;
    while k < s
      invariant 0 <= k <= s
      invariant Emits(reg, orig, ops, Stage(done, mid, News(head, bc, ac, s, p, p, k), q, lives, tail))
      invariant Adds(ops0, ops, Remarking(Remarks(was[..k], goal[..k])), 0)
    {
      StepSuffix(head, bc, ac, s, p, k);
      ghost var ops1 := ops;
      var c := |bc| - s + k;
      BehindCut(mid, q, |head| + c);
      assert bc[c].scalar == ac[|ac| - |bc| + c].scalar;
      ops := WriteMarks(reg, orig, ops, bc[c], ac[|ac| - s + k], indices[c] + shift, done, mid,
                        News(head, bc, ac, s, p, p, k), q, lives, tail, |head| + c);
      RemarkAdds(ops0, ops1, ops, was, goal, k, indices[c] + shift);
      k := k + 1;
    }
    assert was[..k] == was && goal[..k] == goal;
  }

  /** The finished block: kept items before the insertion point, new ones, kept ones behind. */
  ghost function Piece(mid: seq<Spot>, news: seq<Option<Live>>, q: nat, lives: seq<Live>): (r: seq<Spot>)
    requires |news| == |Shown(mid)| && q <= |mid|
    ensures |r| == |mid| + |lives|
  {
    Rewritten(mid, news)[..q] + LiveSpots(lives) + Rewritten(mid, news)[q..]
  }

  lemma PieceStands(done: seq<Spot>, mid: seq<Spot>, news: seq<Option<Live>>, q: nat, lives: seq<Live>, tail: seq<Spot>)
    requires |news| == |Shown(mid)| && q <= |mid|
    ensures Stage(done, mid, news, q, lives, tail) == done + Piece(mid, news, q, lives) + tail
  {
    hide Rewritten, Shown;
  }

  lemma PieceShows(mid: seq<Spot>, news: seq<Option<Live>>, q: nat, lives: seq<Live>)
    requires |news| == |Shown(mid)| && q <= |mid|
    ensures LiveRank(mid, q) <= |news|
    ensures Shown(Piece(mid, news, q, lives))
            == Somes(news[..LiveRank(mid, q)]) + lives + Somes(news[LiveRank(mid, q)..])
  {
    hide Rewritten, Shown, Somes;
    RewrittenCut(mid, news, q);
    var r := LiveRank(mid, q);
    var a, b := Rewritten(mid[..q], news[..r]), Rewritten(mid[q..], news[r..]);
    assert Rewritten(mid, news)[..q] == a && Rewritten(mid, news)[q..] == b;
    RewrittenShows(mid[..q], news[..r]);
    RewrittenShows(mid[q..], news[r..]);
    LiveSpotsShow(lives);
    ShownConcat(a, LiveSpots(lives));
    ShownConcat(a + LiveSpots(lives), b);
  }

  lemma CharsJoin(head: seq<Live>, ac: seq<VisibleChar>, p: nat, s: nat)
    requires p + s <= |ac|
    ensures head + FlatChars(ac[..p]) + FlatChars(ac[p..|ac| - s]) + FlatChars(ac[|ac| - s..]) == head + FlatChars(ac)
  {
  }

  lemma FrameSize(mid: seq<Spot>, head: nat, bc: seq<VisibleChar>, at: nat, indices: seq<nat>, contentStart: nat)
    requires Frame(mid, head, bc, at, indices, contentStart)
    ensures |Shown(mid)| == head + |bc| && |indices| == |bc|
  {
  }

  /** The kept characters of the common start and the deletions. */
  method SettleOld(ghost reg: Registry, ghost orig: seq<Spot>, ops0: seq<Edit>, bc: seq<VisibleChar>,
                   ac: seq<VisibleChar>, p: nat, s: nat, indices: seq<nat>, ghost contentStart: nat, shift: nat,
                   ghost done: seq<Spot>, ghost mid: seq<Spot>, ghost tail: seq<Spot>, ghost at: nat,
                   ghost head: seq<Live>)
      returns (ops: seq<Edit>)
    requires Consistent(reg) && WritableChars(reg, ac) && NamedChars(reg, bc)
    requires SameStart(bc, ac, p) && s <= |ac| && p + s <= |bc|
    requires Frame(mid, |head|, bc, at, indices, contentStart) && |done| == at + shift
    requires Emits(reg, orig, ops0, done + Rewritten(mid, Kept(head + FlatChars(bc))) + tail)
    ensures Emits(reg, orig, ops, Stage(done, mid, News(head, bc, ac, s, p, p, 0), 0, [], tail))
    ensures Adds(ops0, ops, Work(|bc| - s - p, 0, 0, Remarks(bc[..p], ac[..p])), 0)
  {
    hide Adds, Remarks, Emits, Consistent, NamedChars, WritableChars, Frame, News, Rewritten, Around, Shown;
    FrameSize(mid, |head|, bc, at, indices, contentStart);
    NewsStart(head, bc, ac, s);
    AroundMoves(done, Rewritten(mid, Kept(head + FlatChars(bc))), 0, tail);
    ops := RemarkStart(reg, orig, ops0, bc, ac, p, indices, shift, done, mid, tail, at, head, s, contentStart);
    ghost var ops1 := ops;
    ops := CutMiddle(reg, orig, ops, bc, ac, p, s, indices, shift, done, mid, tail, at, head, contentStart);
    AddsThen(ops0, ops1, ops, Remarking(Remarks(bc[..p], ac[..p])), Erasing(|bc| - s - p), 0);
  }

  /** reconcileBlockChars: afterwards the block shows its head and the new characters. */
  method ReconcileBlockChars(ghost reg: Registry, ghost orig: seq<Spot>, ops0: seq<Edit>, bc: seq<VisibleChar>,
                             ac: seq<VisibleChar>, indices: seq<nat>, contentStart: nat, shift0: nat,
                             ghost done: seq<Spot>, ghost mid: seq<Spot>, ghost tail: seq<Spot>, ghost at: nat,
                             ghost head: seq<Live>)
      returns (ops: seq<Edit>, shift: nat, ghost piece: seq<Spot>)
    requires Consistent(reg) && WritableChars(reg, ac) && NamedChars(reg, bc)
    requires Frame(mid, |head|, bc, at, indices, contentStart) && |done| == at + shift0
    requires Emits(reg, orig, ops0, done + Rewritten(mid, Kept(head + FlatChars(bc))) + tail)
    requires Follows(ops0, at, shift0)
    ensures Emits(reg, orig, ops, done + piece + tail) && |done| + |piece| == at + |mid| + shift
    ensures Shown(piece) == head + FlatChars(ac)
    ensures WorkOf(ops) == WorkOf(ops0).Plus(CharsWork(bc, ac)) && CharsStand(ops, done + piece, indices, bc, ac)
    ensures Follows(ops, at + |mid|, shift) && Steady(ops0, ops, |done|)
    ensures |head| > 0 ==> Stands(ops, done + piece, at + LivePlaces(mid)[0], head[0])
  {
    hide *;
    FrameHead(mid, |head|, bc, at, indices, contentStart);
    var p, s := CommonEnds(bc, ac);
    ops := SettleOld(reg, orig, ops0, bc, ac, p, s, indices, contentStart, shift0, done, mid, tail, at, head);
    FrameSize(mid, |head|, bc, at, indices, contentStart);
    ghost var q := CutPoint(mid, |head|, bc, at, indices, contentStart, p);
    var cursor;
    if p < |indices| {
      cursor := indices[p] + shift0;
    } else if |indices| > 0 {
      cursor := indices[|indices| - 1] + 1 + shift0;
    } else {
      cursor := contentStart + shift0;
    }
    ghost var r := Rewritten(mid, News(head, bc, ac, s, p, p, 0));
    AroundMoves(done, r, 0, tail);
    AroundMoves(done, r, q, tail);
    AroundIs(done, r, q, [], tail);
    StageIs(done, mid, News(head, bc, ac, s, p, p, 0), q, [], tail);
    StageIs(done, mid, News(head, bc, ac, s, p, p, 0), 0, [], tail);
    MiddleWritable(reg, ac, p, s);
    ghost var lives := FlatChars(ac[p..|ac| - s]);
    assert [] + lives == lives;
    ghost var ops1 := ops;
    ops, cursor, shift := PushChars(reg, orig, ops, ac[p..|ac| - s], cursor, shift0, done + r[..q], [], r[q..] + tail);
    AroundIs(done, r, q, lives, tail);
    StageIs(done, mid, News(head, bc, ac, s, p, p, 0), q, lives, tail);
    ghost var ops2 := ops;
    ops := RemarkEnd(reg, orig, ops, bc, ac, s, indices, shift, p, q, lives, done, mid, tail, at, head, contentStart);
    ghost var news := News(head, bc, ac, s, p, p, s);
    piece := Piece(mid, news, q, lives);
    PieceStands(done, mid, news, q, lives, tail);
    PieceShows(mid, news, q, lives);
    NewsFront(head, bc, ac, s, p);
    NewsBack(head, bc, ac, s, p);
    CharsJoin(head, ac, p, s);
    CharsAdd(ops0, ops1, ops2, ops, bc, ac, |done| + q);
    AddsInside(ops0, ops, CharsWork(bc, ac), |done|, q, |mid|, at, shift0);
    AddsWork(ops0, ops, CharsWork(bc, ac), |done| + q);
    KeptStand(ops, done, mid, bc, ac, indices, at, head, contentStart, q);
  }

  lemma FrameHead(mid: seq<Spot>, head: nat, bc: seq<VisibleChar>, at: nat, indices: seq<nat>, contentStart: nat)
    requires Frame(mid, head, bc, at, indices, contentStart)
    ensures |indices| == |bc| && (head > 0 ==> |LivePlaces(mid)| > 0)
  {
  }

  lemma AddsWork(ops0: seq<Edit>, ops: seq<Edit>, w: Work, cursor: nat)
    requires Adds(ops0, ops, w, cursor)
    ensures WorkOf(ops) == WorkOf(ops0).Plus(w)
  {
  }

  /** The three stages together. */
  lemma CharsAdd(ops0: seq<Edit>, ops1: seq<Edit>, ops2: seq<Edit>, ops3: seq<Edit>, bc: seq<VisibleChar>,
                 ac: seq<VisibleChar>, cursor: nat)
    requires var p, s := Front(bc, ac), Back(bc, ac);
             && Adds(ops0, ops1, Work(|bc| - s - p, 0, 0, Remarks(bc[..p], ac[..p])), 0)
             && Adds(ops1, ops2, Work(0, |ac[p..|ac| - s]|, 0, MarksIn(ac[p..|ac| - s])), cursor)
             && Adds(ops2, ops3, Remarking(Remarks(bc[|bc| - s..], ac[|ac| - s..])), 0)
    ensures Adds(ops0, ops3, CharsWork(bc, ac), cursor)
    ensures CharsWork(bc, ac).Inserts() == |ac| - Front(bc, ac) - Back(bc, ac)
  {
    hide Adds, Remarks, MarksIn, Front, Back;
    var p, s := Front(bc, ac), Back(bc, ac);
    var w1 := Work(|bc| - s - p, 0, 0, Remarks(bc[..p], ac[..p]));
    var w2 := Work(0, |ac[p..|ac| - s]|, 0, MarksIn(ac[p..|ac| - s]));
    var w3 := Remarking(Remarks(bc[|bc| - s..], ac[|ac| - s..]));
    AddsAnywhere(ops0, ops1, w1, 0, cursor);
    AddsThen(ops0, ops1, ops2, w1, w2, cursor);
    AddsAnywhere(ops2, ops3, w3, 0, cursor + w1.Plus(w2).Inserts());
    AddsThen(ops0, ops2, ops3, w1.Plus(w2), w3, cursor);
  }

  /** A live place of the region, in the finished block. */
  lemma PieceAt(mid: seq<Spot>, news: seq<Option<Live>>, q: nat, lives: seq<Live>, rank: nat)
    requires |news| == |Shown(mid)| && q <= |mid| && rank < |news|
    ensures var i := LivePlaces(mid)[rank];
            && i < |mid| && Past(i, q, |lives|) < |mid| + |lives|
            && Piece(mid, news, q, lives)[Past(i, q, |lives|)] == SpotAs(mid[i], news[rank])
  {
    hide Shown, Rewritten, LivePlaces, SpotAs;
    PlaceOfRank(mid, rank);
    RewriteAt(mid, news, LivePlaces(mid)[rank], None);
  }

  /** What is kept of a block stands, under its old identity, in the finished one. */
  lemma KeptStand(ops: seq<Edit>, done: seq<Spot>, mid: seq<Spot>, bc: seq<VisibleChar>, ac: seq<VisibleChar>,
                  indices: seq<nat>, at: nat, head: seq<Live>, contentStart: nat, q: nat)
    requires Frame(mid, |head|, bc, at, indices, contentStart) && |Shown(mid)| == |head| + |bc| && |indices| == |bc|
    requires q <= |mid|
    requires Widens(ops, at, |done|, q, |ac| - Front(bc, ac) - Back(bc, ac))
    ensures var p, s := Front(bc, ac), Back(bc, ac);
            var piece := Piece(mid, News(head, bc, ac, s, p, p, s), q, FlatChars(ac[p..|ac| - s]));
            && CharsStand(ops, done + piece, indices, bc, ac)
            && (|head| > 0 ==> Stands(ops, done + piece, at + LivePlaces(mid)[0], head[0]))
  {
    hide Shown, LivePlaces, Moved, Front, Back, Piece, News, FlatChars;
    var p, s := Front(bc, ac), Back(bc, ac);
    var lives, news := FlatChars(ac[p..|ac| - s]), News(head, bc, ac, s, p, p, s);
    var piece := Piece(mid, news, q, lives);
    forall c | 0 <= c < p ensures Stands(ops, done + piece, indices[c], CharLive(ac[c])) {
      NewsAt(head, bc, ac, s, p, c);
      PieceStandsAt(ops, done, mid, news, q, lives, at, |head| + c, CharLive(ac[c]));
    }
    forall c | |bc| - s <= c < |bc| ensures Stands(ops, done + piece, indices[c], CharLive(ac[|ac| - |bc| + c])) {
      NewsAt(head, bc, ac, s, p, c);
      PieceStandsAt(ops, done, mid, news, q, lives, at, |head| + c, CharLive(ac[|ac| - |bc| + c]));
    }
    if |head| > 0 {
      HeadNews(head, bc, ac, s, p);
      PieceStandsAt(ops, done, mid, news, q, lives, at, 0, head[0]);
    }
  }

  lemma PieceStandsAt(ops: seq<Edit>, done: seq<Spot>, mid: seq<Spot>, news: seq<Option<Live>>, q: nat,
                      lives: seq<Live>, at: nat, rank: nat, x: Live)
    requires |news| == |Shown(mid)| && q <= |mid| && rank < |news| && news[rank] == Some(x)
    requires Widens(ops, at, |done|, q, |lives|)
    ensures Stands(ops, done + Piece(mid, news, q, lives), at + LivePlaces(mid)[rank], x)
  {
    hide Shown, LivePlaces, Moved, Piece;
    PieceAt(mid, news, q, lives, rank);
    assert Moved(ops, at + LivePlaces(mid)[rank]) == |done| + Past(LivePlaces(mid)[rank], q, |lives|);
  }

  lemma NewsAt(head: seq<Live>, bc: seq<VisibleChar>, ac: seq<VisibleChar>, s: nat, p: nat, c: nat)
    requires s <= |bc| && s <= |ac| && p <= |ac| && p <= |bc| - s && c < |bc|
    ensures c < p ==> News(head, bc, ac, s, p, p, s)[|head| + c] == Some(CharLive(ac[c]))
    ensures |bc| - s <= c ==> News(head, bc, ac, s, p, p, s)[|head| + c] == Some(CharLive(ac[|ac| - |bc| + c]))
  {
  }

  lemma HeadNews(head: seq<Live>, bc: seq<VisibleChar>, ac: seq<VisibleChar>, s: nat, p: nat)
    requires |head| > 0 && s <= |bc| && s <= |ac| && p <= |ac|
    ensures News(head, bc, ac, s, p, p, s)[0] == Some(head[0])
  {
  }

  lemma AroundIs(done: seq<Spot>, r: seq<Spot>, q: nat, lives: seq<Live>, tail: seq<Spot>)
    requires q <= |r|
    ensures Around(done, r, q, lives, tail) == Written(done + r[..q], lives, r[q..] + tail)
  {
  }

  lemma StageIs(done: seq<Spot>, mid: seq<Spot>, news: seq<Option<Live>>, q: nat, lives: seq<Live>, tail: seq<Spot>)
    requires |news| == |Shown(mid)| && q <= |mid|
    ensures Stage(done, mid, news, q, lives, tail) == Around(done, Rewritten(mid, news), q, lives, tail)
  {
  }

  lemma MiddleWritable(reg: Registry, ac: seq<VisibleChar>, p: nat, s: nat)
    requires WritableChars(reg, ac) && p + s <= |ac|
    ensures WritableChars(reg, ac[p..|ac| - s])
  {
  }
}
