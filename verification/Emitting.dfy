/** Lists of local edits under construction: what the edits pushed so far make of
    the stream they are meant for (src/lib/crdt/adapter.ts). */
module Emitting {
  import opened Types
  import opened Visible
  import opened Network
  import opened Edits
  import opened Names
  import opened BlockSpots
  import opened Sessions
  import opened Rewriting
  import opened Tracking

  /** Every edit is playable in its turn, and together they give `spots`. */
  ghost predicate Emits(reg: Registry, orig: seq<Spot>, ops: seq<Edit>, spots: seq<Spot>) {
    AllPlayable(reg, orig, ops) && PlayAll(orig, ops) == spots
  }

  lemma EmitNone(reg: Registry, orig: seq<Spot>)
    ensures Emits(reg, orig, [], orig)
  {
  }

  lemma Emit(reg: Registry, orig: seq<Spot>, ops: seq<Edit>, spots: seq<Spot>, e: Edit)
    requires Emits(reg, orig, ops, spots) && Playable(reg, spots, e)
    ensures Emits(reg, orig, ops + [e], Play(spots, e))
  {
    hide Play, Playable;
    assert (ops + [e])[..|ops|] == ops;
  }

  // ---------------------------------------------------------------- attribute diffs

  /** The attributes after every name of either map has been brought to `new`. */
  function Changed(attrs: map<Bytes, Bytes>, was: map<Bytes, Bytes>, goal: map<Bytes, Bytes>): map<Bytes, Bytes> {
    (attrs - (was.Keys + goal.Keys)) + goal
  }

  ghost function Partly(attrs: map<Bytes, Bytes>, goal: map<Bytes, Bytes>, names: seq<Bytes>): map<Bytes, Bytes> {
    (attrs - (set name | name in names)) + Chosen(goal, names)
  }

  predicate NamesAll(reg: Registry, kind: ItemKind, attrs: map<Bytes, Bytes>) {
    forall name :: name in attrs ==> reg.names(kind, name)
  }

  ghost predicate Holds(attrs: map<Bytes, Bytes>, was: map<Bytes, Bytes>, name: Bytes) {
    ValueOf(attrs, name) == ValueOf(was, name)
  }

  lemma PartlyNone(attrs: map<Bytes, Bytes>, goal: map<Bytes, Bytes>, names: seq<Bytes>)
    ensures Partly(attrs, goal, names[..0]) == attrs
  {
  }

  lemma SameValues(a: map<Bytes, Bytes>, b: map<Bytes, Bytes>)
    requires forall name :: ValueOf(a, name) == ValueOf(b, name)
    ensures a == b
  {
    forall name ensures name in a <==> name in b {
      assert ValueOf(a, name) == ValueOf(b, name);
    }
    forall name | name in a ensures a[name] == b[name] {
      assert ValueOf(a, name) == ValueOf(b, name);
    }
  }

  lemma PartlyAt(attrs: map<Bytes, Bytes>, goal: map<Bytes, Bytes>, names: seq<Bytes>, name: Bytes)
    ensures ValueOf(Partly(attrs, goal, names), name) == if name in names then ValueOf(goal, name)
                                                         else ValueOf(attrs, name)
  {
  }

  function SetOrClear(attrs: map<Bytes, Bytes>, name: Bytes, value: Option<Bytes>): map<Bytes, Bytes> {
    if value.Some? then attrs[name := value.value] else attrs - {name}
  }

  lemma PartlyNext(attrs: map<Bytes, Bytes>, was: map<Bytes, Bytes>, goal: map<Bytes, Bytes>,
                                      names: seq<Bytes>, k: int)
    requires 0 <= k < |names| && Holds(attrs, was, names[k])
    ensures var name, now := names[k], Partly(attrs, goal, names[..k]);
            Partly(attrs, goal, names[..k + 1]) ==
            if ValueOf(was, name) == ValueOf(goal, name) then now else SetOrClear(now, name, ValueOf(goal, name))
  {
    hide Partly;
    var name, now, next := names[k], Partly(attrs, goal, names[..k]), Partly(attrs, goal, names[..k + 1]);
    assert names[..k + 1] == names[..k] + [name];
    forall x
      ensures ValueOf(next, x) == ValueOf(SetOrClear(now, name, ValueOf(goal, name)), x)
      ensures ValueOf(was, name) == ValueOf(goal, name) ==> ValueOf(next, x) == ValueOf(now, x)
    {
      PartlyAt(attrs, goal, names[..k], x);
      PartlyAt(attrs, goal, names[..k + 1], x);
    }
    SameValues(next, SetOrClear(now, name, ValueOf(goal, name)));
    if ValueOf(was, name) == ValueOf(goal, name) { SameValues(next, now); }
  }

  lemma PartlyAll(attrs: map<Bytes, Bytes>, was: map<Bytes, Bytes>, goal: map<Bytes, Bytes>, names: seq<Bytes>)
    requires forall name :: name in names <==> name in was.Keys + goal.Keys
    ensures Partly(attrs, goal, names) == Changed(attrs, was, goal)
  {
  }

  lemma MarkOk(reg: Registry, spots: seq<Spot>, position: nat, x: Live, name: Bytes, value: Option<Bytes>)
    requires Consistent(reg) && position < |spots| && spots[position] == Spot(true, x)
    requires if value.Some? then reg.values(x.kind, name, value.value) else reg.names(x.kind, name)
    ensures Playable(reg, spots, Mark(position, name, value))
    ensures Play(spots, Mark(position, name, value)) == spots[position := Spot(true, Attributed(x, name, value))]
  {
  }

  lemma NameNew(names: seq<Bytes>, k: nat)
    requires Ascending(names) && k < |names|
    ensures names[k] !in names[..k]
  {
    forall i | 0 <= i < k ensures names[i] != names[k] {
      LessAntisymmetric(names[i], names[k]);
    }
  }

  /** One name: a write if its value differs. */
  method PushChange(ghost reg: Registry, ghost orig: seq<Spot>, ops0: seq<Edit>, position: nat, was: map<Bytes, Bytes>,
                    goal: map<Bytes, Bytes>, name: Bytes, ghost spots: seq<Spot>, ghost x: Live)
      returns (ops: seq<Edit>, ghost y: Live)
    requires Consistent(reg) && position < |spots| && Emits(reg, orig, ops0, spots[position := Spot(true, x)])
    requires name in was.Keys + goal.Keys && AllowsAll(reg, x.kind, goal) && NamesAll(reg, x.kind, was)
    ensures y == if ValueOf(was, name) == ValueOf(goal, name) then x
                 else x.(attrs := SetOrClear(x.attrs, name, ValueOf(goal, name)))
    ensures Emits(reg, orig, ops, spots[position := Spot(true, y)])
    ensures ops == if ValueOf(was, name) == ValueOf(goal, name) then ops0
                   else ops0 + [Mark(position, name, ValueOf(goal, name))]
  {
    hide Emits, Playable, Play, Consistent;
    ops, y := ops0, x;
    if ValueOf(was, name) != ValueOf(goal, name) {
      var e := Mark(position, name, ValueOf(goal, name));
      ghost var now := spots[position := Spot(true, x)];
      MarkOk(reg, now, position, x, name, ValueOf(goal, name));
      Emit(reg, orig, ops, now, e);
      ops := ops + [e];
      y := Attributed(x, name, ValueOf(goal, name));
      assert now[position := Spot(true, y)] == spots[position := Spot(true, y)];
    }
  }

  lemma MarkAdds(ops0: seq<Edit>, ops1: seq<Edit>, ops2: seq<Edit>, was: map<Bytes, Bytes>, goal: map<Bytes, Bytes>,
                 name: Bytes, marked: nat, position: nat)
    requires Adds(ops0, ops1, Remarking(marked), position)
    requires ops2 == if ValueOf(was, name) == ValueOf(goal, name) then ops1
                     else ops1 + [Mark(position, name, ValueOf(goal, name))]
    ensures Adds(ops0, ops2, Remarking(marked + if ValueOf(was, name) != ValueOf(goal, name) then 1 else 0), position)
  {
    hide Adds, ValueOf;
    if ValueOf(was, name) != ValueOf(goal, name) {
      AddsEdit(ops0, ops1, Mark(position, name, ValueOf(goal, name)), Remarking(marked), position);
    }
  }

  /** One write for every name whose value differs between the two maps. */
  method PushChanges(ghost reg: Registry, ghost orig: seq<Spot>, ops0: seq<Edit>, position: nat, was: map<Bytes, Bytes>,
                     goal: map<Bytes, Bytes>, ghost spots: seq<Spot>, ghost x: Live)
      returns (ops: seq<Edit>)
    requires Consistent(reg) && Emits(reg, orig, ops0, spots) && position < |spots| && spots[position] == Spot(true, x)
    requires forall name :: name in was.Keys + goal.Keys ==> Holds(x.attrs, was, name)
    requires AllowsAll(reg, x.kind, goal) && NamesAll(reg, x.kind, was)
    ensures Emits(reg, orig, ops, spots[position := Spot(true, x.(attrs := Changed(x.attrs, was, goal)))])
    ensures Adds(ops0, ops, Remarking(|Differing(was, goal)|), position)
  {
    hide Emits, Partly, Consistent, SortedNames, Holds, Changed, Adds, Differing, DifferingOf, ValueOf, Ascending;
    var names, k := SortedNames(was.Keys + goal.Keys), 0;
    ops := ops0;
    DifferingAll(was, goal, names);
    AddsNothing(ops, position);
    PartlyNone(x.attrs, goal, names);
    ghost var now := x;
    assert spots[position := Spot(true, now)] == spots;
    while k < |names|
      invariant 0 <= k <= |names| && now == x.(attrs := Partly(x.attrs, goal, names[..k]))
      invariant Emits(reg, orig, ops, spots[position := Spot(true, now)])
      invariant Adds(ops0, ops, Remarking(|DifferingOf(was, goal, names[..k])|), position)
    {
      assert names[k] in names;
      NameNew(names, k);
      PartlyNext(x.attrs, was, goal, names, k);
      DifferingNext(was, goal, names, k);
      ghost var ops1 := ops;
      ops, now := PushChange(reg, orig, ops, position, was, goal, names[k], spots, now);
      MarkAdds(ops0, ops1, ops, was, goal, names[k], |DifferingOf(was, goal, names[..k])|, position);
      k := k + 1;
    }
    assert names[..k] == names;
    PartlyAll(x.attrs, was, goal, names);
  }

  // -------------------------------------------------------------------- characters

  lemma ChangedFresh(goal: map<Bytes, Bytes>)
    ensures Changed(map[], map[], goal) == goal
  {
  }

  /** A new character with its marks. */
  method PushChar(ghost reg: Registry, ghost orig: seq<Spot>, ops0: seq<Edit>, ch: VisibleChar, cursor: nat,
                  ghost before: seq<Spot>, ghost lives: seq<Live>, ghost behind: seq<Spot>) returns (ops: seq<Edit>)
    requires Consistent(reg) && ValidScalar(ch.scalar) && AllowsAll(reg, Text, ch.marks)
    requires Emits(reg, orig, ops0, Written(before, lives, behind)) && cursor == |before| + |lives|
    ensures Emits(reg, orig, ops, Written(before, lives + [Live(Text, ch.scalar, ch.marks)], behind))
    ensures Adds(ops0, ops, Work(0, 1, 0, |ch.marks|), cursor)
  {
    hide Emits, Written, Playable, Play, Consistent, Changed, Adds, Differing;
    var e := TypeText(cursor, ch.scalar);
    ghost var x := Live(Text, ch.scalar, map[]);
    TextPlayable(reg, before, lives, behind, ch.scalar);
    Emit(reg, orig, ops0, Written(before, lives, behind), e);
    ChangeLast(before, lives, behind, x, Live(Text, ch.scalar, ch.marks));
    ChangedFresh(ch.marks);
    ops := PushChanges(reg, orig, ops0 + [e], cursor, map[], ch.marks, Written(before, lives + [x], behind), x);
    AddsOne(ops0, e);
    AllDiffer(ch.marks);
    AddsAnywhere(ops0 + [e], ops, Remarking(|ch.marks|), cursor, cursor + 1);
    AddsThen(ops0, ops0 + [e], ops, Work(0, 1, 0, 0), Remarking(|ch.marks|), cursor);
  }

  lemma WrittenSplit(before: seq<Spot>, a: seq<Live>, b: seq<Live>, behind: seq<Spot>)
    ensures Written(before, a + b, behind) == Written(before, a, LiveSpots(b) + behind)
  {
    assert LiveSpots(a + b) == LiveSpots(a) + LiveSpots(b);
  }

  function MarksIn(chars: seq<VisibleChar>): nat {
    if |chars| == 0 then 0 else MarksIn(chars[..|chars| - 1]) + |chars[|chars| - 1].marks|
  }

  lemma MarksNext(chars: seq<VisibleChar>, k: nat)
    requires k < |chars|
    ensures MarksIn(chars[..k + 1]) == MarksIn(chars[..k]) + |chars[k].marks|
  {
    assert chars[..k + 1][..k] == chars[..k];
  }

  lemma MarksNone(chars: seq<VisibleChar>)
    ensures MarksIn(chars[..0]) == 0
  {
  }

  /** A run of new characters; the cursor and the shift advance with each. */
  method PushChars(ghost reg: Registry, ghost orig: seq<Spot>, ops0: seq<Edit>, chars: seq<VisibleChar>, cursor0: nat,
                   shift0: nat, ghost before: seq<Spot>, ghost lives: seq<Live>, ghost behind: seq<Spot>)
    returns (ops: seq<Edit>, cursor: nat, shift: nat)
    requires Consistent(reg) && WritableChars(reg, chars)
    requires Emits(reg, orig, ops0, Written(before, lives, behind)) && cursor0 == |before| + |lives|
    ensures Emits(reg, orig, ops, Written(before, lives + FlatChars(chars), behind))
    ensures cursor == cursor0 + |chars| && shift == shift0 + |chars|
    ensures Adds(ops0, ops, Work(0, |chars|, 0, MarksIn(chars)), cursor0)
  {
    hide Emits, Written, Consistent, AllowsAll, FlatChars, Adds, MarksIn;
    ops, cursor, shift := ops0, cursor0, shift0;
    var k := 0;
    NoChars(chars, lives);
    MarksNone(chars);
    AddsNothing(ops, cursor0);
    while k < |chars|
      invariant 0 <= k <= |chars| && cursor == cursor0 + k && shift == shift0 + k
      invariant Emits(reg, orig, ops, Written(before, lives + FlatChars(chars[..k]), behind))
      invariant Adds(ops0, ops, Work(0, k, 0, MarksIn(chars[..k])), cursor0)
    {
      CharsNext(chars, k);
      MarksNext(chars, k);
      ghost var ops1 := ops;
      ops := PushChar(reg, orig, ops, chars[k], cursor, before, lives + FlatChars(chars[..k]), behind);
      assert lives + FlatChars(chars[..k]) + [Live(Text, chars[k].scalar, chars[k].marks)]
             == lives + FlatChars(chars[..k + 1]);
      AddsThen(ops0, ops1, ops, Work(0, k, 0, MarksIn(chars[..k])), Work(0, 1, 0, |chars[k].marks|), cursor0);
      cursor, shift, k := cursor + 1, shift + 1, k + 1;
    }
    assert chars[..k] == chars;
  }

  lemma DelimiterChanged(block: VisibleBlock)
    requires TYPE_NAME !in block.attrs
    ensures Changed(map[TYPE_NAME := block.blockType], map[], block.attrs)
            == map[TYPE_NAME := block.blockType] + block.attrs
  {
  }

  /** A new block: its delimiter, its characters, all their attributes. */
  function NewBlockWork(block: VisibleBlock): Work {
    Work(0, |block.chars|, 1, MarksIn(block.chars) + |block.attrs|)
  }

  /** insertWholeBlock: delimiter, characters, then the delimiter's attributes. */
  method InsertWholeBlock(ghost reg: Registry, ghost orig: seq<Spot>, ops0: seq<Edit>, block: VisibleBlock,
                          cursor0: nat, shift0: nat, ghost before: seq<Spot>, ghost lives: seq<Live>,
                          ghost behind: seq<Spot>)
    returns (ops: seq<Edit>, cursor: nat, shift: nat)
    requires Consistent(reg) && Writable(reg, block)
    requires Emits(reg, orig, ops0, Written(before, lives, behind)) && cursor0 == |before| + |lives|
    ensures Emits(reg, orig, ops, Written(before, lives + Flat(block), behind))
    ensures cursor == cursor0 + 1 + |block.chars| && shift == shift0 + 1 + |block.chars|
    ensures Adds(ops0, ops, NewBlockWork(block), cursor0)
  {
    hide Emits, Written, Playable, Play, Consistent, AllowsAll, WritableChars, FlatChars, Changed, Adds, Differing,
         MarksIn;
    var e := TypeDelimiter(cursor0, block.blockType);
    ghost var d := Live(Delimiter, 0, map[TYPE_NAME := block.blockType]);
    DelimiterPlayable(reg, before, lives, behind, block.blockType);
    Emit(reg, orig, ops0, Written(before, lives, behind), e);
    ops, cursor, shift := PushChars(reg, orig, ops0 + [e], block.chars, cursor0 + 1, shift0 + 1, before, lives + [d],
                                    behind);
    ghost var rest := LiveSpots(FlatChars(block.chars)) + behind;
    ghost var goal := Live(Delimiter, 0, map[TYPE_NAME := block.blockType] + block.attrs);
    WrittenSplit(before, lives + [d], FlatChars(block.chars), behind);
    ChangeLast(before, lives, rest, d, goal);
    DelimiterChanged(block);
    ghost var ops1 := ops;
    ops := PushChanges(reg, orig, ops, cursor0, map[], block.attrs, Written(before, lives + [d], rest), d);
    WrittenSplit(before, lives + [goal], FlatChars(block.chars), behind);
    assert lives + [goal] + FlatChars(block.chars) == lives + Flat(block);
    NewBlockAdds(ops0, ops1, ops, e, block, cursor0);
  }

  lemma NewBlockAdds(ops0: seq<Edit>, ops1: seq<Edit>, ops2: seq<Edit>, e: Edit, block: VisibleBlock, at: nat)
    requires e.TypeDelimiter? && e.index == at
    requires Adds(ops0 + [e], ops1, Work(0, |block.chars|, 0, MarksIn(block.chars)), at + 1)
    requires Adds(ops1, ops2, Remarking(|Differing(map[], block.attrs)|), at)
    ensures Adds(ops0, ops2, NewBlockWork(block), at)
  {
    hide Adds, Differing, MarksIn;
    var w, marks := Work(0, |block.chars|, 0, MarksIn(block.chars)), Remarking(|block.attrs|);
    AddsOne(ops0, e);
    AddsThen(ops0, ops0 + [e], ops1, Work(0, 0, 1, 0), w, at);
    AllDiffer(block.attrs);
    AddsAnywhere(ops1, ops2, marks, at, at + 1 + |block.chars|);
    AddsThen(ops0, ops1, ops2, Work(0, 0, 1, 0).Plus(w), marks, at);
  }

  // --------------------------------------------------------- inside one block's region

  /** A region `r` of the stream, split at `q` by newly written items. */
  function Around(done: seq<Spot>, r: seq<Spot>, q: nat, lives: seq<Live>, tail: seq<Spot>): (s: seq<Spot>)
    requires q <= |r|
    ensures |s| == |done| + |r| + |lives| + |tail|
  {
    Written(done + r[..q], lives, r[q..] + tail)
  }

  lemma AroundAt(done: seq<Spot>, r: seq<Spot>, q: nat, lives: seq<Live>, tail: seq<Spot>, i: nat, y: Spot)
    requires q <= i < |r|
    ensures Around(done, r, q, lives, tail)[|done| + |lives| + i] == r[i]
    ensures Around(done, r, q, lives, tail)[|done| + |lives| + i := y] == Around(done, r[i := y], q, lives, tail)
  {
    assert r[i := y][..q] == r[..q];
    assert r[i := y][q..] == r[q..][i - q := y];
  }

  /** The split point does not matter while nothing is written there. */
  lemma AroundMoves(done: seq<Spot>, r: seq<Spot>, q: nat, tail: seq<Spot>)
    requires q <= |r|
    ensures Around(done, r, q, [], tail) == done + r + tail
  {
    assert LiveSpots([]) == [];
    assert r == r[..q] + r[q..];
  }

  /** Bring the marks of the `rank`-th live item of a region to their goal. */
  method RemarkItem(ghost reg: Registry, ghost orig: seq<Spot>, ops0: seq<Edit>, position: nat, was: map<Bytes, Bytes>,
                    goal: map<Bytes, Bytes>, ghost done: seq<Spot>, ghost mid: seq<Spot>, ghost news: seq<Option<Live>>,
                    ghost q: nat, ghost lives: seq<Live>, ghost tail: seq<Spot>, ghost rank: nat, ghost x: Live)
      returns (ops: seq<Edit>)
    requires Consistent(reg) && |news| == |Shown(mid)| && q <= |mid| && rank < |news| && news[rank] == Some(x)
    requires Emits(reg, orig, ops0, Around(done, Rewritten(mid, news), q, lives, tail))
    requires q <= LivePlaces(mid)[rank] && position == |done| + |lives| + LivePlaces(mid)[rank]
    requires forall name :: name in was.Keys + goal.Keys ==> Holds(x.attrs, was, name)
    requires AllowsAll(reg, x.kind, goal) && NamesAll(reg, x.kind, was)
    ensures Emits(reg, orig, ops,
                  Around(done, Rewritten(mid, news[rank := Some(x.(attrs := Changed(x.attrs, was, goal)))]), q, lives,
                         tail))
    ensures Adds(ops0, ops, Remarking(|Differing(was, goal)|), position)
  {
    hide Emits, Around, Consistent, AllowsAll, NamesAll, Holds, Changed, Rewritten, Shown, LivePlaces, Adds, Differing;
    PlaceOfRank(mid, rank);
    ghost var i := LivePlaces(mid)[rank];
    ghost var y := x.(attrs := Changed(x.attrs, was, goal));
    RewriteAt(mid, news, i, Some(y));
    AroundAt(done, Rewritten(mid, news), q, lives, tail, i, Spot(true, y));
    ops := PushChanges(reg, orig, ops0, position, was, goal, Around(done, Rewritten(mid, news), q, lives, tail), x);
  }

  lemma EraseOk(reg: Registry, spots: seq<Spot>, position: nat)
    requires position < |spots|
    ensures Playable(reg, spots, Erase(position))
            && Play(spots, Erase(position)) == spots[position := spots[position].(live := false)]
  {
  }

  /** Delete the `rank`-th live item of a region, still as it was. */
  method EraseItem(ghost reg: Registry, ghost orig: seq<Spot>, ops0: seq<Edit>, position: nat, ghost done: seq<Spot>,
                   ghost mid: seq<Spot>, ghost news: seq<Option<Live>>, ghost tail: seq<Spot>, ghost rank: nat)
      returns (ops: seq<Edit>)
    requires |news| == |Shown(mid)| && rank < |news| && news[rank] == Some(Shown(mid)[rank])
    requires Emits(reg, orig, ops0, Around(done, Rewritten(mid, news), 0, [], tail))
    requires position == |done| + LivePlaces(mid)[rank]
    ensures Emits(reg, orig, ops, Around(done, Rewritten(mid, news[rank := None]), 0, [], tail))
    ensures Adds(ops0, ops, Erasing(1), position)
  {
    hide Adds, Emits, Around, Rewritten, Shown, LivePlaces, Playable, Play;
    PlaceOfRank(mid, rank);
    ghost var i := LivePlaces(mid)[rank];
    ghost var spots := Around(done, Rewritten(mid, news), 0, [], tail);
    RewriteAt(mid, news, i, None);
    AroundAt(done, Rewritten(mid, news), 0, [], tail, i, mid[i].(live := false));
    EraseOk(reg, spots, position);
    Emit(reg, orig, ops0, spots, Erase(position));
    ops := ops0 + [Erase(position)];
    AddsOne(ops0, Erase(position));
    assert spots[position] == mid[i];
  }
}
