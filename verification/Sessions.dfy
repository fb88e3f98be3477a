/** Writing into a document through local edits: hiding a range of places, typing
    whole blocks, setting their attributes. */
module Sessions {
  import opened Types
  import opened Order
  import opened State
  import opened Visible
  import opened Network
  import opened Edits
  import opened Names
  import opened BlockSpots

  /** `target` is what the edits of `script` made of `start`; `spots` is its stream. */
  ghost predicate Session(reg: Registry, start: Doc, script: seq<Edit>, target: Doc, spots: seq<Spot>) {
    && Editable(target) && target.self == start.self && target == PerformAll(reg, start, script)
    && Spots(target.stream) == spots
    && start.nextCounter <= target.nextCounter <= start.nextCounter + |script|
  }

  lemma PerformNext(reg: Registry, start: Doc, script: seq<Edit>, e: Edit)
    ensures PerformAll(reg, start, script + [e]) == Perform(reg, PerformAll(reg, start, script), e).0
  {
    assert (script + [e])[..|script|] == script;
  }

  lemma PerformExhausted(reg: Registry, d: Doc, e: Edit)
    requires Exhausted(d) && Playable(reg, Spots(d.stream), e) && (e.Erase? ==> Spots(d.stream)[e.index].live)
    requires Consistent(reg)
    ensures Perform(reg, d, e).1 == Err(CounterOverflow)
  {
  }

  /** One local edit; it fails only when the identity counter is used up. */
  method Do(reg: Registry, ghost start: Doc, target: Doc, e: Edit, ghost script: seq<Edit>, ghost spots: seq<Spot>)
    returns (r: Result<Doc>)
    requires Consistent(reg) && Session(reg, start, script, target, spots)
    requires Playable(reg, spots, e) && (e.Erase? ==> spots[e.index].live)
    ensures r.Ok? ==> Session(reg, start, script + [e], r.value, Play(spots, e))
    ensures r.Err? ==> r.code == CounterOverflow && start.nextCounter + |script| >= MAX_COUNTER
  {
    hide Perform, Editable, Play, Playable;
    PerformNext(reg, start, script, e);
    var (next, result) := Perform(reg, target, e);
    if Exhausted(target) {
      PerformExhausted(reg, target, e);
    } else {
      ghost var d' := PerformPlays(reg, target, e);
    }
    if result.Err? {
      return Err(result.code);
    }
    return Ok(next);
  }

  // ---------------------------------------------------------------------- hiding

  lemma HiddenNext(sp: seq<Spot>, from: nat, i: nat)
    requires from <= i < |sp|
    ensures Hidden(sp, from, i)[i] == sp[i]
    ensures sp[i].live ==> Play(Hidden(sp, from, i), Erase(i)) == Hidden(sp, from, i + 1)
    ensures !sp[i].live ==> Hidden(sp, from, i) == Hidden(sp, from, i + 1)
    ensures |Shown(sp[from..i + 1])| == |Shown(sp[from..i])| + (if sp[i].live then 1 else 0)
  {
    assert sp[from..i + 1][..i - from] == sp[from..i];
  }

  lemma HiddenNone(sp: seq<Spot>, from: nat)
    requires from <= |sp|
    ensures Hidden(sp, from, from) == sp && Shown(sp[from..from]) == []
  {
  }

  /** Delete every live item from `from` up to `to`. */
  method HideRange(reg: Registry, ghost start: Doc, target0: Doc, from: nat, to: nat, ghost script0: seq<Edit>,
                   ghost sp: seq<Spot>)
    returns (r: Result<Doc>, ghost script: seq<Edit>)
    requires Consistent(reg) && Session(reg, start, script0, target0, sp) && from <= to <= |sp|
    ensures |script| <= |script0| + |Shown(sp[from..to])|
    ensures r.Ok? ==>
              Session(reg, start, script, r.value, Hidden(sp, from, to))
                && |script| == |script0| + |Shown(sp[from..to])|
    ensures r.Err? ==> r.code == CounterOverflow && start.nextCounter + |script| >= MAX_COUNTER
  {
    hide Session, Play, Hidden, Shown;
    var target, i := target0, from;
    script := script0;
    HiddenNone(sp, from);
    while i < to
      invariant from <= i <= to
      invariant Session(reg, start, script, target, Hidden(sp, from, i))
      invariant |script| == |script0| + |Shown(sp[from..i])|
    {
      HiddenNext(sp, from, i);
      ShownLess(sp, from, i, to);
      SessionStream(reg, start, script, target, Hidden(sp, from, i));
      if !target.stream[i].tombstoned {
        r := Do(reg, start, target, Erase(i), script, Hidden(sp, from, i));
        if r.Err? {
          return;
        }
        target := r.value;
        script := script + [Erase(i)];
      }
      i := i + 1;
    }
    r := Ok(target);
  }

  lemma ShownLess(sp: seq<Spot>, from: nat, i: nat, to: nat)
    requires from <= i <= to <= |sp|
    ensures |Shown(sp[from..i])| <= |Shown(sp[from..to])|
  {
    assert sp[from..to] == sp[from..i] + sp[i..to];
    ShownConcat(sp[from..i], sp[i..to]);
  }

  lemma SessionStream(reg: Registry, start: Doc, script: seq<Edit>, target: Doc, spots: seq<Spot>)
    requires Session(reg, start, script, target, spots)
    ensures |target.stream| == |spots|
    ensures forall i :: 0 <= i < |spots| ==>
              spots[i].live == !target.stream[i].tombstoned && spots[i] == SpotOf(target.stream[i])
  {
    hide Editable, PerformAll;
  }

  // ---------------------------------------------------------------------- writing

  /** New live items between what stands before and behind them. */
  function Written(before: seq<Spot>, lives: seq<Live>, behind: seq<Spot>): (r: seq<Spot>)
    ensures |r| == |before| + |lives| + |behind|
  {
    before + LiveSpots(lives) + behind
  }

  lemma WriteItem(before: seq<Spot>, lives: seq<Live>, behind: seq<Spot>, x: Live)
    ensures InsertAt(Written(before, lives, behind), |before| + |lives|, Spot(true, x))
            == Written(before, lives + [x], behind)
  {
    assert LiveSpots(lives + [x]) == LiveSpots(lives) + [Spot(true, x)];
  }

  lemma ChangeLast(before: seq<Spot>, lives: seq<Live>, behind: seq<Spot>, x: Live, y: Live)
    ensures var at := |before| + |lives|;
            && Written(before, lives + [x], behind)[at] == Spot(true, x)
            && Written(before, lives + [x], behind)[at := Spot(true, y)] == Written(before, lives + [y], behind)
  {
    assert LiveSpots(lives + [x]) == LiveSpots(lives) + [Spot(true, x)];
    assert LiveSpots(lives + [y]) == LiveSpots(lives) + [Spot(true, y)];
  }

  predicate AllowsAll(reg: Registry, kind: ItemKind, attrs: map<Bytes, Bytes>) {
    forall name :: name in attrs ==> reg.values(kind, name, attrs[name])
  }

  function Chosen(attrs: map<Bytes, Bytes>, names: seq<Bytes>): map<Bytes, Bytes> {
    map name | name in attrs && name in names :: attrs[name]
  }

  lemma ChosenNext(attrs: map<Bytes, Bytes>, names: seq<Bytes>, k: int, base: map<Bytes, Bytes>)
    requires 0 <= k < |names| && names[k] in attrs
    ensures (base + Chosen(attrs, names[..k]))[names[k] := attrs[names[k]]] == base + Chosen(attrs, names[..k + 1])
  {
    assert names[..k + 1] == names[..k] + [names[k]];
  }

  lemma ChosenNone(attrs: map<Bytes, Bytes>, names: seq<Bytes>, base: map<Bytes, Bytes>)
    ensures base + Chosen(attrs, names[..0]) == base
  {
  }

  lemma ChosenAll(attrs: map<Bytes, Bytes>, names: seq<Bytes>)
    requires forall name :: name in names <==> name in attrs
    ensures Chosen(attrs, names) == attrs
  {
  }

  lemma MarkPlayable(reg: Registry, before: seq<Spot>, lives: seq<Live>, behind: seq<Spot>, x: Live, name: Bytes,
                     value: Bytes)
    requires Consistent(reg) && reg.values(x.kind, name, value)
    ensures Playable(reg, Written(before, lives + [x], behind), Mark(|before| + |lives|, name, Some(value)))
    ensures Play(Written(before, lives + [x], behind), Mark(|before| + |lives|, name, Some(value))) ==
            Written(before, lives + [x.(attrs := x.attrs[name := value])], behind)
  {
    hide Written;
    ChangeLast(before, lives, behind, x, x.(attrs := x.attrs[name := value]));
  }

  /** Set all given attributes on the item just written. */
  method WriteMarks(reg: Registry, ghost start: Doc, target0: Doc, attrs: map<Bytes, Bytes>, position: nat,
                    ghost before: seq<Spot>, ghost lives: seq<Live>, ghost x: Live, ghost behind: seq<Spot>,
                    ghost script0: seq<Edit>)
    returns (r: Result<Doc>, ghost script: seq<Edit>)
    requires Consistent(reg) && AllowsAll(reg, x.kind, attrs) && position == |before| + |lives|
    requires Session(reg, start, script0, target0, Written(before, lives + [x], behind))
    ensures |script| <= |script0| + |attrs|
    ensures r.Ok? ==>
              Session(reg, start, script, r.value, Written(before, lives + [x.(attrs := x.attrs + attrs)], behind))
                      && |script| == |script0| + |attrs|
    ensures r.Err? ==> r.code == CounterOverflow && start.nextCounter + |script| >= MAX_COUNTER
  {
    hide Session, Written, Chosen, Playable, Play, Consistent, SortedNames;
    var names := SortedNames(attrs.Keys);
    assert |attrs.Keys| == |attrs|;
    var target, k := target0, 0;
    script := script0;
    ghost var now := x;
    ChosenNone(attrs, names, x.attrs);
    while k < |names|
      invariant 0 <= k <= |names| && |script| == |script0| + k
      invariant now == x.(attrs := x.attrs + Chosen(attrs, names[..k]))
      invariant Session(reg, start, script, target, Written(before, lives + [now], behind))
    {
      assert names[k] in names;
      ghost var next := now.(attrs := now.attrs[names[k] := attrs[names[k]]]);
      ChosenNext(attrs, names, k, x.attrs);
      MarkPlayable(reg, before, lives, behind, now, names[k], attrs[names[k]]);
      r := Do(reg, start, target, Mark(position, names[k], Some(attrs[names[k]])), script,
              Written(before, lives + [now], behind));
      if r.Err? {
        return;
      }
      target := r.value;
      script := script + [Mark(position, names[k], Some(attrs[names[k]]))];
      now := next;
      k := k + 1;
    }
    assert names[..k] == names;
    ChosenAll(attrs, names);
    r := Ok(target);
  }

  predicate WritableChars(reg: Registry, chars: seq<VisibleChar>) {
    forall i :: 0 <= i < |chars| ==> ValidScalar(chars[i].scalar) && AllowsAll(reg, Text, chars[i].marks)
  }

  /** A block local edits can write. */
  predicate Writable(reg: Registry, block: VisibleBlock) {
    && TYPE_NAME !in block.attrs && reg.values(Delimiter, TYPE_NAME, block.blockType)
    && AllowsAll(reg, Delimiter, block.attrs) && WritableChars(reg, block.chars)
  }

  lemma TextPlayable(reg: Registry, before: seq<Spot>, lives: seq<Live>, behind: seq<Spot>, scalar: nat)
    requires ValidScalar(scalar)
    ensures Playable(reg, Written(before, lives, behind), TypeText(|before| + |lives|, scalar))
    ensures Play(Written(before, lives, behind), TypeText(|before| + |lives|, scalar)) ==
            Written(before, lives + [Live(Text, scalar, map[])], behind)
  {
    hide Written;
    WriteItem(before, lives, behind, Live(Text, scalar, map[]));
  }

  lemma DelimiterPlayable(reg: Registry, before: seq<Spot>, lives: seq<Live>, behind: seq<Spot>, blockType: Bytes)
    requires reg.values(Delimiter, TYPE_NAME, blockType)
    ensures Playable(reg, Written(before, lives, behind), TypeDelimiter(|before| + |lives|, blockType))
    ensures Play(Written(before, lives, behind), TypeDelimiter(|before| + |lives|, blockType)) ==
            Written(before, lives + [Live(Delimiter, 0, map[TYPE_NAME := blockType])], behind)
  {
    hide Written;
    WriteItem(before, lives, behind, Live(Delimiter, 0, map[TYPE_NAME := blockType]));
  }

  function CharsCost(chars: seq<VisibleChar>): nat {
    if |chars| == 0 then 0 else CharsCost(chars[..|chars| - 1]) + 1 + |chars[|chars| - 1].marks|
  }

  /** The operations that writing blocks takes. */
  function WriteCost(blocks: seq<VisibleBlock>): nat {
    if |blocks| == 0 then 0
    else
      var b := blocks[|blocks| - 1];
      WriteCost(blocks[..|blocks| - 1]) + BlockCost(b)
  }

  function BlockCost(b: VisibleBlock): nat {
    1 + |b.attrs| + CharsCost(b.chars)
  }

  /** One character with its marks. */
  method WriteChar(reg: Registry, ghost start: Doc, target0: Doc, ch: VisibleChar, position: nat,
                   ghost before: seq<Spot>, ghost lives: seq<Live>, ghost behind: seq<Spot>, ghost script0: seq<Edit>)
    returns (r: Result<Doc>, ghost script: seq<Edit>)
    requires Consistent(reg) && ValidScalar(ch.scalar) && AllowsAll(reg, Text, ch.marks)
             && position == |before| + |lives|
    requires Session(reg, start, script0, target0, Written(before, lives, behind))
    ensures |script| <= |script0| + 1 + |ch.marks|
    ensures r.Ok? ==>
              Session(reg, start, script, r.value, Written(before, lives + [Live(Text, ch.scalar, ch.marks)], behind))
                      && |script| == |script0| + 1 + |ch.marks|
    ensures r.Err? ==> r.code == CounterOverflow && start.nextCounter + |script| >= MAX_COUNTER
  {
    hide Session, Written, Playable, Play, Consistent, AllowsAll;
    TextPlayable(reg, before, lives, behind, ch.scalar);
    var typed := Do(reg, start, target0, TypeText(position, ch.scalar), script0, Written(before, lives, behind));
    if typed.Err? {
      return typed, script0;
    }
    script := script0 + [TypeText(position, ch.scalar)];
    r, script := WriteMarks(reg, start, typed.value, ch.marks, position, before, lives, Live(Text, ch.scalar, map[]),
                            behind, script);
    assert map[] + ch.marks == ch.marks;
  }

  lemma CharsNext(chars: seq<VisibleChar>, k: int)
    requires 0 <= k < |chars|
    ensures FlatChars(chars[..k + 1]) == FlatChars(chars[..k]) + [Live(Text, chars[k].scalar, chars[k].marks)]
    ensures CharsCost(chars[..k + 1]) == CharsCost(chars[..k]) + 1 + |chars[k].marks|
  {
    assert chars[..k + 1][..k] == chars[..k];
  }

  lemma {:induction false} CharsCostGrows(chars: seq<VisibleChar>, k: int)
    requires 0 <= k <= |chars|
    ensures CharsCost(chars[..k]) <= CharsCost(chars)
    decreases |chars| - k
  {
    if k == |chars| {
      assert chars[..k] == chars;
    } else {
      CharsNext(chars, k);
      CharsCostGrows(chars, k + 1);
    }
  }

  lemma NoChars(chars: seq<VisibleChar>, lives: seq<Live>)
    ensures FlatChars(chars[..0]) == [] && CharsCost(chars[..0]) == 0 && lives + FlatChars(chars[..0]) == lives
  {
  }

  method WriteChars(reg: Registry, ghost start: Doc, target0: Doc, chars: seq<VisibleChar>, position: nat,
                    ghost before: seq<Spot>, ghost lives: seq<Live>, ghost behind: seq<Spot>, ghost script0: seq<Edit>)
    returns (r: Result<Doc>, ghost script: seq<Edit>)
    requires Consistent(reg) && WritableChars(reg, chars) && position == |before| + |lives|
    requires Session(reg, start, script0, target0, Written(before, lives, behind))
    ensures |script| <= |script0| + CharsCost(chars)
    ensures r.Ok? ==> Session(reg, start, script, r.value, Written(before, lives + FlatChars(chars), behind))
                      && |script| == |script0| + CharsCost(chars)
    ensures r.Err? ==> r.code == CounterOverflow && start.nextCounter + |script| >= MAX_COUNTER
  {
    hide Session, Written, Consistent, AllowsAll, FlatChars, CharsCost;
    var target, k := target0, 0;
    script := script0;
    NoChars(chars, lives);
    while k < |chars|
      invariant 0 <= k <= |chars| && |script| == |script0| + CharsCost(chars[..k])
      invariant Session(reg, start, script, target, Written(before, lives + FlatChars(chars[..k]), behind))
    {
      CharsNext(chars, k);
      CharsCostGrows(chars, k + 1);
      r, script := WriteChar(reg, start, target, chars[k], position + k, before, lives + FlatChars(chars[..k]), behind,
                             script);
      if r.Err? {
        return;
      }
      target := r.value;
      assert lives + FlatChars(chars[..k]) + [Live(Text, chars[k].scalar, chars[k].marks)]
             == lives + FlatChars(chars[..k + 1]);
      k := k + 1;
    }
    assert chars[..k] == chars;
    r := Ok(target);
  }

  /** A whole block: its delimiter, its attributes, its characters. */
  method WriteBlock(reg: Registry, ghost start: Doc, target0: Doc, block: VisibleBlock, position: nat,
                    ghost before: seq<Spot>, ghost lives: seq<Live>, ghost behind: seq<Spot>, ghost script0: seq<Edit>)
    returns (r: Result<Doc>, ghost script: seq<Edit>)
    requires Consistent(reg) && Writable(reg, block) && position == |before| + |lives|
    requires Session(reg, start, script0, target0, Written(before, lives, behind))
    ensures |script| <= |script0| + BlockCost(block)
    ensures r.Ok? ==> Session(reg, start, script, r.value, Written(before, lives + Flat(block), behind))
                      && |script| == |script0| + BlockCost(block)
    ensures r.Err? ==> r.code == CounterOverflow && start.nextCounter + |script| >= MAX_COUNTER
  {
    hide Session, Written, Playable, Play, Consistent, AllowsAll, WritableChars, FlatChars, CharsCost;
    DelimiterPlayable(reg, before, lives, behind, block.blockType);
    var typed := Do(reg, start, target0, TypeDelimiter(position, block.blockType), script0,
                    Written(before, lives, behind));
    if typed.Err? {
      return typed, script0;
    }
    script := script0 + [TypeDelimiter(position, block.blockType)];
    r, script := WriteMarks(reg, start, typed.value, block.attrs, position, before, lives,
                            Live(Delimiter, 0, map[TYPE_NAME := block.blockType]), behind, script);
    if r.Err? {
      return;
    }
    ghost var headed := lives + [Live(Delimiter, 0, map[TYPE_NAME := block.blockType] + block.attrs)];
    r, script := WriteChars(reg, start, r.value, block.chars, position + 1, before, headed, behind, script);
    assert headed + FlatChars(block.chars) == lives + Flat(block);
  }

  lemma NextBlock(blocks: seq<VisibleBlock>, k: int)
    requires 0 <= k < |blocks|
    ensures FlatAll(blocks[..k + 1]) == FlatAll(blocks[..k]) + Flat(blocks[k])
    ensures WriteCost(blocks[..k + 1]) == WriteCost(blocks[..k]) + BlockCost(blocks[k])
  {
    assert blocks[..k + 1][..k] == blocks[..k];
  }

  lemma {:induction false} WriteCostGrows(blocks: seq<VisibleBlock>, k: int)
    requires 0 <= k <= |blocks|
    ensures WriteCost(blocks[..k]) <= WriteCost(blocks)
    decreases |blocks| - k
  {
    if k == |blocks| {
      assert blocks[..k] == blocks;
    } else {
      NextBlock(blocks, k);
      WriteCostGrows(blocks, k + 1);
    }
  }

  lemma NoBlocks(blocks: seq<VisibleBlock>)
    ensures FlatAll(blocks[..0]) == [] && WriteCost(blocks[..0]) == 0
  {
  }

  predicate AllWritable(reg: Registry, blocks: seq<VisibleBlock>) {
    forall i :: 0 <= i < |blocks| ==> Writable(reg, blocks[i])
  }

  /** Several blocks, one after the other. */
  method WriteBlocks(reg: Registry, ghost start: Doc, target0: Doc, blocks: seq<VisibleBlock>, from: nat,
                     ghost before: seq<Spot>, ghost behind: seq<Spot>, ghost script0: seq<Edit>)
    returns (r: Result<Doc>, ghost script: seq<Edit>)
    requires Consistent(reg) && AllWritable(reg, blocks) && from == |before|
    requires Session(reg, start, script0, target0, Written(before, [], behind))
    ensures |script| <= |script0| + WriteCost(blocks)
    ensures r.Ok? ==> Session(reg, start, script, r.value, Written(before, FlatAll(blocks), behind))
                      && |script| == |script0| + WriteCost(blocks)
    ensures r.Err? ==> r.code == CounterOverflow && start.nextCounter + |script| >= MAX_COUNTER
  {
    hide Session, Written, Consistent, Writable, FlatAll, Flat, WriteCost, BlockCost;
    var target, position, k := target0, from, 0;
    script := script0;
    NoBlocks(blocks);
    while k < |blocks|
      invariant 0 <= k <= |blocks| && |script| == |script0| + WriteCost(blocks[..k])
      invariant position == from + |FlatAll(blocks[..k])|
      invariant Session(reg, start, script, target, Written(before, FlatAll(blocks[..k]), behind))
    {
      NextBlock(blocks, k);
      WriteCostGrows(blocks, k + 1);
      r, script := WriteBlock(reg, start, target, blocks[k], position, before, FlatAll(blocks[..k]), behind, script);
      if r.Err? {
        return;
      }
      target := r.value;
      position := position + 1 + |blocks[k].chars|;
      k := k + 1;
    }
    assert blocks[..k] == blocks;
    r := Ok(target);
  }
}
