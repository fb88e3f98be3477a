/** The live items of a stream, and how single operations act on that list. */
module LiveList {
  import opened Types
  import opened Order
  import opened State
  import opened Visible
  import H = History
  import C = Counters

  function LiveItems(s: seq<Item>): seq<Item> {
    if |s| == 0 then []
    else
      var n := |s| - 1;
      LiveItems(s[..n]) + (if s[n].tombstoned then [] else [s[n]])
  }

  function ShowAll(items: seq<Item>): (r: seq<Live>)
    ensures |r| == |items| && forall i :: 0 <= i < |r| ==> r[i] == LiveOf(items[i])
  {
    seq(|items|, i requires 0 <= i < |items| => LiveOf(items[i]))
  }

  lemma {:induction false} LivesAreLiveItems(s: seq<Item>)
    ensures Lives(s) == ShowAll(LiveItems(s))
  {
    if |s| > 0 {
      LivesAreLiveItems(s[..|s| - 1]);
    }
  }

  lemma {:induction false} LiveSplit(s: seq<Item>, k: int)
    requires 0 <= k <= |s|
    ensures LiveItems(s) == LiveItems(s[..k]) + LiveItems(s[k..])
    decreases |s|
  {
    if k == |s| {
      assert s[..k] == s && s[k..] == [];
    } else {
      var n := |s| - 1;
      LiveSplit(s[..n], k);
      assert s[..n][..k] == s[..k] && s[..n][k..] == s[k..][..n - k];
      assert s[k..][n - k] == s[n];
    }
  }

  /** How many live items stand before position `k`. */
  function Rank(s: seq<Item>, k: int): nat
    requires 0 <= k <= |s|
  {
    |LiveItems(s[..k])|
  }

  lemma RankNext(s: seq<Item>, k: int)
    requires 0 <= k < |s|
    ensures Rank(s, k + 1) == Rank(s, k) + (if s[k].tombstoned then 0 else 1)
    ensures !s[k].tombstoned ==> LiveItems(s[..k + 1]) == LiveItems(s[..k]) + [s[k]]
  {
    assert s[..k + 1][..k] == s[..k];
  }

  lemma {:induction false} RankMonotone(s: seq<Item>, j: int, k: int)
    requires 0 <= j <= k <= |s|
    ensures Rank(s, j) <= Rank(s, k)
    decreases k - j
  {
    if j < k {
      RankNext(s, k - 1);
      RankMonotone(s, j, k - 1);
    }
  }

  /** A live item is in the list at its rank. */
  lemma LiveAt(s: seq<Item>, p: int)
    requires 0 <= p < |s| && !s[p].tombstoned
    ensures Rank(s, p) < |LiveItems(s)| && LiveItems(s)[Rank(s, p)] == s[p]
  {
    LiveSplit(s, p + 1);
    RankNext(s, p);
  }

  /** The position of the t-th live item. */
  lemma {:induction false} PositionOf(s: seq<Item>, t: int) returns (p: int)
    requires 0 <= t < |LiveItems(s)|
    ensures 0 <= p < |s| && !s[p].tombstoned && s[p] == LiveItems(s)[t] && Rank(s, p) == t
    decreases |s|
  {
    var n := |s| - 1;
    if t < |LiveItems(s[..n])| {
      p := PositionOf(s[..n], t);
      assert s[..n][..p] == s[..p];
    } else {
      p := n;
    }
  }

  // --------------------------------------------------------------- list updates

  lemma LiveInsert(s: seq<Item>, k: int, x: Item)
    requires 0 <= k <= |s| && !x.tombstoned
    ensures LiveItems(InsertAt(s, k, x)) == LiveItems(s[..k]) + [x] + LiveItems(s[k..])
  {
    var r := InsertAt(s, k, x);
    LiveSplit(r, k + 1);
    assert r[..k + 1] == s[..k] + [x] && r[k + 1..] == s[k..];
    assert (s[..k] + [x])[..k] == s[..k];
  }

  /** Inserted anywhere between two neighbouring live items, a new item stands
      between them in the list. */
  lemma LiveInsertBetween(s: seq<Item>, t: int, l: int, r: int, k: int, x: Item)
    requires 0 <= t <= |LiveItems(s)| && !x.tombstoned
    requires t > 0 ==> 0 <= l < |s| && !s[l].tombstoned && Rank(s, l) == t - 1
    requires t == 0 ==> l == -1
    requires t < |LiveItems(s)| ==> 0 <= r < |s| && Rank(s, r) == t
    requires t == |LiveItems(s)| ==> r == |s|
    requires l < k <= r
    ensures LiveItems(InsertAt(s, k, x)) == LiveItems(s)[..t] + [x] + LiveItems(s)[t..]
  {
    if t > 0 { RankNext(s, l); }
    RankMonotone(s, l + 1, k);
    RankMonotone(s, k, r);
    assert s[..0] == [] && s[..|s|] == s;
    assert Rank(s, k) == t;
    LiveSplit(s, k);
    LiveInsert(s, k, x);
  }

  lemma {:induction false} LiveUpdate(s: seq<Item>, p: int, x: Item)
    requires 0 <= p < |s| && !s[p].tombstoned && !x.tombstoned
    ensures Rank(s, p) < |LiveItems(s)| && LiveItems(s[p := x]) == LiveItems(s)[Rank(s, p) := x]
  {
    var r := s[p := x];
    LiveSplit(s, p + 1);
    LiveSplit(r, p + 1);
    RankNext(s, p);
    RankNext(r, p);
    assert r[..p] == s[..p] && r[p + 1..] == s[p + 1..];
  }

  /** Neighbours in the list are in order in the stream. */
  lemma PositionsInOrder(s: seq<Item>, p: int, q: int)
    requires 0 <= p < |s| && 0 <= q < |s| && !s[p].tombstoned && Rank(s, p) < Rank(s, q)
    ensures p < q
  {
    if q <= p {
      RankMonotone(s, q, p);
    }
  }

  // ------------------------------------------------------ operations on the list

  /** A document that takes operations at once: distinct ids, and nothing in the
      buffer that could be integrated. */
  ghost predicate Plain(d: Doc) {
    Unique(Skel(d.stream)) && H.Settled(d) && !d.retrying
  }

  lemma IndexFound(d: Doc, p: int)
    requires Unique(Skel(d.stream)) && 0 <= p < |d.stream|
    ensures IndexOf(d, d.stream[p].id) == p
  {
    FindAt(Skel(d.stream), p);
  }

  lemma ApplyIntegrated(reg: Registry, d: Doc, op: Operation, d': Doc)
    requires op.id !in d.applied && EffectOf(reg, d, op) == (d', Integrated)
    requires H.Settled(d') && !d'.retrying
    ensures ApplyRemote(reg, d, op) == (d', Ok(true))
  {
    hide EffectOf, Retry, H.Settled;
    H.RetrySettled(reg, d');
  }

  /** The anchor ids of list position `t`. */
  function LeftId(lives: seq<Item>, t: int): Option<OpId>
    requires 0 <= t <= |lives|
  {
    if t == 0 then None else Some(lives[t - 1].id)
  }

  function RightId(lives: seq<Item>, t: int): Option<OpId>
    requires 0 <= t <= |lives|
  {
    if t == |lives| then None else Some(lives[t].id)
  }

  /** The positions an insert between two list neighbours is anchored to. */
  lemma AnchorPositions(d: Doc, t: int, op: Operation) returns (l: int, r: int)
    requires Unique(Skel(d.stream)) && op.Insert? && 0 <= t <= |LiveItems(d.stream)|
    requires op.left == LeftId(LiveItems(d.stream), t) && op.right == RightId(LiveItems(d.stream), t)
    ensures l == LeftPos(Skel(d.stream), op.left) && r == RightPos(Skel(d.stream), op.right) && l < r
    ensures Present(d, op.left) && Present(d, op.right)
    ensures t > 0 ==> 0 <= l < |d.stream| && !d.stream[l].tombstoned && Rank(d.stream, l) == t - 1
    ensures t == 0 ==> l == -1
    ensures t < |LiveItems(d.stream)| ==> 0 <= r < |d.stream| && Rank(d.stream, r) == t
    ensures t == |LiveItems(d.stream)| ==> r == |d.stream|
  {
    l, r := -1, |d.stream|;
    if t > 0 {
      l := PositionOf(d.stream, t - 1);
      IndexFound(d, l);
    }
    if t < |LiveItems(d.stream)| {
      r := PositionOf(d.stream, t);
      IndexFound(d, r);
      if t > 0 { PositionsInOrder(d.stream, l, r); }
    }
  }

  /** An insert between two list neighbours enters the list between them, wherever
      the conflict scan puts it. */
  lemma InsertBetween(reg: Registry, d: Doc, t: int, op: Operation) returns (d': Doc)
    requires Plain(d) && op.Insert? && op.id !in d.applied && IndexOf(d, op.id) < 0 && CheckInsert(reg, op).None?
    requires 0 <= t <= |LiveItems(d.stream)|
    requires op.left == LeftId(LiveItems(d.stream), t) && op.right == RightId(LiveItems(d.stream), t)
    requires H.Settled(Note(InsertItem(d, op), op))
    ensures ApplyRemote(reg, d, op) == (d', Ok(true)) && Plain(d')
    ensures d' == Note(InsertItem(d, op), op)
    ensures LiveItems(d'.stream) == LiveItems(d.stream)[..t] + [ItemOf(op)] + LiveItems(d.stream)[t..]
  {
    hide H.Settled, EffectOf, LiveItems, LeftId, RightId, CheckInsert, IndexOf, Present, InsertItem, Note, ApplyRemote;
    var l, r := AnchorPositions(d, t, op);
    d' := Note(InsertItem(d, op), op);
    InsertedLive(d, t, l, r, op);
    InsertIntegrates(reg, d, op);
    ApplyIntegrated(reg, d, op, d');
  }

  lemma InsertIntegrates(reg: Registry, d: Doc, op: Operation)
    requires op.Insert? && IndexOf(d, op.id) < 0 && CheckInsert(reg, op).None?
    requires Present(d, op.left) && Present(d, op.right)
    ensures EffectOf(reg, d, op) == (Note(InsertItem(d, op), op), Integrated)
  {
    hide CheckInsert, IndexOf, Present, InsertItem, Note;
  }

  lemma InsertedLive(d: Doc, t: int, l: int, r: int, op: Operation)
    requires Unique(Skel(d.stream)) && op.Insert? && IndexOf(d, op.id) < 0 && 0 <= t <= |LiveItems(d.stream)|
    requires l == LeftPos(Skel(d.stream), op.left) && r == RightPos(Skel(d.stream), op.right) && l < r
    requires t > 0 ==> 0 <= l < |d.stream| && !d.stream[l].tombstoned && Rank(d.stream, l) == t - 1
    requires t == 0 ==> l == -1
    requires t < |LiveItems(d.stream)| ==> 0 <= r < |d.stream| && Rank(d.stream, r) == t
    requires t == |LiveItems(d.stream)| ==> r == |d.stream|
    ensures var d' := Note(InsertItem(d, op), op);
            && Unique(Skel(d'.stream)) && d'.retrying == d.retrying
            && LiveItems(d'.stream) == LiveItems(d.stream)[..t] + [ItemOf(op)] + LiveItems(d.stream)[t..]
  {
    hide LiveItems, Scan, Rank, Unique, ApplyInitial, C.Note;
    LiveInsertBetween(d.stream, t, l, r, Boundary(Skel(d.stream), NodeOfOp(op)) + 1, ItemOf(op));
    IntegrateUnique(Skel(d.stream), NodeOfOp(op));
  }

  lemma DeleteAt(reg: Registry, d: Doc, p: int, op: Operation) returns (d': Doc)
    requires Plain(d) && 0 <= p < |d.stream| && op.Delete? && op.id !in d.applied && op.target == Some(d.stream[p].id)
    ensures ApplyRemote(reg, d, op) == (d', Ok(true)) && Plain(d')
    ensures d' == Note(d.(stream := d.stream[p := d.stream[p].(tombstoned := true)]), op)
  {
    IndexFound(d, p);
    d' := Note(d.(stream := d.stream[p := d.stream[p].(tombstoned := true)]), op);
    assert Skel(d'.stream) == Skel(d.stream);
    H.SettledSame(d, d');
    hide H.Settled;
    ApplyIntegrated(reg, d, op, d');
  }

  /** A write above everything in the register takes effect on the listed item. */
  lemma WriteAt(reg: Registry, d: Doc, t: int, op: Operation) returns (d': Doc)
    requires Plain(d) && 0 <= t < |LiveItems(d.stream)| && op.SetAttr? && op.id !in d.applied
    requires var x := LiveItems(d.stream)[t];
             && op.target == Some(x.id) && reg.Allows(x.kind, op.name, op.value)
             && (op.name in x.attrs ==> x.attrs[op.name].lamport < op.lamport)
    ensures ApplyRemote(reg, d, op) == (d', Ok(true)) && Plain(d')
    ensures |d'.stream| == |d.stream| && Skel(d'.stream) == Skel(d.stream) && d'.applied == d.applied + {op.id}
    ensures d'.lamport >= d.lamport && d'.pending == d.pending
    ensures var x := LiveItems(d.stream)[t];
            LiveItems(d'.stream) == LiveItems(d.stream)[t :=
              x.(attrs := x.attrs[op.name := Register(op.value, op.lamport, op.id.replica)])]
    ensures forall i :: 0 <= i < |d.stream| ==>
              (|| d'.stream[i] == d.stream[i]
               || d'.stream[i] == d.stream[i].(attrs :=
                   d.stream[i].attrs[op.name := Register(op.value, op.lamport, op.id.replica)]))
  {
    var p := PositionOf(d.stream, t);
    IndexFound(d, p);
    var x := d.stream[p];
    var y := x.(attrs := x.attrs[op.name := Register(op.value, op.lamport, op.id.replica)]);
    d' := Note(d.(stream := d.stream[p := y]), op);
    assert Skel(d'.stream) == Skel(d.stream);
    LiveUpdate(d.stream, p, y);
    H.SettledSame(d, d');
    hide H.Settled;
    ApplyIntegrated(reg, d, op, d');
  }
}
