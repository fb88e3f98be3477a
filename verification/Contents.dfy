/** The visible blocks of a replica can be written again by local edits, and the
    editor's reconciliation carried through the engine. */
module Contents {
  import opened Types
  import opened State
  import opened Visible
  import opened History
  import opened Network
  import opened Edits
  import opened Sessions
  import opened Tracking
  import opened Emitting
  import opened BlockDiff
  import Regions
  import CharDiff
  import BlockMatch
  import Reconcile
  import RestoreReach

  // ------------------------------------------------------------ admissible blocks

  /** A live item whose registers the registry admits. */
  predicate Admitted(reg: Registry, x: Live) {
    && (x.kind == Text ==> ValidScalar(x.scalar)) && AllowsAll(reg, x.kind, x.attrs) && NamesAll(reg, x.kind, x.attrs)
  }

  predicate AllAdmitted(reg: Registry, lives: seq<Live>) {
    forall i :: 0 <= i < |lives| ==> Admitted(reg, lives[i])
  }

  predicate GoodBlocks(reg: Registry, blocks: seq<VisibleBlock>) {
    AllWritable(reg, blocks) && Reconcile.AllNamed(reg, blocks)
  }

  lemma AppendedGood(reg: Registry, blocks: seq<VisibleBlock>, x: Live)
    requires GoodBlocks(reg, blocks) && Admitted(reg, x) && reg.values(Delimiter, TYPE_NAME, DEFAULT_BLOCK_TYPE)
    ensures GoodBlocks(reg, Appended(blocks, x))
  {
    var all := Appended(blocks, x);
    forall i | 0 <= i < |all| ensures Writable(reg, all[i]) && NamedBlock(reg, all[i]) {
      if i < |blocks| { assert Writable(reg, blocks[i]) && NamedBlock(reg, blocks[i]); }
    }
  }

  /** Blocks made of admissible items are writable and their names registered. */
  lemma {:induction false} BlocksGood(reg: Registry, lives: seq<Live>)
    requires AllAdmitted(reg, lives) && reg.values(Delimiter, TYPE_NAME, DEFAULT_BLOCK_TYPE)
    ensures GoodBlocks(reg, Blocks(lives)) && GoodBlocks(reg, Document(lives))
  {
    hide Admitted, Writable, NamedBlock, Appended;
    if |lives| > 0 {
      BlocksGood(reg, lives[..|lives| - 1]);
      AppendedGood(reg, Blocks(lives[..|lives| - 1]), lives[|lives| - 1]);
    }
    DefaultGood(reg);
  }

  lemma DefaultGood(reg: Registry)
    requires reg.values(Delimiter, TYPE_NAME, DEFAULT_BLOCK_TYPE)
    ensures GoodBlocks(reg, [DEFAULT_BLOCK])
  {
  }

  lemma {:induction false} LivesFrom(s: seq<Item>, i: int) returns (p: int)
    requires 0 <= i < |Lives(s)|
    ensures 0 <= p < |s| && Lives(s)[i] == LiveOf(s[p])
  {
    var n := |s| - 1;
    if i < |Lives(s[..n])| {
      p := LivesFrom(s[..n], i);
    } else {
      p := n;
    }
  }

  lemma ItemAdmitted(reg: Registry, log: seq<Operation>, applied: set<OpId>, x: Item)
    requires UniqueIds(log) && Legal(reg, log) && ItemOk(log, applied, x)
    ensures Admitted(reg, LiveOf(x))
  {
    hide ItemOk, Legal;
    RestoreReach.ContentInsertable(reg, log, applied, x);
  }

  /** Every replica's visible document can be written again, block by block. */
  lemma ReachableGood(reg: Registry, replicas: set<nat>, events: seq<Event>, a: nat)
    requires Consistent(reg) && reg.values(Delimiter, TYPE_NAME, DEFAULT_BLOCK_TYPE)
    requires a in Run(reg, replicas, events).docs
    ensures GoodBlocks(reg, VisibleDocument(Run(reg, replicas, events).docs[a].stream))
  {
    var net := Run(reg, replicas, events);
    RunOk(reg, replicas, events);
    var d := net.docs[a];
    assert NodeOk(net.log, d, net.seen[a]);
    hide ItemOk, Legal, Run, Lives, Admitted, GoodBlocks, NodeOk;
    forall i | 0 <= i < |Lives(d.stream)| ensures Admitted(reg, Lives(d.stream)[i]) {
      var p := LivesFrom(d.stream, i);
      NodeItem(net.log, d, net.seen[a], p);
      ItemAdmitted(reg, net.log, d.applied, d.stream[p]);
    }
    BlocksGood(reg, Lives(d.stream));
  }

  lemma NodeItem(log: seq<Operation>, d: Doc, seen: set<OpId>, p: int)
    requires NodeOk(log, d, seen) && 0 <= p < |d.stream|
    ensures ItemOk(log, d.applied, d.stream[p])
  {
    hide ItemOk;
  }

  // --------------------------------------------------------------- through the engine

  /** Reconcile a replica's document with the editor's: every edit succeeds in the
      engine, and the document shown afterwards is the editor's unless the first
      block is lost.  What is kept is kept as the same items. */
  method ReconcileDocument(ghost reg: Registry, d: Doc, after: seq<VisibleBlock>) returns (ops: seq<Edit>)
    requires Consistent(reg) && Editable(d) && |after| > 0 && AllWritable(reg, after)
    requires Reconcile.AllNamed(reg, VisibleDocument(d.stream))
    ensures d.nextCounter + |ops| <= MAX_COUNTER ==>
              && AllPerformed(reg, d, ops)
              && (VisibleDocument(PerformAll(reg, d, ops).stream) == after <==>
                  !Reconcile.Lost(Spots(d.stream), VisibleDocument(d.stream), after))
              && Reconciled(d.stream, PerformAll(reg, d, ops).stream, ops, after)
    ensures WorkOf(ops)
            == BlockMatch.ReconcileWork(VisibleDocument(d.stream), after, !Regions.Explicit(Spots(d.stream)))
    ensures VisibleDocument(d.stream) == after ==> ops == []
  {
    hide *;
    ContentIs(d.stream);
    ops := Reconcile.ReconcileBlocks(reg, VisibleDocument(d.stream), after, Spots(d.stream));
    if d.nextCounter + |ops| <= MAX_COUNTER {
      ScriptPlays(reg, d, ops);
      ScriptShows(reg, d, ops);
      ReconciledBy(d.stream, PerformAll(reg, d, ops).stream, ops, after);
    }
  }

  /** The items of the old stream are found again in the new one, and those of kept
      blocks still stand there. */
  ghost predicate Reconciled(was: seq<Item>, now: seq<Item>, ops: seq<Edit>, after: seq<VisibleBlock>) {
    && ItemsMoved(was, now, ops) && Spots(now) == PlayAll(Spots(was), ops)
    && Reconcile.AllStand(Spots(was), ops, VisibleDocument(was), after)
  }

  lemma ReconciledBy(was: seq<Item>, now: seq<Item>, ops: seq<Edit>, after: seq<VisibleBlock>)
    requires ItemsMoved(was, now, ops) && Spots(now) == PlayAll(Spots(was), ops)
    requires Reconcile.AllStand(Spots(was), ops, VisibleDocument(was), after)
    ensures Reconciled(was, now, ops, after)
  {
    hide ItemsMoved, Spots, PlayAll, VisibleDocument, Reconcile.AllStand;
  }

  /** A character in the common start or end of a kept block is the same item before
      and after: one id, shown before as the old character, now as the new one. */
  lemma SameItem(was: seq<Item>, now: seq<Item>, ops: seq<Edit>, after: seq<VisibleBlock>, k: nat, n: nat, c: nat)
      returns (i: nat, j: nat)
    requires Reconciled(was, now, ops, after) && k < |VisibleDocument(was)|
    requires BlockMatch.KeptAs(VisibleDocument(was), after, k) == Some(n) && c < |VisibleDocument(was)[k].chars|
    requires var bc, ac := VisibleDocument(was)[k].chars, after[n].chars;
             c < CharDiff.Front(bc, ac) || |bc| - CharDiff.Back(bc, ac) <= c
    ensures i < |was| && j < |now| && was[i].id == now[j].id && !was[i].tombstoned && !now[j].tombstoned
    ensures LiveOf(was[i]) == CharDiff.CharLive(VisibleDocument(was)[k].chars[c])
    ensures var bc, ac := VisibleDocument(was)[k].chars, after[n].chars;
            LiveOf(now[j]) == CharDiff.CharLive(if c < CharDiff.Front(bc, ac) then ac[c] else ac[|ac| - |bc| + c])
  {
    hide VisibleDocument, PlayAll, Moved, CharDiff.Front, CharDiff.Back, Reconcile.AllStand, Reconcile.ContentOf;
    ContentIs(was);
    i := Reconcile.CharacterStands(Spots(was), ops, VisibleDocument(was), after, k, n, c);
    j := Moved(ops, i);
  }

  /** The delimiter of a kept block is the same item, and opens the new block. */
  lemma SameDelimiter(was: seq<Item>, now: seq<Item>, ops: seq<Edit>, after: seq<VisibleBlock>, k: nat, n: nat)
      returns (i: nat, j: nat)
    requires Reconciled(was, now, ops, after) && k < |VisibleDocument(was)|
    requires BlockMatch.KeptAs(VisibleDocument(was), after, k) == Some(n)
    requires k > 0 || (|Lives(was)| > 0 && Lives(was)[0].kind == Delimiter)
    ensures i < |was| && j < |now| && was[i].id == now[j].id && !was[i].tombstoned && !now[j].tombstoned
    ensures was[i].kind == now[j].kind == Delimiter
    ensures Opened(LiveOf(was[i])) == VisibleDocument(was)[k].(chars := [])
    ensures Opened(LiveOf(now[j])) == after[n].(chars := [])
  {
    hide VisibleDocument, PlayAll, Moved, Shown, Lives, Reconcile.AllStand, Reconcile.ContentOf;
    ContentIs(was);
    LivesAreShown(was);
    i := Reconcile.DelimiterStands(Spots(was), ops, VisibleDocument(was), after, k, n);
    j := Moved(ops, i);
  }

  /** In a block matched by its text every character is the same item as before. */
  lemma SameText(was: seq<Item>, now: seq<Item>, ops: seq<Edit>, after: seq<VisibleBlock>, k: nat, n: nat, c: nat)
      returns (i: nat, j: nat)
    requires Reconciled(was, now, ops, after) && k < |VisibleDocument(was)|
    requires BlockMatch.KeptAs(VisibleDocument(was), after, k) == Some(n) && c < |VisibleDocument(was)[k].chars|
    requires var bc, ac := VisibleDocument(was)[k].chars, after[n].chars;
             |bc| == |ac| && forall m :: 0 <= m < |bc| ==> bc[m].scalar == ac[m].scalar
    ensures i < |was| && j < |now| && was[i].id == now[j].id && !was[i].tombstoned && !now[j].tombstoned
    ensures LiveOf(was[i]) == CharDiff.CharLive(VisibleDocument(was)[k].chars[c])
    ensures LiveOf(now[j]) == CharDiff.CharLive(after[n].chars[c])
  {
    hide *;
    AllInFront(VisibleDocument(was)[k].chars, after[n].chars);
    i, j := SameItem(was, now, ops, after, k, n, c);
  }

  lemma AllInFront(bc: seq<VisibleChar>, ac: seq<VisibleChar>)
    requires |bc| == |ac| && forall m :: 0 <= m < |bc| ==> bc[m].scalar == ac[m].scalar
    ensures CharDiff.Front(bc, ac) == |bc|
  {
  }

  lemma ContentIs(stream: seq<Item>)
    ensures Reconcile.ContentOf(Spots(stream), VisibleDocument(stream))
  {
    hide Blocks, Lives, Shown;
    LivesAreShown(stream);
  }

  /** With a delimiter first, nothing is ever lost. */
  lemma DelimiterFirst(stream: seq<Item>, before: seq<VisibleBlock>, after: seq<VisibleBlock>)
    requires |Lives(stream)| > 0 && Lives(stream)[0].kind == Delimiter
    ensures !Reconcile.Lost(Spots(stream), before, after)
  {
    hide Lives, Shown;
    LivesAreShown(stream);
  }
}
