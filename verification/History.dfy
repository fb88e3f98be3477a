/** A document against the history of all operations ever issued: what it means
    for a replica's state to be determined by the operations it has applied. */
module History {
  import opened Types
  import opened Order
  import opened Replay
  import opened State
  import C = Counters
  import P = Positions

  // --------------------------------------------------------------- the history

  /** The stream of an observer that integrates every insert in issue order. */
  function Canon(log: seq<Operation>): seq<Node> {
    if |log| == 0 then []
    else if Last(log).Insert? then Integrate(Canon(Front(log)), NodeOfOp(Last(log)))
    else Canon(Front(log))
  }

  ghost predicate UniqueIds(log: seq<Operation>) {
    forall i, j :: 0 <= i < j < |log| ==> log[i].id != log[j].id
  }

  /** A replica never issues two operations with one lamport. */
  ghost predicate UniqueStamps(log: seq<Operation>) {
    forall i, j :: 0 <= i < j < |log| && log[i].id.replica == log[j].id.replica ==> log[i].lamport != log[j].lamport
  }

  ghost predicate InsertBefore(log: seq<Operation>, k: int, a: Option<OpId>) {
    a.Some? ==> exists j :: 0 <= j < k && j < |log| && log[j].Insert? && log[j].id == a.value
  }

  ghost predicate DependsBefore(log: seq<Operation>, k: int)
    requires 0 <= k < |log|
  {
    match log[k]
    case Insert(_, _, left, right, _, _, _) => InsertBefore(log, k, left) && InsertBefore(log, k, right)
    case Delete(_, _, target) => target.Some? && InsertBefore(log, k, target)
    case SetAttr(_, _, target, _, _) => target.Some? && InsertBefore(log, k, target)
  }

  /** Operations only refer to items issued before them. */
  ghost predicate Causal(log: seq<Operation>) {
    forall k {:trigger DependsBefore(log, k)} :: 0 <= k < |log| ==> DependsBefore(log, k)
  }

  ghost predicate LegalAt(reg: Registry, log: seq<Operation>, k: int)
    requires 0 <= k < |log|
  {
    match log[k]
    case Insert(_, _, _, _, _, _, _) => CheckInsert(reg, log[k]).None?
    case Delete(_, _, _) => true
    case SetAttr(_, _, target, name, value) =>
      forall j :: 0 <= j < |log| && log[j].Insert? && target == Some(log[j].id) ==>
        reg.Allows(log[j].kind, name, value)
  }

  ghost predicate Legal(reg: Registry, log: seq<Operation>) {
    forall k {:trigger LegalAt(reg, log, k)} :: 0 <= k < |log| ==> LegalAt(reg, log, k)
  }

  /** Rival siblings stand in strict replica order. */
  ghost predicate Strict(g: seq<Node>) {
    forall i, j :: Rivals(g, i, j) ==> g[i].id.replica < g[j].id.replica
  }

  ghost predicate CanonHolds(log: seq<Operation>) {
    forall n :: n in Canon(log) <==> exists k :: 0 <= k < |log| && log[k].Insert? && NodeOfOp(log[k]) == n
  }

  ghost predicate ValidIds(log: seq<Operation>) {
    forall k :: 0 <= k < |log| ==> log[k].id.Valid()
  }

  ghost predicate LogOk(reg: Registry, log: seq<Operation>) {
    && ValidIds(log) && UniqueIds(log) && UniqueStamps(log) && Causal(log) && Legal(reg, log)
    && Tree(Canon(log)) && Strict(Canon(log)) && CanonHolds(log)
  }

  lemma StrictIsSorted(g: seq<Node>)
    requires Strict(g)
    ensures Sorted(g)
  {
    forall i, j | P.Rivals(ShapeOf(g), i, j) ensures ShapeOf(g).rep[i] <= ShapeOf(g).rep[j] {
      assert Rivals(g, i, j);
    }
  }

  // ------------------------------------------------ a document and the history

  ghost predicate InHistory(log: seq<Operation>, id: OpId) {
    exists k :: 0 <= k < |log| && log[k].id == id
  }

  ghost predicate Known(log: seq<Operation>, applied: set<OpId>) {
    forall id :: id in applied ==> InHistory(log, id)
  }

  /** The stream holds the applied inserts, in the observer's order. */
  ghost predicate Ordered(log: seq<Operation>, d: Doc) {
    && Closed(Skel(d.stream))
    && (exists m :: Part(Skel(d.stream), Canon(log), m))
    && (forall k :: 0 <= k < |log| && log[k].Insert? ==>
          (log[k].id in d.applied <==> IndexOf(d, log[k].id) >= 0))
  }

  /** The value an operation writes to a register, if it writes it. */
  function FirstInitial(initial: seq<InitialAttr>, name: Bytes): Option<Option<Bytes>> {
    if |initial| == 0 then None
    else
      var before := FirstInitial(initial[..|initial| - 1], name);
      if before.Some? then before
      else if initial[|initial| - 1].name == name then Some(initial[|initial| - 1].value)
      else None
  }

  function WriteOf(op: Operation, id: OpId, name: Bytes): Option<Option<Bytes>> {
    match op
    case Insert(i, _, _, _, _, _, attrs) => if i == id then FirstInitial(attrs, name) else None
    case Delete(_, _, _) => None
    case SetAttr(_, _, target, n, value) => if target == Some(id) && n == name then Some(value) else None
  }

  ghost predicate Wrote(log: seq<Operation>, applied: set<OpId>, k: int, id: OpId, name: Bytes) {
    0 <= k < |log| && log[k].id in applied && WriteOf(log[k], id, name).Some?
  }

  /** Write `k` is the register's content, and no applied write is above it. */
  ghost predicate Wins(log: seq<Operation>, applied: set<OpId>, k: int, id: OpId, name: Bytes, reg: Register) {
    && Wrote(log, applied, k, id, name)
    && reg == Register(WriteOf(log[k], id, name).value, log[k].lamport, log[k].id.replica)
    && forall j :: Wrote(log, applied, j, id, name) ==>
         !WriteBelow(reg.lamport, reg.writer, log[j].lamport, log[j].id.replica)
  }

  /** The register of a name holds the greatest applied write, or is absent. */
  ghost predicate RegisterOk(log: seq<Operation>, applied: set<OpId>, id: OpId, attrs: AttrMap, name: Bytes) {
    if name in attrs then exists k :: Wins(log, applied, k, id, name, attrs[name])
    else forall k :: !Wrote(log, applied, k, id, name)
  }

  ghost predicate Erased(log: seq<Operation>, applied: set<OpId>, k: int, id: OpId) {
    0 <= k < |log| && log[k].id in applied && log[k].Delete? && log[k].target == Some(id)
  }

  ghost predicate Content(log: seq<Operation>, k: int, item: Item) {
    && 0 <= k < |log| && log[k].Insert? && NodeOfOp(log[k]) == NodeOf(item)
    && item.kind == log[k].kind && item.scalar == ItemOf(log[k]).scalar
  }

  /** An item shows its insert's content, the applied deletes and the winning writes. */
  ghost predicate ItemOk(log: seq<Operation>, applied: set<OpId>, item: Item) {
    && (exists k :: Content(log, k, item))
    && (item.tombstoned <==> exists k :: Erased(log, applied, k, item.id))
    && (forall name :: RegisterOk(log, applied, item.id, item.attrs, name))
  }

  ghost predicate ItemsOk(log: seq<Operation>, d: Doc) {
    forall i :: 0 <= i < |d.stream| ==> ItemOk(log, d.applied, d.stream[i])
  }

  /** Whatever is applied found its anchors or target. */
  ghost predicate Supported(log: seq<Operation>, d: Doc) {
    forall k :: 0 <= k < |log| && log[k].id in d.applied ==> Ready(d, log[k])
  }

  ghost predicate PendingKnown(log: seq<Operation>, d: Doc) {
    forall i :: 0 <= i < |d.pending| ==> d.pending[i] in log
  }

  ghost predicate ClockAbove(log: seq<Operation>, d: Doc) {
    forall k :: 0 <= k < |log| && log[k].id in d.applied ==> log[k].lamport <= d.lamport
  }

  ghost predicate CoreOk(log: seq<Operation>, d: Doc) {
    && Known(log, d.applied) && Ordered(log, d) && ItemsOk(log, d) && Supported(log, d)
    && PendingKnown(log, d) && ClockAbove(log, d) && C.Exact(d.summary, d.applied)
  }

  function PendingIds(d: Doc): set<OpId> {
    set i | 0 <= i < |d.pending| :: d.pending[i].id
  }

  /** Nothing in the buffer could be integrated. */
  ghost predicate Settled(d: Doc) {
    forall i :: 0 <= i < |d.pending| ==> !Ready(d, d.pending[i])
  }

  lemma SettledSame(d: Doc, d': Doc)
    requires Settled(d) && d'.pending == d.pending && Skel(d'.stream) == Skel(d.stream)
    ensures Settled(d')
  {
    hide Skel, Ready;
    forall i | 0 <= i < |d'.pending| ensures !Ready(d', d'.pending[i]) {
      ReadySame(d, d', d'.pending[i]);
    }
  }

  lemma {:induction false} PassSettled(reg: Registry, d: Doc, i: nat)
    requires Settled(d) && i <= |d.pending|
    ensures RetryPass(reg, d, i, false) == Pass(d, false, None)
    decreases |d.pending| - i
  {
    hide EffectOf, Ready;
    if i < |d.pending| { PassSettled(reg, d, i + 1); }
  }

  /** A retry finds nothing to do in a settled buffer. */
  lemma RetrySettled(reg: Registry, d: Doc)
    requires Settled(d) && !d.retrying
    ensures Retry(reg, d) == (d, Ok(true))
  {
    hide RetryPass;
    var d1 := d.(retrying := true);
    SettledSame(d, d1);
    PassSettled(reg, d1, 0);
  }

  // ------------------------------------------------------------ small facts

  lemma IdAt(log: seq<Operation>, i: int, j: int)
    requires UniqueIds(log) && 0 <= i < |log| && 0 <= j < |log| && log[i].id == log[j].id
    ensures i == j
  {
    if i < j { assert false; } else if j < i { assert false; }
  }

  /** Presence in the stream is application of an insert. */
  lemma PresentApplied(log: seq<Operation>, d: Doc, id: OpId)
    requires CanonHolds(log) && Ordered(log, d) && IndexOf(d, id) >= 0
    ensures id in d.applied && exists k :: 0 <= k < |log| && log[k].Insert? && log[k].id == id
  {
    var i := IndexOf(d, id);
    var m :| Part(Skel(d.stream), Canon(log), m);
    assert Skel(d.stream)[i] in Canon(log);
    var k :| 0 <= k < |log| && log[k].Insert? && NodeOfOp(log[k]) == Skel(d.stream)[i];
  }
}
