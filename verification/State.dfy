/** One replica's document state and what each operation does to it: the
    specification of the engine's methods (cpp/crdt/src/doc.cpp). */
module State {
  import opened Types
  import opened Order
  import C = Counters

  datatype Doc = Doc(self: nat, nextCounter: nat, lamport: nat, stream: seq<Item>, applied: set<OpId>,
                     pending: seq<Operation>, retrying: bool, summary: C.Summary)

  function NodeOf(i: Item): Node {
    Node(i.id, i.left, i.right)
  }

  function Skel(stream: seq<Item>): (s: seq<Node>)
    ensures |s| == |stream|
    ensures forall i :: 0 <= i < |s| ==> s[i] == NodeOf(stream[i])
  {
    seq(|stream|, i requires 0 <= i < |stream| => NodeOf(stream[i]))
  }

  function IndexOf(d: Doc, id: OpId): (i: int)
    ensures -1 <= i < |d.stream|
    ensures i >= 0 ==> d.stream[i].id == id
    ensures i < 0 ==> forall j :: 0 <= j < |d.stream| ==> d.stream[j].id != id
  {
    var s := Skel(d.stream);
    var i := Find(s, id);
    assert forall j :: 0 <= j < |s| ==> s[j].id == d.stream[j].id;
    i
  }

  predicate Present(d: Doc, a: Option<OpId>) {
    a.None? || IndexOf(d, a.value) >= 0
  }

  function Empty(self: nat): Doc {
    Doc(self, 1, 0, [], {}, [], false, C.EMPTY_SUMMARY)
  }

  // ---------------------------------------------------------------- registers

  /** Writes are ordered by (lamport, writer). */
  predicate WriteBelow(l1: nat, w1: nat, l2: nat, w2: nat) {
    l1 < l2 || (l1 == l2 && w1 < w2)
  }

  /** Last writer wins: only a strictly greater write replaces the register. */
  function ApplyRegister(attrs: AttrMap, name: Bytes, value: Option<Bytes>, lamport: nat, writer: nat): AttrMap {
    if name in attrs && !WriteBelow(attrs[name].lamport, attrs[name].writer, lamport, writer) then attrs
    else attrs[name := Register(value, lamport, writer)]
  }

  function ApplyInitial(attrs: AttrMap, initial: seq<InitialAttr>, lamport: nat, writer: nat): AttrMap {
    if |initial| == 0 then attrs
    else
      var n := |initial| - 1;
      ApplyRegister(ApplyInitial(attrs, initial[..n], lamport, writer),
                    initial[n].name, initial[n].value, lamport, writer)
  }

  /** The first initial attribute the registry refuses decides the error. */
  function CheckInitial(reg: Registry, kind: ItemKind, initial: seq<InitialAttr>): (r: Option<ErrorCode>)
    ensures r.None? <==> forall i :: 0 <= i < |initial| ==> reg.Allows(kind, initial[i].name, initial[i].value)
  {
    if |initial| == 0 then None
    else
      var n := |initial| - 1;
      var before := CheckInitial(reg, kind, initial[..n]);
      if before.Some? then before
      else if !reg.names(kind, initial[n].name) then Some(UnknownAttributeName)
      else if initial[n].value.Some? && !reg.values(kind, initial[n].name, initial[n].value.value) then
        Some(InvalidAttributeValue)
      else None
  }

  // ----------------------------------------------------- integrating one operation

  /** How integrating one operation ends: refused without a trace, buffered,
      noted for an item that is already there, or integrated. */
  datatype Effect = Refused(code: ErrorCode) | Buffered | Recorded | Integrated

  function Buffer(d: Doc, op: Operation): (Doc, Effect) {
    if |d.pending| >= PENDING_LIMIT then (d, Refused(PendingLimitExceeded))
    else (d.(pending := d.pending + [op]), Buffered)
  }

  function Note(d: Doc, op: Operation): Doc {
    d.(applied := d.applied + {op.id},
       lamport := if d.lamport < op.lamport then op.lamport else d.lamport,
       summary := C.Note(d.summary, op.id))
  }

  function ItemOf(op: Operation): Item
    requires op.Insert?
  {
    Item(op.id, op.left, op.right, op.kind, if op.kind == Text then op.scalar else 0, false,
         ApplyInitial(map[], op.attrs, op.lamport, op.id.replica))
  }

  function NodeOfOp(op: Operation): Node
    requires op.Insert?
  {
    Node(op.id, op.left, op.right)
  }

  function CheckInsert(reg: Registry, op: Operation): Option<ErrorCode>
    requires op.Insert?
  {
    if !op.id.Valid() then Some(InvalidCounter)
    else if op.kind == Text && !ValidScalar(op.scalar) then Some(InvalidUnicodeScalar)
    else CheckInitial(reg, op.kind, op.attrs)
  }

  lemma SkelInsert(stream: seq<Item>, k: int, x: Item)
    requires 0 <= k <= |stream|
    ensures Skel(InsertAt(stream, k, x)) == InsertAt(Skel(stream), k, NodeOf(x))
  {
    hide InsertAt;
    var s, t := Skel(InsertAt(stream, k, x)), InsertAt(Skel(stream), k, NodeOf(x));
    forall i | 0 <= i < |s| ensures s[i] == t[i] {}
  }

  function InsertItem(d: Doc, op: Operation): (r: Doc)
    requires op.Insert?
    ensures Skel(r.stream) == Integrate(Skel(d.stream), NodeOfOp(op))
  {
    var k := Boundary(Skel(d.stream), NodeOfOp(op)) + 1;
    SkelInsert(d.stream, k, ItemOf(op));
    d.(stream := InsertAt(d.stream, k, ItemOf(op)))
  }

  function EffectInsert(reg: Registry, d: Doc, op: Operation): (Doc, Effect)
    requires op.Insert?
  {
    if IndexOf(d, op.id) >= 0 then (Note(d, op), Recorded)
    else
      var bad := CheckInsert(reg, op);
      if bad.Some? then (d, Refused(bad.value))
      else if !Present(d, op.left) || !Present(d, op.right) then Buffer(d, op)
      else (Note(InsertItem(d, op), op), Integrated)
  }

  function EffectDelete(d: Doc, op: Operation): (Doc, Effect)
    requires op.Delete?
  {
    if op.target.None? then (d, Refused(InvalidArgument))
    else
      var i := IndexOf(d, op.target.value);
      if i < 0 then Buffer(d, op)
      else (Note(d.(stream := d.stream[i := d.stream[i].(tombstoned := true)]), op), Integrated)
  }

  function EffectSetAttr(reg: Registry, d: Doc, op: Operation): (Doc, Effect)
    requires op.SetAttr?
  {
    if op.target.None? then (d, Refused(InvalidArgument))
    else
      var i := IndexOf(d, op.target.value);
      if i < 0 then Buffer(d, op)
      else if !reg.names(d.stream[i].kind, op.name) then (d, Refused(UnknownAttributeName))
      else if !reg.Allows(d.stream[i].kind, op.name, op.value) then (d, Refused(InvalidAttributeValue))
      else
        var attrs := ApplyRegister(d.stream[i].attrs, op.name, op.value, op.lamport, op.id.replica);
        (Note(d.(stream := d.stream[i := d.stream[i].(attrs := attrs)]), op), Integrated)
  }

  function EffectOf(reg: Registry, d: Doc, op: Operation): (Doc, Effect) {
    match op
    case Insert(_, _, _, _, _, _, _) => EffectInsert(reg, d, op)
    case Delete(_, _, _) => EffectDelete(d, op)
    case SetAttr(_, _, _, _, _) => EffectSetAttr(reg, d, op)
  }

  // --------------------------------------------------------- the pending buffer

  /** The operation's anchors, or its target, are present. */
  predicate Ready(d: Doc, op: Operation) {
    match op
    case Insert(_, _, left, right, _, _, _) => Present(d, left) && Present(d, right)
    case Delete(_, _, target) => target.Some? && Present(d, target)
    case SetAttr(_, _, target, _, _) => target.Some? && Present(d, target)
  }

  /** Only the identities in the stream matter for where an item is found ... */
  lemma SameIndex(d: Doc, d': Doc, id: OpId)
    requires Skel(d'.stream) == Skel(d.stream)
    ensures IndexOf(d', id) == IndexOf(d, id)
  {
  }

  /** ... and for what is ready. */
  lemma ReadySame(d: Doc, d': Doc, op: Operation)
    requires Skel(d'.stream) == Skel(d.stream)
    ensures Ready(d', op) == Ready(d, op)
  {
    hide Skel, Find;
  }

  function Without<T>(s: seq<T>, i: int): (r: seq<T>)
    requires 0 <= i < |s|
    ensures |r| == |s| - 1
    ensures forall j :: 0 <= j < i ==> r[j] == s[j]
    ensures forall j :: i <= j < |r| ==> r[j] == s[j + 1]
  {
    s[..i] + s[i + 1..]
  }

  /** A ready operation never goes back to the buffer. */
  lemma ReadyNotBuffered(reg: Registry, d: Doc, op: Operation)
    requires Ready(d, op)
    ensures EffectOf(reg, d, op).0.pending == d.pending && !EffectOf(reg, d, op).1.Buffered?
  {
  }

  /** A pass over the buffer, or the whole retry: the state reached, whether any
      operation was integrated, and the error that stopped it, if one did. */
  datatype Pass = Pass(doc: Doc, progress: bool, error: Option<ErrorCode>)

  /** One pass from index `i`: ready operations leave the buffer and are applied. */
  function RetryPass(reg: Registry, d: Doc, i: nat, progress: bool): (p: Pass)
    requires i <= |d.pending|
    ensures |p.doc.pending| <= |d.pending|
    ensures p.progress && !progress ==> |p.doc.pending| < |d.pending|
    decreases |d.pending| - i
  {
    if i == |d.pending| then Pass(d, progress, None)
    else
      var op := d.pending[i];
      if !Ready(d, op) then RetryPass(reg, d, i + 1, progress)
      else
        var d1 := d.(pending := Without(d.pending, i));
        if op.id in d.applied then RetryPass(reg, d1, i, progress)
        else
          ReadyNotBuffered(reg, d1, op);
          var (d2, effect) := EffectOf(reg, d1, op);
          if effect.Refused? then Pass(d2, progress, Some(effect.code))
          else RetryPass(reg, d2, i, true)
  }

  /** The pass leaves an operation that is not ready where it is. */
  lemma PassSkips(reg: Registry, d: Doc, i: nat, progress: bool)
    requires i < |d.pending| && !Ready(d, d.pending[i])
    ensures RetryPass(reg, d, i, progress) == RetryPass(reg, d, i + 1, progress)
  {
    hide EffectOf, Ready;
  }

  /** Passes until one makes no progress. */
  function RetryLoop(reg: Registry, d: Doc): (p: Pass)
    ensures |p.doc.pending| <= |d.pending|
    decreases |d.pending|
  {
    var p := RetryPass(reg, d, 0, false);
    if p.error.Some? || !p.progress then p else RetryLoop(reg, p.doc)
  }

  /** Retry after an integration.  The guard flag stays up when an error escapes. */
  function Retry(reg: Registry, d: Doc): (Doc, Result<bool>) {
    if d.retrying || |d.pending| == 0 then (d, Ok(true))
    else
      var p := RetryLoop(reg, d.(retrying := true));
      if p.error.Some? then (p.doc, Err(p.error.value))
      else (p.doc.(retrying := false), Ok(true))
  }

  /** Integrate one operation and, when that changed the stream, retry the buffer. */
  function IntegrateOp(reg: Registry, d: Doc, op: Operation): (Doc, Result<bool>) {
    var (d1, effect) := EffectOf(reg, d, op);
    match effect
    case Refused(code) => (d1, Err(code))
    case Buffered => (d1, Ok(true))
    case Recorded => (d1, Ok(true))
    case Integrated => Retry(reg, d1)
  }

  /** Remote delivery: duplicates change nothing. */
  function ApplyRemote(reg: Registry, d: Doc, op: Operation): (Doc, Result<bool>) {
    if op.id in d.applied then (d, Ok(false)) else IntegrateOp(reg, d, op)
  }

  // ----------------------------------------------------------- local generation

  /** Integrate a freshly allocated operation of this replica. */
  function Generate(reg: Registry, d: Doc, op: Operation): (Doc, Result<Operation>) {
    var d1 := d.(nextCounter := d.nextCounter + 1, lamport := d.lamport + 1);
    var (d2, r) := IntegrateOp(reg, d1, op);
    (d2, if r.Ok? then Ok(op) else Err(r.code))
  }

  function FreshId(d: Doc): OpId {
    OpId(d.self, d.nextCounter)
  }

  predicate Exhausted(d: Doc) {
    d.nextCounter >= MAX_COUNTER
  }

  function LeftAt(d: Doc, index: nat): Option<OpId>
    requires index <= |d.stream|
  {
    if index == 0 then None else Some(d.stream[index - 1].id)
  }

  function RightAt(d: Doc, index: nat): Option<OpId>
    requires index <= |d.stream|
  {
    if index == |d.stream| then None else Some(d.stream[index].id)
  }

  /** An insert at a stream index is anchored to the two items around it. */
  function InsertOpAt(d: Doc, index: nat, kind: ItemKind, scalar: nat, attrs: seq<InitialAttr>): Operation
    requires index <= |d.stream|
  {
    Insert(FreshId(d), d.lamport + 1, LeftAt(d, index), RightAt(d, index), kind, scalar, attrs)
  }

  function LocalInsertText(reg: Registry, d: Doc, index: nat, scalar: nat): (Doc, Result<Operation>) {
    if index > |d.stream| then (d, Err(InvalidArgument))
    else if !ValidScalar(scalar) then (d, Err(InvalidUnicodeScalar))
    else if Exhausted(d) then (d, Err(CounterOverflow))
    else Generate(reg, d, InsertOpAt(d, index, Text, scalar, []))
  }

  function LocalInsertDelimiter(reg: Registry, d: Doc, index: nat, blockType: Bytes): (Doc, Result<Operation>) {
    if index > |d.stream| then (d, Err(InvalidArgument))
    else if !reg.values(Delimiter, TYPE_NAME, blockType) then (d, Err(InvalidAttributeValue))
    else if Exhausted(d) then (d, Err(CounterOverflow))
    else Generate(reg, d, InsertOpAt(d, index, Delimiter, 0, [InitialAttr(TYPE_NAME, Some(blockType))]))
  }

  /** Deleting a tombstone generates nothing. */
  function LocalDelete(reg: Registry, d: Doc, index: nat): (Doc, Result<Option<Operation>>) {
    if index >= |d.stream| then (d, Err(InvalidArgument))
    else if d.stream[index].tombstoned then (d, Ok(None))
    else if Exhausted(d) then (d, Err(CounterOverflow))
    else
      var (d1, r) := Generate(reg, d, Delete(FreshId(d), d.lamport + 1, Some(d.stream[index].id)));
      (d1, if r.Ok? then Ok(Some(r.value)) else Err(r.code))
  }

  function LocalSetAttr(reg: Registry, d: Doc, index: nat, name: Bytes,
                        value: Option<Bytes>): (Doc, Result<Operation>) {
    if index >= |d.stream| then (d, Err(InvalidArgument))
    else if !reg.names(d.stream[index].kind, name) then (d, Err(UnknownAttributeName))
    else if !reg.Allows(d.stream[index].kind, name, value) then (d, Err(InvalidAttributeValue))
    else if Exhausted(d) then (d, Err(CounterOverflow))
    else Generate(reg, d, SetAttr(FreshId(d), d.lamport + 1, Some(d.stream[index].id), name, value))
  }
}
