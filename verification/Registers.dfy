/** Which write a register holds, told from the operations alone. */
module Registers {
  import opened Types
  import opened State
  import opened History
  import opened Network
  import C = Counters

  /** The operation gives this value to register `name` of item `id`: as a write to it,
      or as the insert of the item, whose first attribute of a name counts. */
  ghost predicate Gives(op: Operation, id: OpId, name: Bytes, value: Option<Bytes>) {
    match op
    case Insert(own, _, _, _, _, _, attrs) =>
      own == id && exists p :: 0 <= p < |attrs| && attrs[p] == InitialAttr(name, value)
                               && forall q :: 0 <= q < p ==> attrs[q].name != name
    case Delete(_, _, _) => false
    case SetAttr(_, _, target, n, v) => target == Some(id) && n == name && v == value
  }

  lemma {:induction false} FirstIs(initial: seq<InitialAttr>, name: Bytes, value: Option<Bytes>)
    ensures FirstInitial(initial, name) == Some(value) <==>
            exists p :: 0 <= p < |initial| && initial[p] == InitialAttr(name, value)
                        && forall q :: 0 <= q < p ==> initial[q].name != name
  {
    if |initial| > 0 {
      var n := |initial| - 1;
      var front := initial[..n];
      FirstIs(front, name, value);
      if FirstInitial(front, name).Some? {
        FirstIs(front, name, FirstInitial(front, name).value);
        var p :| 0 <= p < |front| && front[p] == InitialAttr(name, FirstInitial(front, name).value)
                 && forall q :: 0 <= q < p ==> front[q].name != name;
        assert initial[p].name == name;
        FirstAmong(initial, name, value, p);
      } else {
        forall q | 0 <= q < n ensures initial[q].name != name { NoneFirst(front, name, q); }
      }
    }
  }

  /** With the name first at `p`, the first of the name is the attribute at `p`. */
  lemma FirstAmong(initial: seq<InitialAttr>, name: Bytes, value: Option<Bytes>, p: int)
    requires 0 <= p < |initial| - 1 && initial[p].name == name && forall q :: 0 <= q < p ==> initial[q].name != name
    ensures (exists r :: 0 <= r < |initial| && initial[r] == InitialAttr(name, value)
                         && forall q :: 0 <= q < r ==> initial[q].name != name)
            <==> initial[p].value == value
  {
    if initial[p].value == value { assert initial[p] == InitialAttr(name, value); }
  }

  lemma {:induction false} NoneFirst(initial: seq<InitialAttr>, name: Bytes, q: int)
    requires FirstInitial(initial, name).None? && 0 <= q < |initial|
    ensures initial[q].name != name
  {
    if q < |initial| - 1 { NoneFirst(initial[..|initial| - 1], name, q); }
  }

  lemma GivesIs(op: Operation, id: OpId, name: Bytes, value: Option<Bytes>)
    ensures Gives(op, id, name, value) <==> WriteOf(op, id, name) == Some(value)
  {
    if op.Insert? { FirstIs(op.attrs, name, value); }
  }

  /** The register is an applied write's, by value, clock and replica; every applied
      write to it has a smaller clock, or the same and no greater replica. */
  ghost predicate HoldsGreatest(log: seq<Operation>, applied: set<OpId>, id: OpId, attrs: AttrMap, name: Bytes) {
    && (name in attrs ==>
          exists k :: 0 <= k < |log| && log[k].id in applied && Gives(log[k], id, name, attrs[name].value)
            && log[k].lamport == attrs[name].lamport && log[k].id.replica == attrs[name].writer)
    && forall j, value :: 0 <= j < |log| && log[j].id in applied && Gives(log[j], id, name, value) ==>
         && name in attrs
         && (|| log[j].lamport < attrs[name].lamport
             || (log[j].lamport == attrs[name].lamport && log[j].id.replica <= attrs[name].writer))
  }

  /** After any run a register holds the value of an applied write, and every other
      applied write to it has a smaller lamport, or the same and no greater replica; a
      register is absent if and only if no applied operation gives it a value. */
  lemma RegisterGreatest(reg: Registry, replicas: set<nat>, events: seq<Event>, a: nat, i: nat, name: Bytes)
    requires Consistent(reg) && a in Run(reg, replicas, events).docs
    requires i < |Run(reg, replicas, events).docs[a].stream|
    ensures var net := Run(reg, replicas, events);
            HoldsGreatest(net.log, net.docs[a].applied, net.docs[a].stream[i].id, net.docs[a].stream[i].attrs, name)
  {
    hide Run, LogOk, HoldsGreatest, NodeOk;
    var net := Run(reg, replicas, events);
    RunOk(reg, replicas, events);
    NodeRegister(net.log, net.docs[a], net.seen[a], i, name);
  }

  lemma NodeRegister(log: seq<Operation>, d: Doc, seen: set<OpId>, i: nat, name: Bytes)
    requires NodeOk(log, d, seen) && i < |d.stream|
    ensures HoldsGreatest(log, d.applied, d.stream[i].id, d.stream[i].attrs, name)
  {
    hide Gives, Known, Ordered, Supported, ClockAbove, C.Exact;
    var x := d.stream[i];
    assert ItemOk(log, d.applied, x);
    assert RegisterOk(log, d.applied, x.id, x.attrs, name);
    if name in x.attrs {
      var k :| Wins(log, d.applied, k, x.id, name, x.attrs[name]);
      GivesIs(log[k], x.id, name, x.attrs[name].value);
    }
    forall j, value | 0 <= j < |log| && log[j].id in d.applied && Gives(log[j], x.id, name, value)
      ensures name in x.attrs
      ensures log[j].lamport < x.attrs[name].lamport
              || (log[j].lamport == x.attrs[name].lamport && log[j].id.replica <= x.attrs[name].writer)
    {
      GivesIs(log[j], x.id, name, value);
      assert Wrote(log, d.applied, j, x.id, name);
    }
  }

  /** One write arriving at its item: it takes the register if and only if the register
      is absent, or older by lamport, or of the same lamport and a smaller replica.
      Nothing else changes. */
  lemma WriteArrives(reg: Registry, d: Doc, op: Operation)
    requires Settled(d) && !d.retrying && op.id !in d.applied
    requires op.SetAttr? && op.target.Some? && IndexOf(d, op.target.value) >= 0
    requires reg.Allows(d.stream[IndexOf(d, op.target.value)].kind, op.name, op.value)
    ensures var (d', r) := ApplyRemote(reg, d, op);
            var i := IndexOf(d, op.target.value);
            var was := d.stream[i].attrs;
            var taken := op.name !in was || was[op.name].lamport < op.lamport
                         || (was[op.name].lamport == op.lamport && was[op.name].writer < op.id.replica);
            && r == Ok(true)
            && d'.stream == d.stream[i := d.stream[i].(attrs :=
                 if taken then was[op.name := Register(op.value, op.lamport, op.id.replica)] else was)]
  {
    hide C.Note, Skel;
    var i := IndexOf(d, op.target.value);
    var x := d.stream[i];
    var y := x.(attrs := ApplyRegister(x.attrs, op.name, op.value, op.lamport, op.id.replica));
    var d' := Note(d.(stream := d.stream[i := y]), op);
    SameSkel(d.stream, i, y);
    SettledSame(d, d');
    RetrySettled(reg, d');
    hide Settled, Retry;
    assert EffectOf(reg, d, op) == (d', Integrated);
  }

  lemma SameSkel(s: seq<Item>, i: int, y: Item)
    requires 0 <= i < |s| && NodeOf(y) == NodeOf(s[i])
    ensures Skel(s[i := y]) == Skel(s)
  {
  }
}
