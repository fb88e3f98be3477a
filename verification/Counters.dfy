/** Per-replica counter tracking: the highest contiguous counter and the set of
    counters received beyond a gap. */
module Counters {
  import opened Types

  datatype Summary = Summary(contiguous: map<nat, nat>, gaps: map<nat, set<nat>>)

  const EMPTY_SUMMARY := Summary(map[], map[])

  function At(s: Summary, replica: nat): nat {
    if replica in s.contiguous then s.contiguous[replica] else 0
  }

  /** Swallow the gap entries that have become contiguous. */
  function Absorb(top: nat, gap: set<nat>): (nat, set<nat>)
    decreases |gap|
  {
    if top + 1 in gap then Absorb(top + 1, gap - {top + 1}) else (top, gap)
  }

  /** Fold one integrated operation id into the tracking. */
  function Note(s: Summary, id: OpId): Summary {
    var r, c := id.replica, id.counter;
    if c == At(s, r) + 1 then
      if r in s.gaps then
        var (top, rest) := Absorb(c, s.gaps[r]);
        Summary(s.contiguous[r := top], if rest == {} then s.gaps - {r} else s.gaps[r := rest])
      else
        Summary(s.contiguous[r := c], s.gaps)
    else if c > At(s, r) + 1 then
      Summary(s.contiguous[r := At(s, r)], s.gaps[r := (if r in s.gaps then s.gaps[r] else {}) + {c}])
    else
      Summary(s.contiguous[r := At(s, r)], s.gaps)
  }

  /** The three cases of noting an id, against a table that has an entry for its replica. */
  lemma NoteNext(s: Summary, id: OpId)
    requires id.counter == At(s, id.replica) + 1
    ensures id.replica !in s.gaps ==> Note(s, id) == Summary(s.contiguous[id.replica := id.counter], s.gaps)
    ensures id.replica in s.gaps ==>
              var (top, rest) := Absorb(id.counter, s.gaps[id.replica]);
              Note(s, id) == Summary(s.contiguous[id.replica := top],
                                     if rest == {} then s.gaps - {id.replica} else s.gaps[id.replica := rest])
  {
    hide Absorb;
  }

  lemma NoteBeyond(s: Summary, id: OpId)
    requires id.counter > At(s, id.replica) + 1
    ensures Note(s, id) == Summary(s.contiguous[id.replica := At(s, id.replica)],
                                   s.gaps[id.replica := (if id.replica in s.gaps then s.gaps[id.replica] else {})
                                          + {id.counter}])
  {
    hide Absorb;
  }

  lemma NoteBelow(s: Summary, id: OpId)
    requires id.counter <= At(s, id.replica)
    ensures Note(s, id) == Summary(s.contiguous[id.replica := At(s, id.replica)], s.gaps)
  {
    hide Absorb;
  }

  /** The summary of one replica says exactly which of its counters are applied:
      all up to `n`, not the next one, and beyond it just those in `gap`. */
  ghost predicate Row(applied: set<OpId>, r: nat, n: nat, gap: set<nat>) {
    && (forall c :: 1 <= c <= n ==> OpId(r, c) in applied)
    && OpId(r, n + 1) !in applied
    && (forall c :: c in gap <==> c > n && OpId(r, c) in applied)
  }

  ghost function GapOf(s: Summary, r: nat): set<nat> {
    if r in s.gaps then s.gaps[r] else {}
  }

  /** The tracking is exact for a set of applied ids. */
  ghost predicate Exact(s: Summary, applied: set<OpId>) {
    && (forall r :: Row(applied, r, At(s, r), GapOf(s, r)))
    && (forall r :: r in s.contiguous <==> exists c :: OpId(r, c) in applied)
    && (forall r :: r in s.gaps ==> s.gaps[r] != {})
  }

  /** `n` is the largest number with all counters up to it applied. */
  lemma RowUnique(applied: set<OpId>, r: nat, n1: nat, gap1: set<nat>, n2: nat, gap2: set<nat>)
    requires Row(applied, r, n1, gap1) && Row(applied, r, n2, gap2)
    ensures n1 == n2 && gap1 == gap2
  {
    if n1 < n2 {
      assert false;
    } else if n2 < n1 {
      assert false;
    }
  }

  lemma {:induction false} AbsorbExact(applied: set<OpId>, r: nat, top: nat, gap: set<nat>)
    requires forall c :: 1 <= c <= top ==> OpId(r, c) in applied
    requires forall c :: c in gap <==> c > top && OpId(r, c) in applied
    ensures Row(applied, r, Absorb(top, gap).0, Absorb(top, gap).1)
    decreases |gap|
  {
    if top + 1 in gap {
      AbsorbExact(applied, r, top + 1, gap - {top + 1});
    }
  }

  /** Integrating any id, in any order, keeps the tracking exact. */
  lemma NoteExact(s: Summary, applied: set<OpId>, id: OpId)
    requires Exact(s, applied) && id.counter >= 1
    ensures Exact(Note(s, id), applied + {id})
  {
    var s', now := Note(s, id), applied + {id};
    forall r ensures Row(now, r, At(s', r), GapOf(s', r)) {
      assert Row(applied, r, At(s, r), GapOf(s, r));
      if r == id.replica {
        NoteRow(s, applied, id);
      }
    }
    forall r ensures r in s'.contiguous <==> exists c :: OpId(r, c) in now {
      if r == id.replica {
        assert OpId(r, id.counter) in now;
      } else {
        assert forall c :: OpId(r, c) in now <==> OpId(r, c) in applied;
      }
    }
  }

  lemma NoteRow(s: Summary, applied: set<OpId>, id: OpId)
    requires Row(applied, id.replica, At(s, id.replica), GapOf(s, id.replica)) && id.counter >= 1
    ensures var s' := Note(s, id);
            Row(applied + {id}, id.replica, At(s', id.replica), GapOf(s', id.replica))
  {
    var r, c := id.replica, id.counter;
    if c == At(s, r) + 1 {
      AbsorbExact(applied + {id}, r, c, GapOf(s, r));
    }
  }

  /** The tracking is a function of the set of applied ids. */
  lemma ExactUnique(s1: Summary, s2: Summary, applied: set<OpId>)
    requires Exact(s1, applied) && Exact(s2, applied)
    ensures s1 == s2
  {
    forall r ensures At(s1, r) == At(s2, r) && GapOf(s1, r) == GapOf(s2, r) {
      RowUnique(applied, r, At(s1, r), GapOf(s1, r), At(s2, r), GapOf(s2, r));
    }
    assert s1.contiguous.Keys == s2.contiguous.Keys;
    forall r | r in s1.contiguous ensures s1.contiguous[r] == s2.contiguous[r] {
      assert At(s1, r) == At(s2, r);
    }
    forall r ensures r in s1.gaps <==> r in s2.gaps {
      assert GapOf(s1, r) == GapOf(s2, r);
    }
    assert s1.gaps.Keys == s2.gaps.Keys;
    forall r | r in s1.gaps ensures s1.gaps[r] == s2.gaps[r] {
      assert GapOf(s1, r) == GapOf(s2, r);
    }
  }

  /** Folding a list of ids, as a snapshot import does. */
  function NoteAll(s: Summary, ids: seq<OpId>): Summary {
    if |ids| == 0 then s else Note(NoteAll(s, ids[..|ids| - 1]), ids[|ids| - 1])
  }

  lemma {:induction false} NoteAllExact(ids: seq<OpId>)
    requires forall i :: 0 <= i < |ids| ==> ids[i].counter >= 1
    ensures Exact(NoteAll(EMPTY_SUMMARY, ids), set id | id in ids)
  {
    if |ids| == 0 {
      assert Exact(EMPTY_SUMMARY, {});
    } else {
      var rest, id := ids[..|ids| - 1], ids[|ids| - 1];
      NoteAllExact(rest);
      NoteExact(NoteAll(EMPTY_SUMMARY, rest), (set x | x in rest), id);
      assert (set x | x in rest) + {id} == set x | x in ids;
    }
  }

  /** Any two listings of the same ids, in whatever order, give the same tracking. */
  lemma NoteAllOrderFree(a: seq<OpId>, b: seq<OpId>)
    requires forall i :: 0 <= i < |a| ==> a[i].counter >= 1
    requires forall i :: 0 <= i < |b| ==> b[i].counter >= 1
    requires (set id | id in a) == (set id | id in b)
    ensures NoteAll(EMPTY_SUMMARY, a) == NoteAll(EMPTY_SUMMARY, b)
  {
    NoteAllExact(a);
    NoteAllExact(b);
    ExactUnique(NoteAll(EMPTY_SUMMARY, a), NoteAll(EMPTY_SUMMARY, b), set id | id in a);
  }
}
