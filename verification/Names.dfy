/** Byte strings in their lexicographic order: the order in which std::map
    enumerates attribute names. */
module Names {
  import opened Types

  predicate Less(a: Bytes, b: Bytes) {
    |b| > 0 && (|a| == 0 || a[0] < b[0] || (a[0] == b[0] && Less(a[1..], b[1..])))
  }

  /** The smaller is a proper prefix, or has the smaller byte where they first differ. */
  lemma {:induction false} LessMeans(a: Bytes, b: Bytes)
    ensures Less(a, b) <==>
            exists i :: 0 <= i <= |a| && i < |b| && a[..i] == b[..i] && (i == |a| || a[i] < b[i])
  {
    if |a| > 0 && |b| > 0 && a[0] == b[0] {
      var x, y := a[1..], b[1..];
      LessMeans(x, y);
      if Less(a, b) {
        var i :| 0 <= i <= |x| && i < |y| && x[..i] == y[..i] && (i == |x| || x[i] < y[i]);
        assert a[..i + 1] == [a[0]] + x[..i] && b[..i + 1] == [b[0]] + y[..i];
      }
      forall i | 0 <= i <= |a| && i < |b| && a[..i] == b[..i] && (i == |a| || a[i] < b[i]) ensures Less(a, b) {
        assert i > 0;
        assert x[..i - 1] == a[..i][1..] && y[..i - 1] == b[..i][1..];
      }
    } else if |b| > 0 && Less(a, b) {
      assert a[..0] == b[..0];
    } else {
      forall i | 0 <= i <= |a| && i < |b| && a[..i] == b[..i] ensures !(i == |a| || a[i] < b[i]) {}
    }
  }

  lemma {:induction false} LessTotal(a: Bytes, b: Bytes)
    ensures a == b || Less(a, b) || Less(b, a)
  {
    if |a| > 0 && |b| > 0 && a[0] == b[0] {
      LessTotal(a[1..], b[1..]);
      assert a == [a[0]] + a[1..] && b == [b[0]] + b[1..];
    }
  }

  lemma {:induction false} LessAntisymmetric(a: Bytes, b: Bytes)
    requires Less(a, b)
    ensures !Less(b, a) && a != b
  {
    if |a| > 0 && a[0] == b[0] {
      LessAntisymmetric(a[1..], b[1..]);
    }
  }

  lemma {:induction false} LessTransitive(a: Bytes, b: Bytes, c: Bytes)
    requires Less(a, b) && Less(b, c)
    ensures Less(a, c)
  {
    if |a| > 0 && a[0] == b[0] && b[0] == c[0] {
      LessTransitive(a[1..], b[1..], c[1..]);
    }
  }

  predicate IsLeast(names: set<Bytes>, x: Bytes) {
    x in names && forall y :: y in names && y != x ==> Less(x, y)
  }

  lemma {:induction false} LeastExists(names: set<Bytes>)
    requires names != {}
    ensures exists x :: IsLeast(names, x)
    decreases |names|
  {
    var y :| y in names;
    if names - {y} == {} {
      assert names == {y};
      assert IsLeast(names, y);
    } else {
      LeastExists(names - {y});
      var x :| IsLeast(names - {y}, x);
      LessTotal(x, y);
      if Less(x, y) {
        assert IsLeast(names, x);
      } else {
        forall z | z in names && z != y ensures Less(y, z) {
          if z != x { LessTransitive(y, x, z); }
        }
        assert IsLeast(names, y);
      }
    }
  }

  lemma LeastUnique(names: set<Bytes>, x: Bytes, y: Bytes)
    requires IsLeast(names, x) && IsLeast(names, y)
    ensures x == y
  {
    if x != y { LessAntisymmetric(x, y); }
  }

  function Least(names: set<Bytes>): (x: Bytes)
    requires names != {}
    ensures IsLeast(names, x)
  {
    LeastExists(names);
    LeastUniqueAll(names);
    var x :| IsLeast(names, x);
    x
  }

  lemma LeastUniqueAll(names: set<Bytes>)
    ensures forall x, y :: IsLeast(names, x) && IsLeast(names, y) ==> x == y
  {
    forall x, y | IsLeast(names, x) && IsLeast(names, y) ensures x == y {
      LeastUnique(names, x, y);
    }
  }

  predicate Ascending(s: seq<Bytes>) {
    forall i, j :: 0 <= i < j < |s| ==> Less(s[i], s[j])
  }

  /** The names in ascending order, each once. */
  function SortedNames(names: set<Bytes>): (r: seq<Bytes>)
    ensures |r| == |names| && Ascending(r)
    ensures forall x :: x in r <==> x in names
    decreases |names|
  {
    if names == {} then []
    else
      var x := Least(names);
      var rest := SortedNames(names - {x});
      LeastFirst(names, x, rest);
      [x] + rest
  }

  lemma LeastFirst(names: set<Bytes>, x: Bytes, rest: seq<Bytes>)
    requires IsLeast(names, x) && Ascending(rest)
    requires forall y :: y in rest <==> y in names - {x}
    ensures Ascending([x] + rest)
    ensures forall y :: y in [x] + rest <==> y in names
  {
    hide Less;
    forall i, j | 0 <= i < j < |[x] + rest| ensures Less(([x] + rest)[i], ([x] + rest)[j]) {
      assert rest[j - 1] in rest;
    }
  }

  lemma HeadIsLeast(s: seq<Bytes>, names: set<Bytes>)
    requires |s| > 0 && Ascending(s) && (forall x :: x in s <==> x in names)
    ensures IsLeast(names, s[0])
    ensures Ascending(s[1..]) && forall x :: x in s[1..] <==> x in names - {s[0]}
  {
    hide Less;
    assert s == [s[0]] + s[1..];
    assert s[0] in s;
    forall x | x in s[1..] ensures Less(s[0], x) && x != s[0] {
      var i :| 0 <= i < |s[1..]| && s[1..][i] == x;
      assert s[i + 1] == x;
      LessAntisymmetric(s[0], x);
    }
  }

  /** The ascending listing of a set is unique, so enumeration is deterministic. */
  lemma {:induction false} SortedNamesUnique(s: seq<Bytes>, names: set<Bytes>)
    requires Ascending(s) && (forall x :: x in s <==> x in names)
    ensures s == SortedNames(names)
    decreases |s|
  {
    hide Less, Ascending;
    if |s| == 0 {
      assert forall x :: x in names ==> x in s;
    } else {
      HeadIsLeast(s, names);
      LeastUnique(names, s[0], Least(names));
      SortedNamesUnique(s[1..], names - {s[0]});
      assert s == [s[0]] + s[1..];
    }
  }
}
