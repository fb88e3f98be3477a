/** Rewriting the live items of a stretch of the stream without moving anything. */
module Rewriting {
  import opened Types
  import opened Visible
  import opened Edits
  import opened BlockSpots

  // ------------------------------------------------------------------ live places

  function LiveRank(sp: seq<Spot>, i: nat): nat
    requires i <= |sp|
  {
    |Shown(sp[..i])|
  }

  /** The places of the live items, in order. */
  function LivePlaces(sp: seq<Spot>): (r: seq<nat>)
    ensures |r| == |Shown(sp)|
  {
    if |sp| == 0 then []
    else
      var n := |sp| - 1;
      LivePlaces(sp[..n]) + (if sp[n].live then [n] else [])
  }

  lemma {:induction false} PlaceOfRank(sp: seq<Spot>, r: nat)
    requires r < |LivePlaces(sp)|
    ensures var i := LivePlaces(sp)[r]; i < |sp| && sp[i].live && LiveRank(sp, i) == r && sp[i].show == Shown(sp)[r]
    ensures LiveRank(sp, LivePlaces(sp)[r] + 1) == r + 1
  {
    var n := |sp| - 1;
    if r < |LivePlaces(sp[..n])| {
      PlaceOfRank(sp[..n], r);
      var i := LivePlaces(sp)[r];
      assert sp[..n][..i] == sp[..i] && sp[..n][..i + 1] == sp[..i + 1];
    } else {
      assert sp[..n + 1] == sp;
    }
  }

  // -------------------------------------------------------------------- rewriting

  /** A live place as it is to be: shown anew, or hidden. */
  function SpotAs(spot: Spot, x: Option<Live>): Spot {
    if x.Some? then Spot(true, x.value) else spot.(live := false)
  }

  /** The stretch with its live items, in order, as `news` says. */
  function Rewritten(sp: seq<Spot>, news: seq<Option<Live>>): (r: seq<Spot>)
    requires |news| == |Shown(sp)|
    ensures |r| == |sp|
  {
    if |sp| == 0 then []
    else
      var n := |sp| - 1;
      if sp[n].live then Rewritten(sp[..n], news[..|news| - 1]) + [SpotAs(sp[n], news[|news| - 1])]
      else Rewritten(sp[..n], news) + [sp[n]]
  }

  function Kept(lives: seq<Live>): (r: seq<Option<Live>>)
    ensures |r| == |lives|
  {
    seq(|lives|, i requires 0 <= i < |lives| => Some(lives[i]))
  }

  function Somes(news: seq<Option<Live>>): seq<Live> {
    if |news| == 0 then []
    else Somes(news[..|news| - 1]) + (if news[|news| - 1].Some? then [news[|news| - 1].value] else [])
  }

  lemma {:induction false} RewrittenSame(sp: seq<Spot>)
    ensures Rewritten(sp, Kept(Shown(sp))) == sp
  {
    if |sp| > 0 {
      var n := |sp| - 1;
      RewrittenSame(sp[..n]);
      if sp[n].live {
        var news := Kept(Shown(sp));
        assert news[..|news| - 1] == Kept(Shown(sp[..n]));
      } else {
        assert Shown(sp) == Shown(sp[..n]);
      }
    }
  }

  lemma {:induction false} RewrittenShows(sp: seq<Spot>, news: seq<Option<Live>>)
    requires |news| == |Shown(sp)|
    ensures Shown(Rewritten(sp, news)) == Somes(news)
  {
    if |sp| > 0 {
      var n := |sp| - 1;
      var r := Rewritten(sp, news);
      if sp[n].live {
        RewrittenShows(sp[..n], news[..|news| - 1]);
        assert r[..n] == Rewritten(sp[..n], news[..|news| - 1]);
      } else {
        RewrittenShows(sp[..n], news);
        assert r[..n] == Rewritten(sp[..n], news);
        assert Shown(r[..n]) + [] == Shown(r[..n]);
      }
    }
  }

  lemma LiveLast(sp: seq<Spot>, x: Spot, news: seq<Option<Live>>, y: Option<Live>)
    requires x.live && |news| == |Shown(sp)|
    ensures |Shown(sp + [x])| == |news| + 1 && Rewritten(sp + [x], news + [y]) == Rewritten(sp, news) + [SpotAs(x, y)]
  {
    assert (sp + [x])[..|sp|] == sp && (news + [y])[..|news|] == news;
  }

  lemma DeadLast(sp: seq<Spot>, x: Spot, news: seq<Option<Live>>)
    requires !x.live && |news| == |Shown(sp)|
    ensures |Shown(sp + [x])| == |news| && Rewritten(sp + [x], news) == Rewritten(sp, news) + [x]
  {
    assert (sp + [x])[..|sp|] == sp;
  }

  lemma LastRank(sp: seq<Spot>, x: Spot)
    ensures |Shown(sp + [x])| == |Shown(sp)| + (if x.live then 1 else 0)
  {
    assert (sp + [x])[..|sp|] == sp;
  }

  lemma {:induction false} RewrittenConcat(a: seq<Spot>, b: seq<Spot>, na: seq<Option<Live>>, nb: seq<Option<Live>>)
    requires |na| == |Shown(a)| && |nb| == |Shown(b)|
    ensures |na + nb| == |Shown(a + b)| && Rewritten(a + b, na + nb) == Rewritten(a, na) + Rewritten(b, nb)
    decreases |b|
  {
    hide Shown, Rewritten, SpotAs;
    ShownConcat(a, b);
    if |b| == 0 {
      ShownNone();
      assert a + b == a && na + nb == na;
    } else {
      var n := |b| - 1;
      var front, x := b[..n], b[n];
      assert b == front + [x] && a + b == (a + front) + [x];
      LastRank(front, x);
      ShownConcat(a, front);
      if x.live {
        var m := |nb| - 1;
        RewrittenConcat(a, front, na, nb[..m]);
        LiveLast(front, x, nb[..m], nb[m]);
        LiveLast(a + front, x, na + nb[..m], nb[m]);
        assert nb == nb[..m] + [nb[m]] && na + nb == (na + nb[..m]) + [nb[m]];
      } else {
        RewrittenConcat(a, front, na, nb);
        DeadLast(front, x, nb);
        DeadLast(a + front, x, na + nb);
      }
    }
  }

  lemma RankFits(sp: seq<Spot>, q: nat)
    requires q <= |sp|
    ensures LiveRank(sp, q) + |Shown(sp[q..])| == |Shown(sp)|
  {
    ShownConcat(sp[..q], sp[q..]);
    assert sp[..q] + sp[q..] == sp;
  }

  /** Cutting a rewritten stretch cuts its items at the rank of the cut. */
  lemma RewrittenCut(sp: seq<Spot>, news: seq<Option<Live>>, q: nat)
    requires |news| == |Shown(sp)| && q <= |sp|
    ensures LiveRank(sp, q) <= |news| && |Shown(sp[q..])| == |news| - LiveRank(sp, q)
    ensures Rewritten(sp, news)
            == Rewritten(sp[..q], news[..LiveRank(sp, q)]) + Rewritten(sp[q..], news[LiveRank(sp, q)..])
  {
    hide Shown, Rewritten;
    RankFits(sp, q);
    var r := LiveRank(sp, q);
    RewrittenConcat(sp[..q], sp[q..], news[..r], news[r..]);
    assert sp[..q] + sp[q..] == sp && news[..r] + news[r..] == news;
  }

  lemma RewrittenOne(x: Spot, y: Option<Live>)
    requires x.live
    ensures |Shown([x])| == 1 && Rewritten([x], [y]) == [SpotAs(x, y)]
  {
    assert [x][..0] == [] && [y][..0] == [];
  }

  /** A rewritten stretch around one of its live places. */
  lemma RewrittenAround(sp: seq<Spot>, news: seq<Option<Live>>, i: nat)
    requires |news| == |Shown(sp)| && i < |sp| && sp[i].live
    ensures var r := LiveRank(sp, i);
            && r < |news| && |Shown(sp[i + 1..])| == |news| - r - 1
            && Rewritten(sp, news) == Rewritten(sp[..i], news[..r]) + [SpotAs(sp[i], news[r])]
               + Rewritten(sp[i + 1..], news[r + 1..])
  {
    hide Shown, Rewritten;
    var r := LiveRank(sp, i);
    RewrittenCut(sp, news, i);
    assert sp[i..] == [sp[i]] + sp[i + 1..];
    ShownConcat([sp[i]], sp[i + 1..]);
    RewrittenOne(sp[i], if r < |news| then news[r] else None);
    assert news[r..] == [news[r]] + news[r + 1..];
    RewrittenConcat([sp[i]], sp[i + 1..], [news[r]], news[r + 1..]);
  }

  /** Changing one live place changes the entry of its rank. */
  lemma RewriteAt(sp: seq<Spot>, news: seq<Option<Live>>, i: nat, x: Option<Live>)
    requires |news| == |Shown(sp)| && i < |sp| && sp[i].live
    ensures LiveRank(sp, i) < |news|
    ensures Rewritten(sp, news)[i] == SpotAs(sp[i], news[LiveRank(sp, i)])
    ensures Rewritten(sp, news)[i := SpotAs(sp[i], x)] == Rewritten(sp, news[LiveRank(sp, i) := x])
  {
    hide Shown, Rewritten, SpotAs;
    var r := LiveRank(sp, i);
    RewrittenAround(sp, news, i);
    RewrittenAround(sp, news[r := x], i);
    assert news[r := x][..r] == news[..r] && news[r := x][r + 1..] == news[r + 1..];
  }

  lemma {:induction false} SomesConcat(a: seq<Option<Live>>, b: seq<Option<Live>>)
    ensures Somes(a + b) == Somes(a) + Somes(b)
  {
    if |b| == 0 {
      assert a + b == a;
    } else {
      assert (a + b)[..|a + b| - 1] == a + b[..|b| - 1];
      SomesConcat(a, b[..|b| - 1]);
    }
  }

  lemma {:induction false} SomesKept(lives: seq<Live>)
    ensures Somes(Kept(lives)) == lives
  {
    if |lives| > 0 {
      assert Kept(lives)[..|lives| - 1] == Kept(lives[..|lives| - 1]);
      SomesKept(lives[..|lives| - 1]);
    }
  }

  lemma {:induction false} SomesNone(news: seq<Option<Live>>)
    requires forall i :: 0 <= i < |news| ==> news[i].None?
    ensures Somes(news) == []
  {
    if |news| > 0 { SomesNone(news[..|news| - 1]); }
  }
}
