/**
 When does the walk order matter? The selected route is the same for every order
 exactly when it beats its whole group and every contender of every other group.
 */
module SelectionOrder {
  import opened Types
  import opened BestPath

  ghost predicate DistinctPeers(s: set<Candidate>) {
    forall a, b :: a in s && b in s && a.peer == b.peer ==> a == b
  }

  ghost function Group(s: set<Candidate>, c: Candidate): set<Candidate> {
    set d | d in s && NeighborOf(d) == NeighborOf(c)
  }

  /** Every member of `D` beats every member of `G` outside it. */
  ghost predicate Dominates(D: set<Candidate>, G: set<Candidate>, o: Oracle) {
    && D != {} && D <= G
    && forall x, y :: x in D && y in G && y !in D ==> Beats(x, y, o)
  }

  /** No dominating subset of its group shuts `c` out. */
  ghost predicate Contender(s: set<Candidate>, c: Candidate, o: Oracle) {
    c in s && forall D :: Dominates(D, Group(s, c), o) ==> c in D
  }

  ghost predicate GroupBest(s: set<Candidate>, w: Candidate, o: Oracle) {
    w in s && forall d :: d in Group(s, w) && d != w ==> Beats(w, d, o)
  }

  ghost predicate Settled(s: set<Candidate>, w: Candidate, o: Oracle) {
    && GroupBest(s, w, o)
    && forall c :: Contender(s, c, o) && NeighborOf(c) != NeighborOf(w) ==> Beats(w, c, o)
  }

  ghost predicate AlwaysSelects(s: set<Candidate>, w: Candidate, o: Oracle) {
    forall gs :: gs != [] && IsGrouping(gs, s) ==> SelectFrom(gs, o) == w
  }

  // ---------- what a fold can return ----------

  lemma {:induction false} FoldStaysDominant(acc: Candidate, xs: seq<Candidate>, D: set<Candidate>, o: Oracle)
    requires acc in D || exists x :: x in xs && x in D
    requires forall x, y :: x in D && (y == acc || y in xs) && y !in D ==> Beats(x, y, o)
    ensures FoldFrom(acc, xs, o) in D
    decreases xs
  {
    if xs != [] {
      var next := Better(acc, xs[0], o);
      if acc in D && xs[0] !in D {
        assert Beats(acc, xs[0], o);
      }
      if acc !in D && xs[0] in D {
        PreferAntisymmetric(acc, xs[0], o);
        assert Beats(xs[0], acc, o);
      }
      FoldStaysDominant(next, xs[1..], D, o);
    }
  }

  lemma MaxIsUnbeaten(xs: seq<Candidate>, w: Candidate, o: Oracle)
    requires w in xs
    requires forall d :: d in xs && d != w ==> Beats(w, d, o)
    ensures MaxBy(xs, o) == w
  {
    FoldStaysDominant(xs[0], xs[1..], {w}, o);
  }

  /** A first element beaten by the second never comes back. */
  lemma BeatenFirstLoses(xs: seq<Candidate>, o: Oracle)
    requires NoDuplicates(xs) && |xs| >= 2 && Beats(xs[1], xs[0], o)
    ensures MaxBy(xs, o) != xs[0]
  {
    PreferAntisymmetric(xs[0], xs[1], o);
    assert Better(xs[0], xs[1], o) == xs[1];
    assert xs[1..][1..] == xs[2..];
    assert MaxBy(xs, o) == FoldFrom(xs[1], xs[2..], o);
  }

  // ---------- groupings ----------

  lemma GroupIndex(gs: seq<seq<Candidate>>, s: set<Candidate>, c: Candidate) returns (i: nat)
    requires IsGrouping(gs, s) && c in s
    ensures i < |gs| && c in gs[i] && NeighborOf(gs[i][0]) == NeighborOf(c)
    ensures forall d :: d in gs[i] <==> d in Group(s, c)
  {
    i :| 0 <= i < |gs| && c in gs[i];
    forall d | d in Group(s, c) ensures d in gs[i] {
      var j :| 0 <= j < |gs| && d in gs[j];
      assert NeighborOf(gs[j][0]) == NeighborOf(d) == NeighborOf(gs[i][0]);
    }
  }

  lemma Enumerate(s: set<Candidate>) returns (xs: seq<Candidate>)
    ensures NoDuplicates(xs) && Elements(xs) == s
    decreases s
  {
    if s == {} {
      xs := [];
    } else {
      var c :| c in s;
      var rest := Enumerate(s - {c});
      assert c !in Elements(rest);
      xs := [c] + rest;
      assert Elements(xs) == {c} + Elements(rest);
    }
  }

  /** Any grouping of whole groups extends to a grouping of the full set. */
  lemma ExtendGrouping(front: seq<seq<Candidate>>, part: set<Candidate>, s: set<Candidate>)
    returns (gs: seq<seq<Candidate>>)
    requires IsGrouping(front, part) && part <= s
    requires forall c :: c in part ==> Group(s, c) <= part
    ensures IsGrouping(gs, s) && front <= gs
    decreases s - part
  {
    if s <= part {
      assert part == s;
      gs := front;
    } else {
      var c :| c in s && c !in part;
      var g := Enumerate(Group(s, c));
      assert c in Elements(g);
      assert forall d :: d in g ==> d in Elements(g);
      gs := ExtendWith(front, part, s, g, c);
    }
  }

  lemma ExtendWith(front: seq<seq<Candidate>>, part: set<Candidate>, s: set<Candidate>,
                   g: seq<Candidate>, c: Candidate)
    returns (gs: seq<seq<Candidate>>)
    requires IsGrouping(front, part) && part <= s
    requires forall d :: d in part ==> Group(s, d) <= part
    requires c in s - part && NoDuplicates(g) && Elements(g) == Group(s, c)
    ensures IsGrouping(gs, s) && front + [g] <= gs
    decreases s - part, 0
  {
    AppendGroup(front, part, g, c, s);
    var part' := part + Group(s, c);
    assert c in Group(s, c);
    forall d | d in part' ensures Group(s, d) <= part' {
      if d !in part { assert Group(s, d) == Group(s, c); }
    }
    gs := ExtendGrouping(front + [g], part', s);
  }

  lemma AppendGroup(front: seq<seq<Candidate>>, part: set<Candidate>, g: seq<Candidate>,
                    c: Candidate, s: set<Candidate>)
    requires IsGrouping(front, part) && part <= s
    requires forall d :: d in part ==> Group(s, d) <= part
    requires c in s - part && NoDuplicates(g) && Elements(g) == Group(s, c)
    ensures IsGrouping(front + [g], part + Group(s, c))
  {
    assert c in Group(s, c);
    assert c in g;
    forall d | d in g ensures NeighborOf(d) == NeighborOf(c) && d in Group(s, c) {
      assert d in Elements(g);
    }
    var gs := front + [g];
    forall i | 0 <= i < |front| ensures NeighborOf(gs[i][0]) != NeighborOf(g[0]) {
      var d := front[i][0];
      assert d in front[i] && d in part;
      assert c !in Group(s, d);
    }
    forall d | d in part + Group(s, c) ensures exists i :: 0 <= i < |gs| && d in gs[i] {
      if d in part {
        var i :| 0 <= i < |front| && d in front[i];
        assert d in gs[i];
      } else {
        assert d in Elements(g);
        assert d in gs[|front|];
      }
    }
  }

  // ---------- contenders are exactly the possible group winners ----------

  lemma WinnerIsContender(gs: seq<seq<Candidate>>, s: set<Candidate>, i: nat, o: Oracle)
    requires IsGrouping(gs, s) && i < |gs|
    ensures Contender(s, MaxBy(gs[i], o), o)
  {
    var g := gs[i];
    var m := MaxBy(g, o);
    var j := GroupIndex(gs, s, m);
    forall D | Dominates(D, Group(s, m), o) ensures m in D {
      var x :| x in D;
      assert x in g;
      FoldStaysDominant(g[0], g[1..], D, o);
    }
  }

  /** Walking `q` ends in `c`, and so does walking it after anything some member of `q` beats. */
  ghost predicate Attains(q: seq<Candidate>, c: Candidate, o: Oracle) {
    && q != [] && MaxBy(q, o) == c
    && forall z, x :: x in q && Beats(x, z, o) ==> FoldFrom(z, q, o) == c
  }

  lemma AttainsOne(c: Candidate, o: Oracle)
    ensures Attains([c], c, o)
  {
    forall z | Beats(c, z, o) ensures FoldFrom(z, [c], o) == c {
      PreferAntisymmetric(z, c, o);
      assert [c][1..] == [];
    }
  }

  lemma AttainsMore(q: seq<Candidate>, c: Candidate, y: Candidate, x: Candidate, o: Oracle)
    requires Attains(q, c, o) && x in q && Beats(x, y, o)
    ensures Attains([y] + q, c, o)
  {
    var longer := [y] + q;
    assert longer[1..] == q;
    forall z, u | u in longer && Beats(u, z, o) ensures FoldFrom(z, longer, o) == c {
      assert FoldFrom(z, longer, o) == FoldFrom(Better(z, y, o), q, o);
      if Beats(z, y, o) {
        PreferAntisymmetric(z, y, o);
        assert u in q;
      }
    }
  }

  /** Some order of a contender's group makes it the group winner. */
  lemma AttainContender(s: set<Candidate>, c: Candidate, o: Oracle) returns (q: seq<Candidate>)
    requires DistinctPeers(s) && Contender(s, c, o)
    ensures q != [] && NoDuplicates(q) && Elements(q) == Group(s, c) && MaxBy(q, o) == c
  {
    q := [c];
    AttainsOne(c, o);
    while Elements(q) != Group(s, c)
      invariant NoDuplicates(q) && c in q && Elements(q) <= Group(s, c)
      invariant Attains(q, c, o)
      decreases Group(s, c) - Elements(q)
    {
      var y, x := BeatenOutsider(s, c, Elements(q), o);
      AttainsMore(q, c, y, x, o);
      GrowElements(y, q);
      q := [y] + q;
    }
  }

  lemma GrowElements(y: Candidate, q: seq<Candidate>)
    requires NoDuplicates(q) && y !in Elements(q)
    ensures NoDuplicates([y] + q) && Elements([y] + q) == Elements(q) + {y}
  {
  }

  lemma BeatenOutsider(s: set<Candidate>, c: Candidate, X: set<Candidate>, o: Oracle)
    returns (y: Candidate, x: Candidate)
    requires DistinctPeers(s) && Contender(s, c, o) && c in X && X < Group(s, c)
    ensures y in Group(s, c) && y !in X && x in X && Beats(x, y, o)
  {
    var G := Group(s, c);
    if forall u, v :: u in G - X && v in X ==> Beats(u, v, o) {
      var u :| u in G && u !in X;
      assert u in G - X;
      assert Dominates(G - X, G, o);
      assert false;
    }
    y, x :| y in G - X && x in X && !Beats(y, x, o);
    PreferAntisymmetric(y, x, o);
  }

  // ---------- the exact condition ----------

  lemma OwnGroupWinner(s: set<Candidate>, w: Candidate, o: Oracle, gs: seq<seq<Candidate>>) returns (i: nat)
    requires GroupBest(s, w, o) && IsGrouping(gs, s)
    ensures i < |gs| && MaxBy(gs[i], o) == w && NeighborOf(gs[i][0]) == NeighborOf(w)
  {
    i := GroupIndex(gs, s, w);
    MaxIsUnbeaten(gs[i], w, o);
  }

  lemma OtherGroupWinner(s: set<Candidate>, w: Candidate, o: Oracle, gs: seq<seq<Candidate>>, j: nat)
    requires Settled(s, w, o) && IsGrouping(gs, s) && j < |gs| && NeighborOf(gs[j][0]) != NeighborOf(w)
    ensures Beats(w, MaxBy(gs[j], o), o)
  {
    WinnerIsContender(gs, s, j, o);
    assert NeighborOf(MaxBy(gs[j], o)) == NeighborOf(gs[j][0]);
  }

  /** Whatever the walk order, a settled candidate is the one selected. */
  lemma SettledIsSelected(s: set<Candidate>, w: Candidate, o: Oracle, gs: seq<seq<Candidate>>)
    requires Settled(s, w, o) && gs != [] && IsGrouping(gs, s)
    ensures SelectFrom(gs, o) == w
  {
    var ws := GroupWinners(gs, o);
    var i := OwnGroupWinner(s, w, o, gs);
    assert ws[i] == w;
    forall j | 0 <= j < |ws| && ws[j] != w ensures Beats(w, ws[j], o) {
      OtherGroupWinner(s, w, o, gs, j);
    }
    MaxIsUnbeaten(ws, w, o);
  }

  lemma WinnersDistinct(gs: seq<seq<Candidate>>, s: set<Candidate>, o: Oracle)
    requires IsGrouping(gs, s)
    ensures NoDuplicates(GroupWinners(gs, o))
  {
    forall i, j | 0 <= i < j < |gs| ensures MaxBy(gs[i], o) != MaxBy(gs[j], o) {
      assert NeighborOf(MaxBy(gs[i], o)) == NeighborOf(gs[i][0]);
      assert NeighborOf(MaxBy(gs[j], o)) == NeighborOf(gs[j][0]);
    }
  }

  lemma AlwaysSelectedIsGroupBest(s: set<Candidate>, w: Candidate, o: Oracle)
    requires DistinctPeers(s) && w in s && AlwaysSelects(s, w, o)
    ensures GroupBest(s, w, o)
  {
    forall d | d in Group(s, w) && d != w ensures Beats(w, d, o) {
      if !Beats(w, d, o) {
        PreferAntisymmetric(w, d, o);
        var rest := Enumerate(Group(s, w) - {w, d});
        assert w !in Elements(rest) && d !in Elements(rest);
        var g := [w, d] + rest;
        assert Elements(g) == {w, d} + Elements(rest) == Group(s, w);
        var gs := ExtendWith([], {}, s, g, w);
        assert gs[0] == g;
        BeatenFirstLoses(g, o);
        var i := WinnerCameFrom(gs, o);
        assert false;
      }
    }
  }

  lemma WinnerCameFrom(gs: seq<seq<Candidate>>, o: Oracle) returns (i: nat)
    requires gs != [] && forall j :: 0 <= j < |gs| ==> gs[j] != [] && IsGroup(gs[j])
    ensures i < |gs| && SelectFrom(gs, o) == MaxBy(gs[i], o)
    ensures NeighborOf(SelectFrom(gs, o)) == NeighborOf(gs[i][0])
  {
    var ws := GroupWinners(gs, o);
    i :| 0 <= i < |ws| && ws[i] == MaxBy(ws, o);
  }

  lemma OneGroupGrouping(s: set<Candidate>, w: Candidate, gw: seq<Candidate>)
    requires w in s && NoDuplicates(gw) && Elements(gw) == Group(s, w)
    ensures IsGrouping([gw], Group(s, w))
    ensures forall d :: d in Group(s, w) ==> Group(s, d) <= Group(s, w)
  {
    assert w in Elements(gw);
    forall d | d in gw ensures d in Group(s, w) { assert d in Elements(gw); }
    assert gw[0] in gw && IsGroup(gw);
    assert [gw][0] == gw;
    forall d | d in Group(s, w) ensures exists i :: 0 <= i < |[gw]| && d in [gw][i] {
      assert d in Elements(gw);
      assert d in [gw][0];
    }
  }

  lemma OwnGroup(s: set<Candidate>, w: Candidate, o: Oracle) returns (gw: seq<Candidate>)
    requires GroupBest(s, w, o)
    ensures gw != [] && NoDuplicates(gw) && Elements(gw) == Group(s, w) && MaxBy(gw, o) == w
  {
    gw := Enumerate(Group(s, w));
    assert w in Elements(gw);
    forall d | d in gw && d != w ensures Beats(w, d, o) { assert d in Elements(gw); }
    MaxIsUnbeaten(gw, w, o);
  }

  lemma GroupingWithContender(s: set<Candidate>, w: Candidate, c: Candidate, o: Oracle)
    returns (gs: seq<seq<Candidate>>)
    requires DistinctPeers(s) && GroupBest(s, w, o)
    requires Contender(s, c, o) && NeighborOf(c) != NeighborOf(w)
    ensures |gs| >= 2 && IsGrouping(gs, s) && MaxBy(gs[0], o) == w && MaxBy(gs[1], o) == c
  {
    var gw := OwnGroup(s, w, o);
    var gc := AttainContender(s, c, o);
    OneGroupGrouping(s, w, gw);
    gs := ExtendWith([gw], Group(s, w), s, gc, c);
    assert gs[0] == ([gw] + [gc])[0] && gs[1] == ([gw] + [gc])[1];
  }

  lemma AlwaysSelectedBeatsContenders(s: set<Candidate>, w: Candidate, o: Oracle, c: Candidate)
    requires DistinctPeers(s) && AlwaysSelects(s, w, o) && GroupBest(s, w, o)
    requires Contender(s, c, o) && NeighborOf(c) != NeighborOf(w)
    ensures Beats(w, c, o)
  {
    if !Beats(w, c, o) {
      PreferAntisymmetric(w, c, o);
      var gs := GroupingWithContender(s, w, c, o);
      WinnersDistinct(gs, s, o);
      BeatenFirstLoses(GroupWinners(gs, o), o);
      assert false;
    }
  }

  /** The selected route is independent of the walk order exactly when it is settled. */
  lemma OrderIndependence(s: set<Candidate>, w: Candidate, o: Oracle)
    requires DistinctPeers(s) && w in s
    ensures AlwaysSelects(s, w, o) <==> Settled(s, w, o)
  {
    if Settled(s, w, o) {
      forall gs | gs != [] && IsGrouping(gs, s) ensures SelectFrom(gs, o) == w {
        SettledIsSelected(s, w, o, gs);
      }
    }
    if AlwaysSelects(s, w, o) {
      AlwaysSelectedIsGroupBest(s, w, o);
      forall c | Contender(s, c, o) && NeighborOf(c) != NeighborOf(w) ensures Beats(w, c, o) {
        AlwaysSelectedBeatsContenders(s, w, o, c);
      }
    }
  }
}
