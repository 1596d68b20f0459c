/**
 Routes that lose inside their own group do not matter; and the comparator alone,
 without grouping or without complete data, has no well-defined maximum.
 */
module SelectionStability {
  import opened Types
  import opened AsPaths
  import opened BestPath
  import opened SelectionOrder
  import opened Elimination

  lemma HasGroupBest(s: set<Candidate>, o: Oracle, c: Candidate) returns (m: Candidate)
    requires AllOrNone(s, o) && DistinctPeers(s) && c in s
    ensures GroupBest(s, m, o) && NeighborOf(m) == NeighborOf(c)
  {
    var G := Group(s, c);
    assert c in G;
    AllOrNoneIsComparable(G, o);
    SurvivorExists(G, o);
    m :| m in Survivors(G, o);
    assert m in AfterMed(G) && m in G;
    assert Group(s, m) == G;
    forall d | d in G && d != m ensures Beats(m, d, o) {
      SurvivorBeats(G, o, m, d);
    }
  }

  lemma GroupBestIsOnlyContender(s: set<Candidate>, m: Candidate, c: Candidate, o: Oracle)
    requires GroupBest(s, m, o) && NeighborOf(c) == NeighborOf(m)
    ensures Contender(s, c, o) <==> c == m
  {
    assert Group(s, c) == Group(s, m);
    if Contender(s, c, o) {
      assert Dominates({m}, Group(s, c), o);
    }
    if c == m {
      forall D | Dominates(D, Group(s, m), o) ensures m in D {
        if m !in D {
          var x :| x in D;
          PreferAntisymmetric(x, m, o);
          assert false;
        }
      }
    }
  }

  /** `t` keeps every group winner of `s` and adds no group. */
  ghost predicate KeepsWinners(s: set<Candidate>, t: set<Candidate>, o: Oracle) {
    && (forall m :: GroupBest(s, m, o) ==> GroupBest(t, m, o))
    && (forall c :: c in t ==> exists d :: d in s && NeighborOf(d) == NeighborOf(c))
  }

  lemma SettledCarriesOver(s: set<Candidate>, t: set<Candidate>, o: Oracle, w: Candidate)
    requires AllOrNone(s, o) && DistinctPeers(s) && KeepsWinners(s, t, o) && Settled(s, w, o)
    ensures Settled(t, w, o)
  {
    forall c | Contender(t, c, o) && NeighborOf(c) != NeighborOf(w) ensures Beats(w, c, o) {
      var d :| d in s && NeighborOf(d) == NeighborOf(c);
      var m := HasGroupBest(s, o, d);
      GroupBestIsOnlyContender(t, m, c, o);
      GroupBestIsOnlyContender(s, m, m, o);
    }
  }

  lemma SelectedIsSettled(s: set<Candidate>, o: Oracle, gs: seq<seq<Candidate>>)
    requires AllOrNone(s, o) && DistinctPeers(s) && gs != [] && IsGrouping(gs, s)
    ensures Settled(s, SelectFrom(gs, o), o)
  {
    var w := SelectFrom(gs, o);
    AllOrNoneIsComparable(s, o);
    SelectionIsElimination(s, o, gs);
    SurvivorsAreCandidates(s, o);
    forall hs | hs != [] && IsGrouping(hs, s) ensures SelectFrom(hs, o) == w {
      SurvivorIsSelected(s, o, w, hs);
    }
    OrderIndependence(s, w, o);
  }

  /** Withdrawing a route that is not its group's winner never changes the selection. */
  lemma RemovingLoserChangesNothing(s: set<Candidate>, loser: Candidate, o: Oracle,
                                    before: seq<seq<Candidate>>, after: seq<seq<Candidate>>)
    requires AllOrNone(s, o) && DistinctPeers(s) && loser in s && !GroupBest(s, loser, o)
    requires before != [] && IsGrouping(before, s)
    requires after != [] && IsGrouping(after, s - {loser})
    ensures SelectFrom(after, o) == SelectFrom(before, o)
  {
    var w := SelectFrom(before, o);
    SelectedIsSettled(s, o, before);
    forall m | GroupBest(s, m, o) ensures GroupBest(s - {loser}, m, o) {}
    SettledCarriesOver(s, s - {loser}, o, w);
    SettledIsSelected(s - {loser}, w, o, after);
  }

  /** Nor does marking it stale when its peer's session drops. */
  lemma StaleLoserChangesNothing(s: set<Candidate>, loser: Candidate, o: Oracle,
                                 before: seq<seq<Candidate>>, after: seq<seq<Candidate>>)
    requires AllOrNone(s, o) && DistinctPeers(s) && loser in s && !GroupBest(s, loser, o)
    requires before != [] && IsGrouping(before, s)
    requires after != [] && IsGrouping(after, s - {loser} + {Stale(loser)})
    ensures SelectFrom(after, o) == SelectFrom(before, o)
  {
    var w, t := SelectFrom(before, o), s - {loser} + {Stale(loser)};
    SelectedIsSettled(s, o, before);
    StaleLoserKeepsWinners(s, loser, o);
    SettledCarriesOver(s, t, o, w);
    SettledIsSelected(t, w, o, after);
  }

  lemma StaleLosesToo(m: Candidate, loser: Candidate, o: Oracle)
    requires Beats(m, loser, o)
    ensures Beats(m, Stale(loser), o)
  {
  }

  lemma StaleLoserKeepsWinners(s: set<Candidate>, loser: Candidate, o: Oracle)
    requires loser in s && !GroupBest(s, loser, o)
    ensures KeepsWinners(s, s - {loser} + {Stale(loser)}, o)
  {
    var t := s - {loser} + {Stale(loser)};
    assert NeighborOf(Stale(loser)) == NeighborOf(loser);
    forall m | GroupBest(s, m, o) ensures GroupBest(t, m, o) {
      assert m != loser && m in t;
      forall d | d in Group(t, m) && d != m ensures Beats(m, d, o) {
        if d in s {
          assert d in Group(s, m);
        } else {
          assert loser in Group(s, m);
          StaleLosesToo(m, loser, o);
        }
      }
    }
    forall c | c in t ensures exists d :: d in s && NeighborOf(d) == NeighborOf(c) {
      if c !in s { assert loser in s && NeighborOf(loser) == NeighborOf(c); }
    }
  }

  function Stale(c: Candidate): Candidate {
    c.(route := c.route.(stale := true))
  }

  // ---------- without any hypothesis: routes that cannot win their group ----------

  lemma DominatingNested(D: set<Candidate>, E: set<Candidate>, G: set<Candidate>, o: Oracle)
    requires Dominates(D, G, o) && Dominates(E, G, o)
    ensures D <= E || E <= D
  {
    if x, y :| x in D && x !in E && y in E && y !in D {
      PreferAntisymmetric(x, y, o);
      assert false;
    }
  }

  /** Some dominating part of its group shuts out a route that is no contender. */
  lemma ShutOut(s: set<Candidate>, loser: Candidate, o: Oracle) returns (D: set<Candidate>)
    requires loser in s && !Contender(s, loser, o)
    ensures Dominates(D, Group(s, loser), o) && loser !in D
    ensures Dominates(D, Group(s, loser) - {loser}, o)
  {
    D :| Dominates(D, Group(s, loser), o) && loser !in D;
  }

  lemma SmallerGroup(s: set<Candidate>, loser: Candidate, c: Candidate)
    ensures Group(s - {loser}, c) == Group(s, c) - {loser}
  {
  }

  /** Without a route that is no contender, the contenders are the same. */
  lemma ContendersKept(s: set<Candidate>, loser: Candidate, o: Oracle, c: Candidate)
    requires loser in s && !Contender(s, loser, o) && c != loser
    ensures Contender(s, c, o) <==> Contender(s - {loser}, c, o)
  {
    var t := s - {loser};
    SmallerGroup(s, loser, c);
    if NeighborOf(c) == NeighborOf(loser) {
      var D0 := ShutOut(s, loser, o);
      var G, H := Group(s, c), Group(t, c);
      assert G == Group(s, loser) && H == G - {loser};
      if Contender(s, c, o) {
        forall D | Dominates(D, H, o) ensures c in D {
          DominatingNested(D, D0, H, o);
          if D <= D0 { assert Dominates(D, G, o); }
        }
      }
      if Contender(t, c, o) {
        forall D | Dominates(D, G, o) ensures c in D {
          DominatingNested(D, D0, G, o);
          if loser !in D { assert Dominates(D, H, o); }
        }
      }
    } else {
      assert Group(t, c) == Group(s, c);
    }
  }

  ghost function Neighbors(s: set<Candidate>): set<Option<Asn>> {
    set c | c in s :: NeighborOf(c)
  }

  /** One contender for every group of `s`. */
  ghost predicate OnePerGroup(ws: seq<Candidate>, s: set<Candidate>, o: Oracle) {
    && (forall i :: 0 <= i < |ws| ==> Contender(s, ws[i], o))
    && Separate(ws, Neighbors(s))
  }

  /** Every neighbour in `ns` once. */
  ghost predicate Separate(ws: seq<Candidate>, ns: set<Option<Asn>>) {
    && (forall i, j :: 0 <= i < j < |ws| ==> NeighborOf(ws[i]) != NeighborOf(ws[j]))
    && (forall n :: n in ns ==> exists i :: 0 <= i < |ws| && NeighborOf(ws[i]) == n)
  }

  /** `g` walks the group of `w`, and `w` comes out. */
  ghost predicate WonBy(g: seq<Candidate>, w: Candidate, s: set<Candidate>, o: Oracle) {
    && IsGroup(g) && NeighborOf(g[0]) == NeighborOf(w) && MaxBy(g, o) == w
    && forall c :: c in g <==> c in Group(s, w)
  }

  lemma ContenderWins(s: set<Candidate>, w: Candidate, o: Oracle) returns (g: seq<Candidate>)
    requires DistinctPeers(s) && Contender(s, w, o)
    ensures WonBy(g, w, s, o)
  {
    g := AttainContender(s, w, o);
    forall c ensures c in g <==> c in Group(s, w) { assert c in g <==> c in Elements(g); }
    assert g[0] in g;
  }

  /** Contenders, one per group, can all win at once. */
  lemma AllWin(s: set<Candidate>, ws: seq<Candidate>, o: Oracle, n: nat) returns (gs: seq<seq<Candidate>>)
    requires DistinctPeers(s) && n <= |ws| && forall i :: 0 <= i < n ==> Contender(s, ws[i], o)
    ensures |gs| == n && forall i :: 0 <= i < n ==> WonBy(gs[i], ws[i], s, o)
  {
    if n == 0 {
      gs := [];
    } else {
      var front := AllWin(s, ws, o, n - 1);
      var last := ContenderWins(s, ws[n - 1], o);
      gs := front + [last];
    }
  }

  lemma WonGroups(gs: seq<seq<Candidate>>, ws: seq<Candidate>, s: set<Candidate>, o: Oracle)
    requires |gs| == |ws| && (forall i :: 0 <= i < |gs| ==> WonBy(gs[i], ws[i], s, o)) && Separate(ws, Neighbors(s))
    ensures IsGrouping(gs, s)
  {
    forall i | 0 <= i < |gs| ensures IsGroup(gs[i]) { assert WonBy(gs[i], ws[i], s, o); }
    forall i, j | 0 <= i < j < |gs| ensures NeighborOf(gs[i][0]) != NeighborOf(gs[j][0]) {
      assert WonBy(gs[i], ws[i], s, o) && WonBy(gs[j], ws[j], s, o);
    }
    forall i, c | 0 <= i < |gs| && c in gs[i] ensures c in s {
      assert WonBy(gs[i], ws[i], s, o);
    }
    forall c | c in s ensures exists i :: 0 <= i < |gs| && c in gs[i] {
      assert NeighborOf(c) in Neighbors(s);
      var i :| 0 <= i < |ws| && NeighborOf(ws[i]) == NeighborOf(c);
      assert WonBy(gs[i], ws[i], s, o);
      assert c in Group(s, ws[i]);
    }
  }

  lemma WinnersAre(gs: seq<seq<Candidate>>, ws: seq<Candidate>, s: set<Candidate>, o: Oracle)
    requires IsGrouping(gs, s) && |gs| == |ws| && forall i :: 0 <= i < |gs| ==> WonBy(gs[i], ws[i], s, o)
    ensures GroupWinners(gs, o) == ws
  {
    forall i | 0 <= i < |gs| ensures GroupWinners(gs, o)[i] == ws[i] { assert WonBy(gs[i], ws[i], s, o); }
  }

  lemma GroupingFor(s: set<Candidate>, ws: seq<Candidate>, o: Oracle) returns (gs: seq<seq<Candidate>>)
    requires DistinctPeers(s) && OnePerGroup(ws, s, o)
    ensures IsGrouping(gs, s) && GroupWinners(gs, o) == ws
  {
    gs := AllWin(s, ws, o, |ws|);
    WonGroups(gs, ws, s, o);
    WinnersAre(gs, ws, s, o);
  }

  lemma WinnersSeparate(gs: seq<seq<Candidate>>, s: set<Candidate>, o: Oracle)
    requires IsGrouping(gs, s)
    ensures Separate(GroupWinners(gs, o), Neighbors(s))
  {
    var ws := GroupWinners(gs, o);
    forall i | 0 <= i < |ws| ensures NeighborOf(ws[i]) == NeighborOf(gs[i][0]) { assert IsGroup(gs[i]); }
    forall n | n in Neighbors(s) ensures exists i :: 0 <= i < |ws| && NeighborOf(ws[i]) == n {
      var c :| c in s && NeighborOf(c) == n;
      var i := GroupIndex(gs, s, c);
      assert NeighborOf(ws[i]) == n;
    }
  }

  lemma WinnersOnePerGroup(gs: seq<seq<Candidate>>, s: set<Candidate>, o: Oracle)
    requires IsGrouping(gs, s)
    ensures OnePerGroup(GroupWinners(gs, o), s, o)
  {
    WinnersSeparate(gs, s, o);
    forall i | 0 <= i < |gs| ensures Contender(s, GroupWinners(gs, o)[i], o) {
      WinnerIsContender(gs, s, i, o);
    }
  }

  /** `t` has the same contenders as `s`, and the same groups. */
  ghost predicate SameContenders(s: set<Candidate>, t: set<Candidate>, o: Oracle) {
    Neighbors(s) == Neighbors(t) && forall c :: Contender(s, c, o) <==> Contender(t, c, o)
  }

  lemma SelectionCarriesOver(s: set<Candidate>, t: set<Candidate>, o: Oracle, gs: seq<seq<Candidate>>)
    requires DistinctPeers(t) && SameContenders(s, t, o) && gs != [] && IsGrouping(gs, s)
    ensures PossibleSelection(t, o, Some(SelectFrom(gs, o)))
  {
    var ws := GroupWinners(gs, o);
    WinnersOnePerGroup(gs, s, o);
    assert OnePerGroup(ws, t, o);
    var hs := GroupingFor(t, ws, o);
    assert hs != [] && SelectFrom(hs, o) == SelectFrom(gs, o);
  }

  lemma SameContendersSamePossible(s: set<Candidate>, t: set<Candidate>, o: Oracle, r: Option<Candidate>)
    requires DistinctPeers(t) && SameContenders(s, t, o) && PossibleSelection(s, o, r)
    ensures PossibleSelection(t, o, r)
  {
    if r.Some? {
      var gs :| gs != [] && IsGrouping(gs, s) && r.value == SelectFrom(gs, o);
      SelectionCarriesOver(s, t, o, gs);
    } else {
      assert forall c :: c in t ==> NeighborOf(c) in Neighbors(t);
    }
  }

  lemma RemovalKeepsContenders(s: set<Candidate>, loser: Candidate, o: Oracle)
    requires loser in s && !Contender(s, loser, o)
    ensures SameContenders(s, s - {loser}, o)
  {
    var t := s - {loser};
    forall c ensures Contender(s, c, o) <==> Contender(t, c, o) {
      if c != loser { ContendersKept(s, loser, o, c); }
    }
    var D := ShutOut(s, loser, o);
    var x :| x in D;
    assert x in t && NeighborOf(x) == NeighborOf(loser);
  }

  /**
   Withdrawing a route that can win its group under no order changes nothing at all: the
   possible selections before and after are the same, whatever metrics and identifiers are known.
   */
  lemma RemovingNonContenderChangesNothing(s: set<Candidate>, loser: Candidate, o: Oracle, r: Option<Candidate>)
    requires DistinctPeers(s) && loser in s && !Contender(s, loser, o)
    ensures PossibleSelection(s, o, r) <==> PossibleSelection(s - {loser}, o, r)
  {
    var t := s - {loser};
    RemovalKeepsContenders(s, loser, o);
    if PossibleSelection(s, o, r) { SameContendersSamePossible(s, t, o, r); }
    if PossibleSelection(t, o, r) { SameContendersSamePossible(t, s, o, r); }
  }

  lemma StaleStaysShutOut(s: set<Candidate>, loser: Candidate, o: Oracle)
    requires DistinctPeers(s) && loser in s && !Contender(s, loser, o)
    ensures var t := s - {loser} + {Stale(loser)};
      DistinctPeers(t) && !Contender(t, Stale(loser), o) && t - {Stale(loser)} == s - {loser}
  {
    var t := s - {loser} + {Stale(loser)};
    var D := ShutOut(s, loser, o);
    assert forall c :: c in s - {loser} ==> c.peer != loser.peer;
    assert NeighborOf(Stale(loser)) == NeighborOf(loser);
    assert Group(t, Stale(loser)) == Group(s, loser) - {loser} + {Stale(loser)};
    forall x | x in D ensures Beats(x, Stale(loser), o) {
      assert loser in Group(s, loser);
      StaleLosesToo(x, loser, o);
    }
    assert Dominates(D, Group(t, Stale(loser)), o);
  }

  /** Nor does marking it stale. */
  lemma StaleNonContenderChangesNothing(s: set<Candidate>, loser: Candidate, o: Oracle, r: Option<Candidate>)
    requires DistinctPeers(s) && loser in s && !Contender(s, loser, o)
    ensures PossibleSelection(s, o, r) <==> PossibleSelection(s - {loser} + {Stale(loser)}, o, r)
  {
    var t := s - {loser} + {Stale(loser)};
    StaleStaysShutOut(s, loser, o);
    RemovingNonContenderChangesNothing(s, loser, o, r);
    RemovingNonContenderChangesNothing(t, Stale(loser), o, r);
  }

  // ---------- why the hypotheses are there ----------

  function Sample(address: nat, neighbor: Asn, med: nat, id: Option<nat>): Candidate {
    Candidate(PeerV4(address),
              Route(Nlri(0, 0), Igp, [Sequence([neighbor])], None, None, Some(med),
                    External, 0, id, None, false))
  }

  lemma SampleFacts(address: nat, neighbor: Asn, med: nat, id: Option<nat>)
    ensures NeighborOf(Sample(address, neighbor, med, id)) == Some(neighbor)
    ensures LengthOf(Sample(address, neighbor, med, id)) == 1
  {
    assert [Sequence([neighbor])][1..] == [];
    assert PathLength([Sequence([neighbor])]) == 1 + PathLength([]);
  }

  /**
   With one BGP Identifier missing, three routes of one neighbour beat each other in a
   circle, and two walks of the same candidates select different routes.
   */
  lemma MissingIdentifierCycle(o: Oracle)
    ensures var a, b, c := Sample(1, 7, 0, Some(3)), Sample(2, 7, 0, None), Sample(3, 7, 0, Some(1));
            && Beats(a, b, o) && Beats(b, c, o) && Beats(c, a, o)
            && IsGrouping([[a, b, c]], {a, b, c}) && IsGrouping([[b, c, a]], {a, b, c})
            && SelectFrom([[a, b, c]], o) == c && SelectFrom([[b, c, a]], o) == a
  {
    var a, b, c := Sample(1, 7, 0, Some(3)), Sample(2, 7, 0, None), Sample(3, 7, 0, Some(1));
    SampleBeats(1, 7, 0, Some(3), 2, 7, 0, None, o);
    SampleBeats(2, 7, 0, None, 3, 7, 0, Some(1), o);
    SampleBeats(3, 7, 0, Some(1), 1, 7, 0, Some(3), o);
    SampleFacts(1, 7, 0, Some(3));
    SampleFacts(2, 7, 0, None);
    SampleFacts(3, 7, 0, Some(1));
    CircleOfThree(a, b, c, o);
  }

  /** Which of two samples is preferred. */
  lemma SampleBeats(p: nat, n: Asn, m: nat, i: Option<nat>, q: nat, n': Asn, m': nat, j: Option<nat>, o: Oracle)
    ensures Beats(Sample(p, n, m, i), Sample(q, n', m', j), o)
       <==> if n == n' && m != m' then m < m'
            else if i.Some? && j.Some? && i != j then i.value < j.value
            else p < q
  {
    SampleFacts(p, n, m, i);
    SampleFacts(q, n', m', j);
  }

  /** A sample that differs by its peer's address and its next hop only. */
  function Hopped(address: nat, hop: nat): Candidate {
    var c := Sample(address, 7, 0, None);
    c.(route := c.route.(nextHop := Some(HopV4(hop))))
  }

  lemma HoppedBeats(p: nat, h: nat, q: nat, h': nat, o: Oracle)
    ensures Beats(Hopped(p, h), Hopped(q, h'), o)
       <==> match (o.igpMetric(HopV4(h)), o.igpMetric(HopV4(h')))
            case (Some(x), Some(y)) => if x != y then x < y else p < q
            case _ => p < q
    ensures NeighborOf(Hopped(p, h)) == Some(7)
  {
    SampleFacts(p, 7, 0, None);
    SampleFacts(q, 7, 0, None);
  }

  /** The same circle when one IGP metric is unknown. */
  lemma MissingMetricCycle(o: Oracle)
    requires o.igpMetric(HopV4(1)) == Some(3) && o.igpMetric(HopV4(2)) == None && o.igpMetric(HopV4(3)) == Some(1)
    ensures var a, b, c := Hopped(1, 1), Hopped(2, 2), Hopped(3, 3);
            && Beats(a, b, o) && Beats(b, c, o) && Beats(c, a, o)
            && IsGrouping([[a, b, c]], {a, b, c}) && IsGrouping([[b, c, a]], {a, b, c})
            && SelectFrom([[a, b, c]], o) == c && SelectFrom([[b, c, a]], o) == a
  {
    var a, b, c := Hopped(1, 1), Hopped(2, 2), Hopped(3, 3);
    HoppedBeats(1, 1, 2, 2, o);
    HoppedBeats(2, 2, 3, 3, o);
    HoppedBeats(3, 3, 1, 1, o);
    CircleOfThree(a, b, c, o);
  }

  /** In a circle inside one group, two walks of the same candidates select different routes. */
  lemma CircleOfThree(a: Candidate, b: Candidate, c: Candidate, o: Oracle)
    requires a != b && b != c && a != c && NeighborOf(a) == NeighborOf(b) == NeighborOf(c)
    requires Beats(a, b, o) && Beats(b, c, o) && Beats(c, a, o)
    ensures IsGrouping([[a, b, c]], {a, b, c}) && IsGrouping([[b, c, a]], {a, b, c})
    ensures SelectFrom([[a, b, c]], o) == c && SelectFrom([[b, c, a]], o) == a
  {
    PreferAntisymmetric(a, c, o);
    PreferAntisymmetric(b, a, o);
    OneGroupOfThree(a, b, c, o);
    OneGroupOfThree(b, c, a, o);
    assert {b, c, a} == {a, b, c};
  }

  lemma OneGroupOfThree(a: Candidate, b: Candidate, c: Candidate, o: Oracle)
    requires a != b && b != c && a != c && NeighborOf(a) == NeighborOf(b) == NeighborOf(c)
    ensures IsGrouping([[a, b, c]], {a, b, c})
    ensures SelectFrom([[a, b, c]], o) == Better(Better(a, b, o), c, o)
  {
    var g := [a, b, c];
    assert IsGroup(g);
    assert forall d :: d in g <==> d in {a, b, c};
    assert [g][0] == g;
    FoldThree(a, b, c, o);
    assert GroupWinners([g], o) == [MaxBy(g, o)];
    FoldThree(MaxBy(g, o), b, c, o);
  }

  lemma FoldThree(a: Candidate, b: Candidate, c: Candidate, o: Oracle)
    ensures MaxBy([a, b, c], o) == Better(Better(a, b, o), c, o)
    ensures MaxBy([a], o) == a
  {
    assert [a, b, c][1..] == [b, c] && [b, c][1..] == [c] && [c][1..] == [];
    assert FoldFrom(Better(a, b, o), [c], o) == Better(Better(a, b, o), c, o);
  }

  lemma MedCycle(o: Oracle) returns (a: Candidate, b: Candidate, c: Candidate)
    ensures a == Sample(1, 7, 9, None) && b == Sample(2, 8, 0, None) && c == Sample(3, 7, 5, None)
    ensures Beats(a, b, o) && Beats(b, c, o) && Beats(c, a, o)
  {
    a, b, c := Sample(1, 7, 9, None), Sample(2, 8, 0, None), Sample(3, 7, 5, None);
    SampleBeats(1, 7, 9, None, 2, 8, 0, None, o);
    SampleBeats(2, 8, 0, None, 3, 7, 5, None, o);
    SampleBeats(3, 7, 5, None, 1, 7, 9, None, o);
  }

  /** In a circle the last element walked wins, so a plain maximum depends on the order. */
  lemma CycleHasNoMaximum(a: Candidate, b: Candidate, c: Candidate, o: Oracle)
    requires Beats(a, b, o) && Beats(b, c, o) && Beats(c, a, o)
    ensures MaxBy([a, b, c], o) == c && MaxBy([b, c, a], o) == a
    ensures SelectFrom([[a, c], [b]], o) == b
  {
    PreferAntisymmetric(a, c, o);
    PreferAntisymmetric(b, a, o);
    PreferAntisymmetric(c, b, o);
    FoldThree(a, b, c, o);
    FoldThree(b, c, a, o);
    TwoGroups(a, c, b, o);
  }

  /** Across neighbours MED makes the comparator circular even with complete data; grouping settles it. */
  lemma MedCycleWithoutGrouping(o: Oracle)
    ensures var a, b, c := Sample(1, 7, 9, None), Sample(2, 8, 0, None), Sample(3, 7, 5, None);
            && NoIds({a, b, c}) && NoMetrics({a, b, c}, o)
            && MaxBy([a, b, c], o) == c && MaxBy([b, c, a], o) == a
            && SelectFrom([[a, c], [b]], o) == b
  {
    var a, b, c := MedCycle(o);
    CycleHasNoMaximum(a, b, c, o);
  }

  lemma TwoGroups(a: Candidate, c: Candidate, b: Candidate, o: Oracle)
    ensures SelectFrom([[a, c], [b]], o) == Better(Better(a, c, o), b, o)
  {
    FoldTwo(a, c, o);
    FoldThree(b, b, b, o);
    assert GroupWinners([[a, c], [b]], o) == [Better(a, c, o), b];
    FoldTwo(Better(a, c, o), b, o);
  }

  lemma FoldTwo(a: Candidate, b: Candidate, o: Oracle)
    ensures MaxBy([a, b], o) == Better(a, b, o)
  {
    assert [a, b][1..] == [b] && [b][1..] == [];
  }
}
