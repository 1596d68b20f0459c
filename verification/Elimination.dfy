/**
 The decision process as the standard words it (section 9.1.2.2 of RFC 4271): rules
 applied one after the other to the whole candidate set, each keeping the routes
 that are best on one criterion. Group-then-compare selection is measured against it.
 */
module Elimination {
  import opened Types
  import opened AsPaths
  import opened BestPath
  import opened SelectionOrder

  // Each rule's criterion, read straight from the attributes; the lowest key wins.

  function StaleKey(c: Candidate): int { if c.route.stale then 1 else 0 }

  function PrefKey(c: Candidate): int {
    match c.route.localPref case Some(p) => 0 - p case None => -100
  }

  function LengthKey(c: Candidate): int { PathLength(c.route.asPath) }

  function OriginKey(c: Candidate): int {
    if c.route.origin.Igp? then 0 else if c.route.origin.Egp? then 1 else 2
  }

  function MedKey(c: Candidate): int {
    match c.route.med case Some(m) => m case None => 0
  }

  function RankKey(c: Candidate): int {
    if c.route.peerType.Local? then 0 else if c.route.peerType.External? then 1 else 2
  }

  function MetricKey(c: Candidate, o: Oracle): int {
    if MetricOf(c, o).Some? then MetricOf(c, o).value else 0
  }

  function AgeKey(c: Candidate): int { if c.route.peerType.External? then c.route.receivedAt else 0 }
  function IdKey(c: Candidate): int { if c.route.peerBgpId.Some? then c.route.peerBgpId.value else 0 }
  function FamilyKey(c: Candidate): int { if c.peer.PeerV4? then 4 else 6 }
  function AddressKey(c: Candidate): int { if c.peer.PeerV4? then c.peer.v4 else c.peer.v6 }

  /** Both routes have a neighbouring AS, and it is the same one. */
  predicate SameNeighbor(c: Candidate, d: Candidate) {
    match (NeighboringAs(c.route.asPath), NeighboringAs(d.route.asPath))
    case (Some(x), Some(y)) => x == y
    case _ => false
  }

  /** The members of `s` with the lowest key. */
  ghost function Lowest(s: set<Candidate>, key: Candidate -> int): set<Candidate> {
    set c | c in s && forall d :: d in s ==> key(c) <= key(d)
  }

  /** The routes tied for best on freshness, LOCAL_PREF, path length and ORIGIN. */
  ghost function Tied(s: set<Candidate>): set<Candidate> {
    Lowest(Lowest(Lowest(Lowest(s, StaleKey), PrefKey), LengthKey), OriginKey)
  }

  /** Drops a route when another from the same known neighbour has a lower MED. */
  ghost function DropHigherMed(s: set<Candidate>): set<Candidate> {
    set c | c in s && forall d :: d in s && SameNeighbor(c, d) ==> MedKey(c) <= MedKey(d)
  }

  ghost function AfterMed(s: set<Candidate>): set<Candidate> { DropHigherMed(Tied(s)) }

  ghost function AfterRank(s: set<Candidate>): set<Candidate> { Lowest(AfterMed(s), RankKey) }

  ghost predicate AllMetrics(s: set<Candidate>, o: Oracle) {
    forall c :: c in s ==> MetricOf(c, o).Some?
  }

  ghost predicate NoMetrics(s: set<Candidate>, o: Oracle) {
    forall c :: c in s ==> MetricOf(c, o).None?
  }

  ghost predicate AllIds(s: set<Candidate>) {
    forall c :: c in s ==> c.route.peerBgpId.Some?
  }

  ghost predicate NoIds(s: set<Candidate>) {
    forall c :: c in s ==> c.route.peerBgpId.None?
  }

  ghost function AfterMetric(s: set<Candidate>, o: Oracle): set<Candidate> {
    var t := AfterRank(s);
    if AllMetrics(t, o)
    then set c | c in t && forall d :: d in t ==> MetricKey(c, o) <= MetricKey(d, o)
    else t
  }

  ghost function AfterAge(s: set<Candidate>, o: Oracle): set<Candidate> {
    Lowest(AfterMetric(s, o), AgeKey)
  }

  ghost function AfterId(s: set<Candidate>, o: Oracle): set<Candidate> {
    if AllIds(AfterAge(s, o)) then Lowest(AfterAge(s, o), IdKey) else AfterAge(s, o)
  }

  /** What is left when every rule has been applied. */
  ghost function Survivors(s: set<Candidate>, o: Oracle): set<Candidate> {
    Lowest(Lowest(AfterId(s, o), FamilyKey), AddressKey)
  }

  /**
   The two rules that may lack data either apply to every route still standing when
   they are reached, or to none.
   */
  ghost predicate Comparable(s: set<Candidate>, o: Oracle) {
    && (AllMetrics(AfterRank(s), o) || NoMetrics(AfterRank(s), o))
    && (AllIds(AfterAge(s, o)) || NoIds(AfterAge(s, o)))
  }

  /** The simpler, stronger form: metrics, and identifiers, all known or all unknown. */
  ghost predicate AllOrNone(s: set<Candidate>, o: Oracle) {
    (AllMetrics(s, o) || NoMetrics(s, o)) && (AllIds(s) || NoIds(s))
  }

  lemma AllOrNoneIsComparable(s: set<Candidate>, o: Oracle)
    requires AllOrNone(s, o)
    ensures Comparable(s, o)
  {
    assert AfterRank(s) <= s;
    assert AfterAge(s, o) <= AfterRank(s);
  }

  lemma {:induction false} LowestExists(s: set<Candidate>, key: Candidate -> int)
    requires s != {}
    ensures Lowest(s, key) != {}
    decreases s
  {
    var c :| c in s;
    var rest := s - {c};
    if rest == {} {
      assert s == {c};
      assert c in Lowest(s, key);
    } else {
      LowestExists(rest, key);
      var m :| m in Lowest(rest, key);
      var best := if key(c) <= key(m) then c else m;
      forall d | d in s ensures key(best) <= key(d) {
        if d != c { assert d in rest; }
      }
      assert best in Lowest(s, key);
    }
  }

  lemma TiedExists(s: set<Candidate>)
    requires s != {}
    ensures Tied(s) != {}
  {
    LowestExists(s, StaleKey);
    LowestExists(Lowest(s, StaleKey), PrefKey);
    LowestExists(Lowest(Lowest(s, StaleKey), PrefKey), LengthKey);
    LowestExists(Lowest(Lowest(Lowest(s, StaleKey), PrefKey), LengthKey), OriginKey);
  }

  /** Survivors exist whenever there is a candidate. */
  lemma SurvivorExists(s: set<Candidate>, o: Oracle)
    requires s != {}
    ensures Survivors(s, o) != {}
  {
    TiedExists(s);
    AfterMedExists(Tied(s));
    LowestExists(AfterMed(s), RankKey);
    if AllMetrics(AfterRank(s), o) {
      var byMetric := (c: Candidate) => MetricKey(c, o);
      LowestExists(AfterRank(s), byMetric);
      assert Lowest(AfterRank(s), byMetric) == AfterMetric(s, o);
    }
    LowestExists(AfterMetric(s, o), AgeKey);
    if AllIds(AfterAge(s, o)) { LowestExists(AfterAge(s, o), IdKey); }
    LowestExists(AfterId(s, o), FamilyKey);
    LowestExists(Lowest(AfterId(s, o), FamilyKey), AddressKey);
  }

  lemma AfterMedExists(t: set<Candidate>)
    requires t != {}
    ensures DropHigherMed(t) != {}
  {
    LowestExists(t, MedKey);
    var m :| m in Lowest(t, MedKey);
    assert m in DropHigherMed(t);
  }

  // ---------- a survivor beats what the rules eliminated ----------

  lemma TiedBeatsUntied(s: set<Candidate>, w: Candidate, c: Candidate)
    requires w in Tied(s) && c in s
    ensures PreferHead(w, c) == if c in Tied(s) then Equal else Greater
  {
    var s1 := Lowest(s, StaleKey);
    var s2 := Lowest(s1, PrefKey);
    var s3 := Lowest(s2, LengthKey);
    assert w in s3 && w in s2 && w in s1;
  }

  lemma SurvivorWinsTail(s: set<Candidate>, o: Oracle, w: Candidate, c: Candidate)
    requires Comparable(s, o) && w in Survivors(s, o) && c in AfterMed(s) && c.peer != w.peer
    ensures PreferTail(w, c, o) == Greater
  {
    assert w in AfterId(s, o) && w in AfterAge(s, o) && w in AfterMetric(s, o) && w in AfterRank(s);
    if c in AfterRank(s) {
      assert RankOf(w) == RankOf(c);
      if c in AfterMetric(s, o) {
        if c in AfterAge(s, o) {
          SurvivorWinsLast(s, o, w, c);
        }
      }
    }
  }

  lemma SurvivorWinsLast(s: set<Candidate>, o: Oracle, w: Candidate, c: Candidate)
    requires Comparable(s, o) && w in Survivors(s, o) && c in AfterAge(s, o) && c.peer != w.peer
    requires w in AfterAge(s, o) && RankOf(w) == RankOf(c)
    ensures PreferTail(w, c, o) == Greater
  {
    assert w in AfterId(s, o) && w in AfterMetric(s, o) && c in AfterMetric(s, o);
    assert w in AfterRank(s) && c in AfterRank(s);
    if c in AfterId(s, o) {
      assert ComparePeers(c.peer, w.peer) == Greater by {
        var t := Lowest(AfterId(s, o), FamilyKey);
        assert w in t && FamilyKey(w) <= FamilyKey(c);
        if c in t { assert AddressKey(w) <= AddressKey(c); }
      }
    }
  }

  /**
   A survivor beats every route of its own neighbour, and every route of another
   neighbour that the MED rule did not eliminate.
   */
  lemma SurvivorBeats(s: set<Candidate>, o: Oracle, w: Candidate, c: Candidate)
    requires Comparable(s, o) && w in Survivors(s, o) && c in s && c.peer != w.peer
    requires NeighborOf(c) == NeighborOf(w) || (c in Tied(s) ==> c in AfterMed(s))
    ensures Beats(w, c, o)
  {
    assert w in AfterMed(s) && w in Tied(s);
    TiedBeatsUntied(s, w, c);
    if c in AfterMed(s) {
      SurvivorWinsTail(s, o, w, c);
    }
  }

  /**
   With complete data the comparator is transitive inside one neighbour's routes, and
   between routes whose neighbours all differ.
   */
  lemma PreferTransitive(a: Candidate, b: Candidate, c: Candidate, o: Oracle)
    requires AllOrNone({a, b, c}, o)
    requires MedComparable(a, b) == MedComparable(b, c) == MedComparable(a, c)
    requires Beats(a, b, o) && Beats(b, c, o)
    ensures Beats(a, c, o)
  {
    var s := {a, b, c};
    assert a in s && b in s && c in s;
    if PreferHead(a, b) == Equal && PreferHead(b, c) == Equal
       && PreferMed(a, b) == Equal && PreferMed(b, c) == Equal {
      TailTransitive(a, b, c, o);
    }
  }

  lemma TailTransitive(a: Candidate, b: Candidate, c: Candidate, o: Oracle)
    requires AllOrNone({a, b, c}, o)
    requires PreferTail(a, b, o) == Greater && PreferTail(b, c, o) == Greater
    ensures PreferTail(a, c, o) == Greater
  {
    var s := {a, b, c};
    assert a in s && b in s && c in s;
  }

  // ---------- what selection guarantees with no hypothesis ----------

  /** `a` is no worse than `b` on the criteria up to and including MED. */
  predicate NotWorse(a: Candidate, b: Candidate) {
    PreferHead(a, b) == Greater || (PreferHead(a, b) == Equal && PreferMed(a, b) != Less)
  }

  lemma {:induction false} FoldNotWorse(acc: Candidate, xs: seq<Candidate>, o: Oracle, n: Option<Asn>)
    requires NeighborOf(acc) == n && forall x :: x in xs ==> NeighborOf(x) == n
    ensures NotWorse(FoldFrom(acc, xs, o), acc)
    ensures forall x :: x in xs ==> NotWorse(FoldFrom(acc, xs, o), x)
    decreases xs
  {
    if xs != [] {
      var next := Better(acc, xs[0], o);
      FoldNotWorse(next, xs[1..], o, n);
      var m := FoldFrom(acc, xs, o);
      assert NotWorse(m, next) && NotWorse(next, acc) && NotWorse(next, xs[0]);
      assert NeighborOf(m) == n;
      assert NotWorse(m, acc) && NotWorse(m, xs[0]);
      assert xs == [xs[0]] + xs[1..];
    }
  }

  lemma {:induction false} FoldBestHead(acc: Candidate, xs: seq<Candidate>, o: Oracle)
    ensures PreferHead(FoldFrom(acc, xs, o), acc) != Less
    ensures forall x :: x in xs ==> PreferHead(FoldFrom(acc, xs, o), x) != Less
    decreases xs
  {
    if xs != [] {
      FoldBestHead(Better(acc, xs[0], o), xs[1..], o);
    }
  }

  lemma GroupWinnerNotWorse(gs: seq<seq<Candidate>>, s: set<Candidate>, i: nat, o: Oracle, d: Candidate)
    requires IsGrouping(gs, s) && i < |gs| && d in s && NeighborOf(d) == NeighborOf(gs[i][0])
    ensures NotWorse(MaxBy(gs[i], o), d)
  {
    var j := GroupIndex(gs, s, d);
    FoldNotWorse(gs[i][0], gs[i][1..], o, NeighborOf(d));
  }

  /** Unbeaten on the first criteria is the same as surviving their rules. */
  lemma UnbeatenIsTied(s: set<Candidate>, w: Candidate)
    requires w in s && forall c :: c in s ==> PreferHead(w, c) != Less
    ensures w in Tied(s)
  {
    TiedExists(s);
    var t :| t in Tied(s);
    TiedBeatsUntied(s, t, w);
  }

  /**
   For every candidate set and every walk, with nothing assumed about metrics or
   identifiers: the selected route is best on freshness, LOCAL_PREF, path length and
   ORIGIN, and no tied route of its neighbour has a lower MED.
   */
  lemma SelectionSurvivesMed(s: set<Candidate>, gs: seq<seq<Candidate>>, o: Oracle)
    requires gs != [] && IsGrouping(gs, s)
    ensures SelectFrom(gs, o) in AfterMed(s)
  {
    var w := SelectFrom(gs, o);
    SelectedInSet(s, gs, o);
    forall c | c in s ensures PreferHead(w, c) != Less {
      SelectionBestHead(s, gs, o, c);
    }
    UnbeatenIsTied(s, w);
    var i := WinnerCameFrom(gs, o);
    GroupWinnerKeepsMed(gs, s, i, o);
  }

  lemma SelectedInSet(s: set<Candidate>, gs: seq<seq<Candidate>>, o: Oracle)
    requires gs != [] && IsGrouping(gs, s)
    ensures SelectFrom(gs, o) in s
  {
    var i := WinnerCameFrom(gs, o);
  }

  lemma SelectionBestHead(s: set<Candidate>, gs: seq<seq<Candidate>>, o: Oracle, c: Candidate)
    requires gs != [] && IsGrouping(gs, s) && c in s
    ensures PreferHead(SelectFrom(gs, o), c) != Less
  {
    var ws := GroupWinners(gs, o);
    FoldBestHead(ws[0], ws[1..], o);
    var j := GroupIndex(gs, s, c);
    GroupWinnerNotWorse(gs, s, j, o, c);
    HeadTransitive(SelectFrom(gs, o), ws[j], c);
  }

  lemma HeadTransitive(a: Candidate, b: Candidate, c: Candidate)
    ensures PreferHead(a, b) != Less && PreferHead(b, c) != Less ==> PreferHead(a, c) != Less
  {
  }

  /** Section 4.2 of RFC 4724: a stale route is selected only if every candidate is stale. */
  lemma StaleOnlyAsLastResort(s: set<Candidate>, gs: seq<seq<Candidate>>, o: Oracle, c: Candidate)
    requires gs != [] && IsGrouping(gs, s) && c in s && SelectFrom(gs, o).route.stale
    ensures c.route.stale
  {
    SelectionSurvivesMed(s, gs, o);
    TiedBeatsUntied(s, SelectFrom(gs, o), c);
  }

  // ---------- the main theorem ----------

  lemma SurvivorWinsGroup(s: set<Candidate>, o: Oracle, w: Candidate, gs: seq<seq<Candidate>>) returns (i: nat)
    requires DistinctPeers(s) && Comparable(s, o) && w in Survivors(s, o) && w in s && IsGrouping(gs, s)
    ensures i < |gs| && MaxBy(gs[i], o) == w
  {
    i := GroupIndex(gs, s, w);
    forall d | d in gs[i] && d != w ensures Beats(w, d, o) { SurvivorBeats(s, o, w, d); }
    MaxIsUnbeaten(gs[i], w, o);
  }

  lemma SurvivorBeatsWinner(s: set<Candidate>, o: Oracle, w: Candidate, gs: seq<seq<Candidate>>, j: nat)
    requires DistinctPeers(s) && Comparable(s, o) && w in Survivors(s, o) && w in s
    requires IsGrouping(gs, s) && j < |gs| && MaxBy(gs[j], o) != w
    ensures Beats(w, MaxBy(gs[j], o), o)
  {
    GroupWinnerKeepsMed(gs, s, j, o);
    SurvivorBeats(s, o, w, MaxBy(gs[j], o));
  }

  lemma SurvivorIsSelected(s: set<Candidate>, o: Oracle, w: Candidate, gs: seq<seq<Candidate>>)
    requires DistinctPeers(s) && Comparable(s, o) && w in Survivors(s, o)
    requires gs != [] && IsGrouping(gs, s)
    ensures SelectFrom(gs, o) == w
  {
    SurvivorsAreCandidates(s, o);
    var ws := GroupWinners(gs, o);
    var i := SurvivorWinsGroup(s, o, w, gs);
    assert ws[i] == w;
    forall j | 0 <= j < |ws| && ws[j] != w ensures Beats(w, ws[j], o) {
      SurvivorBeatsWinner(s, o, w, gs, j);
    }
    MaxIsUnbeaten(ws, w, o);
  }

  lemma SurvivorsAreCandidates(s: set<Candidate>, o: Oracle)
    ensures Survivors(s, o) <= AfterMed(s) <= s
  {
  }

  lemma GroupWinnerKeepsMed(gs: seq<seq<Candidate>>, s: set<Candidate>, j: nat, o: Oracle)
    requires IsGrouping(gs, s) && j < |gs|
    ensures MaxBy(gs[j], o) in Tied(s) ==> MaxBy(gs[j], o) in AfterMed(s)
  {
    var m := MaxBy(gs[j], o);
    if m in Tied(s) {
      forall d | d in Tied(s) && SameNeighbor(m, d) ensures MedKey(m) <= MedKey(d) {
        GroupWinnerNotWorse(gs, s, j, o, d);
        TiedBeatsUntied(s, m, d);
      }
    }
  }

  /**
   Group-then-compare computes the elimination procedure: in whatever order the hash
   maps are walked, the selected route is the one and only survivor.
   */
  lemma SelectionIsElimination(s: set<Candidate>, o: Oracle, gs: seq<seq<Candidate>>)
    requires DistinctPeers(s) && Comparable(s, o)
    requires gs != [] && IsGrouping(gs, s)
    ensures Survivors(s, o) == {SelectFrom(gs, o)}
  {
    assert gs[0][0] in gs[0];
    SurvivorExists(s, o);
    forall w | w in Survivors(s, o) ensures w == SelectFrom(gs, o) {
      SurvivorIsSelected(s, o, w, gs);
    }
  }

  /** Peers are map keys, so reachable candidates never share one. */
  lemma ReachableDistinct(candidates: map<PeerId, Route>, o: Oracle)
    ensures DistinctPeers(ReachableSet(candidates, o))
  {
  }

  /** The same for a result returned by the selection method. */
  lemma SelectedIsSurvivor(candidates: map<PeerId, Route>, o: Oracle, best: Option<Candidate>)
    requires PossibleSelection(ReachableSet(candidates, o), o, best)
    ensures best.None? <==> forall p :: p in candidates ==> !Reachable(candidates[p], o)
    ensures best.Some? ==> best.value in AfterMed(ReachableSet(candidates, o))
    ensures best.Some? && Comparable(ReachableSet(candidates, o), o) ==>
              Survivors(ReachableSet(candidates, o), o) == {best.value}
  {
    var s := ReachableSet(candidates, o);
    assert forall p :: p in candidates && Reachable(candidates[p], o) ==> Candidate(p, candidates[p]) in s;
    if best.Some? {
      var gs :| gs != [] && IsGrouping(gs, s) && best.value == SelectFrom(gs, o);
      SelectionSurvivesMed(s, gs, o);
      ReachableDistinct(candidates, o);
      if Comparable(s, o) { SelectionIsElimination(s, o, gs); }
      assert best.value in s;
    }
  }
}
