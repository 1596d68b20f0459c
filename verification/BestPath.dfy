/**
 Best-path selection: the pairwise comparator, and the group-then-compare
 procedure that applies it in whatever order the hash maps are walked.
 */
module BestPath {
  import opened Types
  import opened AsPaths

  datatype Ordering = Less | Equal | Greater

  function Compare(a: int, b: int): Ordering {
    if a < b then Less else if a == b then Equal else Greater
  }

  function Flip(o: Ordering): Ordering {
    match o case Less => Greater case Equal => Equal case Greater => Less
  }

  datatype Candidate = Candidate(peer: PeerId, route: Route)

  /** Next-hop reachability and IGP metric, as the forwarding table reports them. */
  datatype Oracle = Oracle(isReachable: NextHop -> bool, igpMetric: NextHop -> Option<nat>)

  predicate Reachable(r: Route, o: Oracle) {
    r.nextHop.None? || o.isReachable(r.nextHop.value)
  }

  function LocalPrefOf(c: Candidate): nat {
    if c.route.localPref.Some? then c.route.localPref.value else DEFAULT_LOCAL_PREF
  }

  function LengthOf(c: Candidate): nat { PathLength(c.route.asPath) }

  function OriginOf(c: Candidate): nat {
    match c.route.origin case Igp => 0 case Egp => 1 case Incomplete => 2
  }

  function MedOf(c: Candidate): nat {
    if c.route.med.Some? then c.route.med.value else 0
  }

  function NeighborOf(c: Candidate): Option<Asn> { NeighboringAs(c.route.asPath) }

  /** MED means something only between two routes from the same known neighbour. */
  predicate MedComparable(a: Candidate, b: Candidate) {
    NeighborOf(a).Some? && NeighborOf(a) == NeighborOf(b)
  }

  /** Internal and ConfedMember tie (section 5.3 of RFC 5065). */
  function PeerTypeRank(pt: PeerType): nat {
    match pt
    case Internal | ConfedMember => 0
    case External => 1
    case Local => 2
  }

  function RankOf(c: Candidate): nat { PeerTypeRank(c.route.peerType) }

  function MetricOf(c: Candidate, o: Oracle): Option<nat> {
    if c.route.nextHop.None? then None else o.igpMetric(c.route.nextHop.value)
  }

  function ComparePeers(a: PeerId, b: PeerId): Ordering {
    match (a, b)
    case (PeerV4(x), PeerV4(y)) => Compare(x, y)
    case (PeerV6(x), PeerV6(y)) => Compare(x, y)
    case (PeerV4(_), PeerV6(_)) => Less
    case (PeerV6(_), PeerV4(_)) => Greater
  }

  /** Steps 0, 2, 4 and 5: fresh before stale, LOCAL_PREF, path length, ORIGIN. */
  function PreferHead(a: Candidate, b: Candidate): Ordering {
    if !a.route.stale && b.route.stale then Greater
    else if a.route.stale && !b.route.stale then Less
    else
      var pref := Compare(LocalPrefOf(a), LocalPrefOf(b));
      if pref != Equal then pref else
      var len := Compare(LengthOf(b), LengthOf(a));
      if len != Equal then len else
      Compare(OriginOf(b), OriginOf(a))
  }

  /** Step 6. */
  function PreferMed(a: Candidate, b: Candidate): Ordering {
    if MedComparable(a, b) then Compare(MedOf(b), MedOf(a)) else Equal
  }

  /** Steps 3/7 to 11: session rank, IGP metric, age, BGP Identifier, peer address. */
  function PreferTail(a: Candidate, b: Candidate, o: Oracle): Ordering {
    var rank := Compare(RankOf(a), RankOf(b));
    if rank != Equal then rank else
    var metric := match (MetricOf(a, o), MetricOf(b, o))
                  case (Some(ma), Some(mb)) => Compare(mb, ma)
                  case _ => Equal;
    if metric != Equal then metric else
    var age := if a.route.peerType.External?
               then Compare(b.route.receivedAt, a.route.receivedAt) else Equal;
    if age != Equal then age else
    var id := match (a.route.peerBgpId, b.route.peerBgpId)
              case (Some(ia), Some(ib)) => Compare(ib, ia)
              case _ => Equal;
    if id != Equal then id else
    ComparePeers(b.peer, a.peer)
  }

  /** Greater means `a` is preferred. */
  function Prefer(a: Candidate, b: Candidate, o: Oracle): Ordering {
    var head := PreferHead(a, b);
    if head != Equal then head else
    var med := PreferMed(a, b);
    if med != Equal then med else
    PreferTail(a, b, o)
  }

  predicate Beats(a: Candidate, b: Candidate, o: Oracle) {
    Prefer(a, b, o) == Greater
  }

  /** The comparator never contradicts itself and ties only a peer with itself. */
  lemma PreferAntisymmetric(a: Candidate, b: Candidate, o: Oracle)
    ensures Prefer(a, b, o) == Flip(Prefer(b, a, o))
    ensures Prefer(a, b, o) == Equal ==> a.peer == b.peer
    ensures a.peer != b.peer ==> Beats(a, b, o) || Beats(b, a, o)
  {
  }

  /** One step of an iterator maximum: the earlier element stays only if it is Greater. */
  function Better(a: Candidate, b: Candidate, o: Oracle): Candidate {
    if Beats(a, b, o) then a else b
  }

  function FoldFrom(acc: Candidate, xs: seq<Candidate>, o: Oracle): (m: Candidate)
    ensures m == acc || m in xs
    decreases xs
  {
    if xs == [] then acc else FoldFrom(Better(acc, xs[0], o), xs[1..], o)
  }

  function MaxBy(xs: seq<Candidate>, o: Oracle): (m: Candidate)
    requires xs != []
    ensures m in xs
  {
    FoldFrom(xs[0], xs[1..], o)
  }

  ghost predicate NoDuplicates(xs: seq<Candidate>) {
    forall i, j :: 0 <= i < j < |xs| ==> xs[i] != xs[j]
  }

  /** One walk of one group: each member once, all with the same neighbour. */
  ghost predicate IsGroup(g: seq<Candidate>) {
    g != [] && NoDuplicates(g) && forall c :: c in g ==> NeighborOf(c) == NeighborOf(g[0])
  }

  /** One way to walk the candidate set `s`, group by group. */
  ghost predicate IsGrouping(gs: seq<seq<Candidate>>, s: set<Candidate>) {
    && (forall i :: 0 <= i < |gs| ==> IsGroup(gs[i]))
    && (forall i, j :: 0 <= i < j < |gs| ==> NeighborOf(gs[i][0]) != NeighborOf(gs[j][0]))
    && (forall i, c :: 0 <= i < |gs| && c in gs[i] ==> c in s)
    && (forall c :: c in s ==> exists i :: 0 <= i < |gs| && c in gs[i])
  }

  function GroupWinners(gs: seq<seq<Candidate>>, o: Oracle): (ws: seq<Candidate>)
    requires forall i :: 0 <= i < |gs| ==> gs[i] != []
    ensures |ws| == |gs|
    ensures forall i :: 0 <= i < |gs| ==> ws[i] == MaxBy(gs[i], o)
  {
    seq(|gs|, i requires 0 <= i < |gs| => MaxBy(gs[i], o))
  }

  /** The route selected by one particular walk. */
  function SelectFrom(gs: seq<seq<Candidate>>, o: Oracle): Candidate
    requires gs != [] && forall i :: 0 <= i < |gs| ==> gs[i] != []
  {
    MaxBy(GroupWinners(gs, o), o)
  }

  /** The candidates left after step 1. */
  function ReachableSet(candidates: map<PeerId, Route>, o: Oracle): set<Candidate> {
    set p | p in candidates && Reachable(candidates[p], o) :: Candidate(p, candidates[p])
  }

  /** `r` is the outcome of some walk over `s`. */
  ghost predicate PossibleSelection(s: set<Candidate>, o: Oracle, r: Option<Candidate>) {
    match r
    case None => s == {}
    case Some(c) =>
      exists gs :: gs != [] && IsGrouping(gs, s) && c == SelectFrom(gs, o)
  }

  method FindMax(xs: seq<Candidate>, o: Oracle) returns (m: Candidate)
    requires xs != []
    ensures m == MaxBy(xs, o)
  {
    m := xs[0];
    for i := 1 to |xs|
      invariant FoldFrom(m, xs[i..], o) == MaxBy(xs, o)
    {
      m := Better(m, xs[i], o);
      assert xs[i..][1..] == xs[i + 1..];
    }
  }

  /** `groups` files each member of `seen` once, under its neighbour. */
  ghost predicate Filed(groups: map<Option<Asn>, seq<Candidate>>, seen: set<Candidate>) {
    && (forall k :: k in groups ==> groups[k] != [] && NoDuplicates(groups[k]))
    && (forall k, c :: k in groups && c in groups[k] ==> c in seen && NeighborOf(c) == k)
    && (forall c :: c in seen ==> NeighborOf(c) in groups && c in groups[NeighborOf(c)])
  }

  method FilterReachable(candidates: map<PeerId, Route>, o: Oracle) returns (reachable: seq<Candidate>)
    ensures NoDuplicates(reachable)
    ensures forall c :: c in reachable <==> c in ReachableSet(candidates, o)
  {
    reachable := [];
    var todo := candidates.Keys;
    while todo != {}
      invariant todo <= candidates.Keys
      invariant NoDuplicates(reachable)
      invariant forall c :: c in reachable <==> c in ReachableSet(candidates, o) && c.peer !in todo
      decreases todo
    {
      var p :| p in todo;
      todo := todo - {p};
      if Reachable(candidates[p], o) {
        reachable := reachable + [Candidate(p, candidates[p])];
      }
    }
  }

  ghost function Elements(xs: seq<Candidate>): set<Candidate> {
    set c | c in xs
  }

  method GroupByNeighbor(reachable: seq<Candidate>) returns (groups: map<Option<Asn>, seq<Candidate>>)
    requires NoDuplicates(reachable)
    ensures Filed(groups, Elements(reachable))
  {
    groups := map[];
    for i := 0 to |reachable|
      invariant Filed(groups, Elements(reachable[..i]))
    {
      var c := reachable[i];
      var k := NeighborOf(c);
      assert c !in reachable[..i];
      assert Elements(reachable[..i + 1]) == Elements(reachable[..i]) + {c};
      var members := if k in groups then groups[k] else [];
      groups := groups[k := members + [c]];
    }
    assert reachable[..|reachable|] == reachable;
  }

  /** `gs` lists the groups whose keys are no longer in `todo`, one each. */
  ghost predicate Walked(gs: seq<seq<Candidate>>, groups: map<Option<Asn>, seq<Candidate>>,
                         todo: set<Option<Asn>>) {
    && (forall i :: 0 <= i < |gs| ==> IsGroup(gs[i]))
    && (forall i :: 0 <= i < |gs| ==>
          var k := NeighborOf(gs[i][0]); k in groups && k !in todo && gs[i] == groups[k])
    && (forall i, j :: 0 <= i < j < |gs| ==> NeighborOf(gs[i][0]) != NeighborOf(gs[j][0]))
    && (forall k :: k in groups && k !in todo ==> groups[k] in gs)
  }

  lemma WalkedIsGrouping(gs: seq<seq<Candidate>>, groups: map<Option<Asn>, seq<Candidate>>, s: set<Candidate>)
    requires Filed(groups, s) && Walked(gs, groups, {})
    ensures IsGrouping(gs, s)
    ensures s != {} ==> gs != []
  {
    forall c | c in s ensures exists i :: 0 <= i < |gs| && c in gs[i] {
      assert groups[NeighborOf(c)] in gs;
    }
  }

  lemma WalkStep(gs: seq<seq<Candidate>>, groups: map<Option<Asn>, seq<Candidate>>, s: set<Candidate>,
                 todo: set<Option<Asn>>, k: Option<Asn>)
    requires Filed(groups, s) && todo <= groups.Keys && k in todo && Walked(gs, groups, todo)
    ensures Walked(gs + [groups[k]], groups, todo - {k})
  {
    var g := groups[k];
    assert g[0] in g;
    assert IsGroup(g);
    forall j | j in groups && j !in todo - {k} ensures groups[j] in gs + [g] {
      if j != k { assert groups[j] in gs; }
    }
  }

  /** Takes the maximum of each group, then of the group winners. */
  method SelectFromGroups(groups: map<Option<Asn>, seq<Candidate>>, ghost s: set<Candidate>, o: Oracle)
    returns (best: Candidate)
    requires Filed(groups, s) && s != {}
    ensures PossibleSelection(s, o, Some(best))
  {
    var winners: seq<Candidate> := [];
    ghost var gs: seq<seq<Candidate>> := [];
    var todo := groups.Keys;
    while todo != {}
      invariant todo <= groups.Keys
      invariant Walked(gs, groups, todo)
      invariant winners == GroupWinners(gs, o)
      decreases todo
    {
      var k :| k in todo;
      WalkStep(gs, groups, s, todo, k);
      var w := FindMax(groups[k], o);
      todo, winners, gs := todo - {k}, winners + [w], gs + [groups[k]];
    }
    WalkedIsGrouping(gs, groups, s);
    best := FindMax(winners, o);
    assert best == SelectFrom(gs, o);
  }

  /** Selects the best route; the result is that of some walk over the reachable candidates. */
  method SelectBestWithOracle(candidates: map<PeerId, Route>, o: Oracle) returns (best: Option<Candidate>)
    ensures PossibleSelection(ReachableSet(candidates, o), o, best)
  {
    var reachable := FilterReachable(candidates, o);
    if reachable == [] {
      return None;
    }
    var groups := GroupByNeighbor(reachable);
    ghost var s := ReachableSet(candidates, o);
    assert Elements(reachable) == s;
    assert reachable[0] in s;
    var c := SelectFromGroups(groups, s, o);
    best := Some(c);
  }
}
