/**
 The local routing table: candidate routes per prefix and peer, the winning peer per
 prefix, and the change notices that drive the forwarding table.
 */
module LocRib {
  import opened Types
  import opened BestPath
  import opened Elimination

  type Key = (Nlri, PeerId)

  datatype Change = Announced(nlri: Nlri, route: Route) | Withdrawn(nlri: Nlri) | Unchanged

  /** The abstract table: what the peers offered and who won. */
  datatype Rib = Rib(candidates: map<Key, Route>, best: map<Nlri, PeerId>)

  function CandidatesFor(m: map<Key, Route>, n: Nlri): map<PeerId, Route> {
    map k | k in m.Keys && k.0 == n :: k.1 := m[k]
  }

  function ReachableFor(m: map<Key, Route>, n: Nlri, o: Oracle): set<Candidate> {
    ReachableSet(CandidatesFor(m, n), o)
  }

  /** The recorded winner for `n`, or its absence, is an outcome of best-path selection. */
  ghost predicate BestFor(r: Rib, n: Nlri, o: Oracle) {
    if n in r.best
    then && (n, r.best[n]) in r.candidates
         && PossibleSelection(ReachableFor(r.candidates, n, o), o,
                              Some(Candidate(r.best[n], r.candidates[(n, r.best[n])])))
    else ReachableFor(r.candidates, n, o) == {}
  }

  ghost predicate UpToDate(r: Rib, o: Oracle) {
    forall n :: BestFor(r, n, o)
  }

  ghost predicate Sound(r: Rib) {
    forall n :: n in r.best ==> (n, r.best[n]) in r.candidates
  }

  function Winner(r: Rib, n: Nlri): Option<PeerId> {
    if n in r.best then Some(r.best[n]) else None
  }

  function RouteAt(r: Rib, n: Nlri): Option<Route> {
    if n in r.best && (n, r.best[n]) in r.candidates then Some(r.candidates[(n, r.best[n])]) else None
  }

  /** What a forwarding table in step with `r` holds. */
  function BestRoutes(r: Rib): map<Nlri, Route> {
    map n | n in r.best && RouteAt(r, n).Some? :: RouteAt(r, n).value
  }

  /** A consumer that acts on change notices and never reads the table. */
  function Apply(fib: map<Nlri, Route>, c: Change): map<Nlri, Route> {
    match c
    case Announced(n, route) => fib[n := route]
    case Withdrawn(n) => fib - {n}
    case Unchanged => fib
  }

  function ApplyAll(fib: map<Nlri, Route>, cs: seq<Change>): map<Nlri, Route>
    decreases cs
  {
    if cs == [] then fib else ApplyAll(Apply(fib, cs[0]), cs[1..])
  }

  /**
   The insert that takes a prefix from having a best route to having none: the new
   route's next hop and that of every other candidate are unreachable.
   */
  ghost predicate LosesWithdrawal(r: Rib, peer: PeerId, route: Route, o: Oracle) {
    && RouteAt(r, route.nlri).Some?
    && !Reachable(route, o)
    && forall p :: p != peer && (route.nlri, p) in r.candidates ==>
                     !Reachable(r.candidates[(route.nlri, p)], o)
  }

  // ---------- the operations ----------

  /** Best-path selection was redone for `n`; no other prefix has another winner. */
  ghost predicate Reselected(r: Rib, r': Rib, n: Nlri, o: Oracle) {
    r'.best - {n} == r.best - {n} && BestFor(r', n, o)
  }

  /** The notice an insert sends, from the tables before and after it. */
  function InsertNotice(r: Rib, r': Rib, peer: PeerId, n: Nlri): Change {
    if RouteAt(r', n).None? then Unchanged
    else if Winner(r, n) == Winner(r', n) != Some(peer) then Unchanged
    else Announced(n, RouteAt(r', n).value)
  }

  /** The notice a withdrawal of a present candidate sends; none if nothing is left and nothing was best. */
  function WithdrawNotice(r: Rib, r': Rib, peer: PeerId, n: Nlri): Change {
    if RouteAt(r', n).None?
    then (if n in r.best || CandidatesFor(r'.candidates, n) != map[] then Withdrawn(n) else Unchanged)
    else if Winner(r, n) == Winner(r', n) != Some(peer) then Unchanged
    else Announced(n, RouteAt(r', n).value)
  }

  /** The notice for one re-selected prefix; none when the winner is unchanged. */
  function ReselectNotice(r: Rib, r': Rib, n: Nlri): seq<Change> {
    if Winner(r, n) == Winner(r', n) then []
    else if RouteAt(r', n).None? then [Withdrawn(n)]
    else [Announced(n, RouteAt(r', n).value)]
  }

  ghost predicate InsertStep(r: Rib, peer: PeerId, route: Route, o: Oracle, r': Rib, change: Change) {
    && r'.candidates == r.candidates[(route.nlri, peer) := route]
    && Reselected(r, r', route.nlri, o)
    && change == InsertNotice(r, r', peer, route.nlri)
  }

  ghost predicate WithdrawStep(r: Rib, peer: PeerId, n: Nlri, o: Oracle, r': Rib, change: Change) {
    if (n, peer) in r.candidates
    then && r'.candidates == r.candidates - {(n, peer)}
         && Reselected(r, r', n, o)
         && change == WithdrawNotice(r, r', peer, n)
    else r' == r && change == Unchanged
  }

  ghost predicate ReselectStep(r: Rib, n: Nlri, o: Oracle, r': Rib, notice: seq<Change>) {
    && r'.candidates == r.candidates
    && Reselected(r, r', n, o)
    && notice == ReselectNotice(r, r', n)
  }

  /** `ns` walks `s`, each element once. */
  ghost predicate IsListing(ns: seq<Nlri>, s: set<Nlri>) {
    && (forall i, j :: 0 <= i < j < |ns| ==> ns[i] != ns[j])
    && (forall n :: n in ns <==> n in s)
  }

  /** The prefixes `peer` offers. */
  function PrefixesOf(r: Rib, peer: PeerId): set<Nlri> {
    set k | k in r.candidates && k.1 == peer :: k.0
  }

  function Prefixes(r: Rib): set<Nlri> {
    set k | k in r.candidates :: k.0
  }

  /** Withdrawals of `ns`, one after the other, with one notice each. */
  ghost predicate WithdrawChain(peer: PeerId, o: Oracle, ns: seq<Nlri>, states: seq<Rib>, changes: seq<Change>) {
    && |states| == |ns| + 1 && |changes| == |ns|
    && forall i :: 0 <= i < |ns| ==> WithdrawStep(states[i], peer, ns[i], o, states[i + 1], changes[i])
  }

  ghost predicate WithdrawPeerStep(r: Rib, peer: PeerId, o: Oracle, r': Rib, changes: seq<Change>) {
    exists ns, states ::
      && IsListing(ns, PrefixesOf(r, peer)) && WithdrawChain(peer, o, ns, states, changes)
      && states[0] == r && states[|ns|] == r'
  }

  ghost predicate ReselectChain(o: Oracle, ns: seq<Nlri>, states: seq<Rib>, notices: seq<seq<Change>>) {
    && |states| == |ns| + 1 && |notices| == |ns|
    && forall i :: 0 <= i < |ns| ==> ReselectStep(states[i], ns[i], o, states[i + 1], notices[i])
  }

  function Flat(notices: seq<seq<Change>>): seq<Change> {
    if notices == [] then [] else notices[0] + Flat(notices[1..])
  }

  ghost predicate RecomputeStep(r: Rib, o: Oracle, r': Rib, changes: seq<Change>) {
    exists ns, states, notices ::
      && IsListing(ns, Prefixes(r)) && ReselectChain(o, ns, states, notices)
      && states[0] == r && states[|ns|] == r' && changes == Flat(notices)
  }

  // ---------- facts about one prefix ----------

  /** Same candidates and same winner at `n`. */
  ghost predicate SameAt(r: Rib, r': Rib, n: Nlri) {
    && Winner(r, n) == Winner(r', n)
    && (forall p :: (n, p) in r.candidates <==> (n, p) in r'.candidates)
    && (forall p :: (n, p) in r.candidates ==> r.candidates[(n, p)] == r'.candidates[(n, p)])
  }

  lemma SameAtKeepsBest(r: Rib, r': Rib, n: Nlri, o: Oracle)
    requires SameAt(r, r', n)
    ensures BestFor(r, n, o) <==> BestFor(r', n, o)
    ensures RouteAt(r, n) == RouteAt(r', n)
  {
    var a, b := CandidatesFor(r.candidates, n), CandidatesFor(r'.candidates, n);
    forall p ensures p in a <==> p in b {
      assert p in a <==> (n, p) in r.candidates;
      assert p in b <==> (n, p) in r'.candidates;
    }
    assert a.Keys == b.Keys;
    assert a == b;
  }

  lemma NoneReachable(m: map<Key, Route>, n: Nlri, o: Oracle)
    ensures ReachableFor(m, n, o) == {} <==> forall p :: (n, p) in m ==> !Reachable(m[(n, p)], o)
  {
    var c := CandidatesFor(m, n);
    forall p | (n, p) in m ensures p in c && c[p] == m[(n, p)] {}
    if ReachableFor(m, n, o) == {} {
      forall p | (n, p) in m ensures !Reachable(m[(n, p)], o) {
        assert Candidate(p, c[p]) !in ReachableFor(m, n, o);
      }
    }
  }

  lemma SelectionIsMember(m: map<Key, Route>, n: Nlri, o: Oracle, c: Candidate)
    requires PossibleSelection(ReachableFor(m, n, o), o, Some(c))
    ensures (n, c.peer) in m && m[(n, c.peer)] == c.route && Reachable(c.route, o)
  {
    SelectedIsSurvivor(CandidatesFor(m, n), o, Some(c));
    assert c in AfterMed(ReachableFor(m, n, o));
  }

  /** The winner in an up-to-date table is a reachable candidate. */
  lemma BestIsReachable(r: Rib, n: Nlri, o: Oracle)
    requires BestFor(r, n, o) && n in r.best
    ensures Reachable(r.candidates[(n, r.best[n])], o)
  {
    SelectionIsMember(r.candidates, n, o, Candidate(r.best[n], r.candidates[(n, r.best[n])]));
  }

  /** An up-to-date prefix has a best route exactly when some candidate is reachable. */
  lemma BestIffReachable(r: Rib, n: Nlri, o: Oracle)
    requires BestFor(r, n, o)
    ensures RouteAt(r, n).Some? <==> exists p :: (n, p) in r.candidates && Reachable(r.candidates[(n, p)], o)
  {
    NoneReachable(r.candidates, n, o);
    if n in r.best { BestIsReachable(r, n, o); }
  }

  /** In an up-to-date table only the winner's own replacement can lose a withdrawal. */
  lemma OnlyWinnerLosesWithdrawal(r: Rib, peer: PeerId, route: Route, o: Oracle)
    requires BestFor(r, route.nlri, o) && LosesWithdrawal(r, peer, route, o)
    ensures r.best[route.nlri] == peer
  {
    BestIsReachable(r, route.nlri, o);
  }

  // ---------- notices ----------

  predicate Names(c: Change, n: Nlri) {
    !c.Unchanged? && c.nlri == n
  }

  /** The notices that name `n`, in order. */
  function Naming(cs: seq<Change>, n: Nlri): seq<Change> {
    if cs == [] then [] else (if Names(cs[0], n) then [cs[0]] else []) + Naming(cs[1..], n)
  }

  lemma {:induction false} NamingAppend(a: seq<Change>, b: seq<Change>, n: Nlri)
    ensures Naming(a + b, n) == Naming(a, n) + Naming(b, n)
  {
    if a == [] {
      assert a + b == b;
    } else {
      assert (a + b)[0] == a[0] && (a + b)[1..] == a[1..] + b;
      NamingAppend(a[1..], b, n);
    }
  }

  lemma NamingOne(c: Change, n: Nlri)
    ensures Naming([c], n) == if Names(c, n) then [c] else []
  {
    assert [c][1..] == [];
  }

  function Get<T>(m: map<Nlri, T>, n: Nlri): Option<T> {
    if n in m then Some(m[n]) else None
  }

  /** The effect of notices on what the consumer holds for one prefix. */
  function PointAll(v: Option<Route>, cs: seq<Change>): Option<Route>
    decreases cs
  {
    if cs == [] then v
    else PointAll(match cs[0] case Announced(_, route) => Some(route) case Withdrawn(_) => None case Unchanged => v,
                  cs[1..])
  }

  /** What the consumer holds for a prefix depends on the notices naming it alone. */
  lemma {:induction false} ApplyAllAt(fib: map<Nlri, Route>, cs: seq<Change>, n: Nlri)
    ensures Get(ApplyAll(fib, cs), n) == PointAll(Get(fib, n), Naming(cs, n))
    decreases cs
  {
    if cs != [] {
      ApplyAllAt(Apply(fib, cs[0]), cs[1..], n);
      if Names(cs[0], n) {
        assert Naming(cs, n)[0] == cs[0] && Naming(cs, n)[1..] == Naming(cs[1..], n);
      } else {
        assert Naming(cs, n) == Naming(cs[1..], n);
        assert Get(Apply(fib, cs[0]), n) == Get(fib, n);
      }
    }
  }

  /** The notices `cs` tell a consumer of the change at `n` from `r` to `r'`. */
  predicate NoticeRight(r: Rib, r': Rib, n: Nlri, cs: seq<Change>) {
    || (cs == [] && RouteAt(r, n) == RouteAt(r', n))
    || (RouteAt(r', n).Some? && cs == [Announced(n, RouteAt(r', n).value)])
    || (RouteAt(r', n).None? && cs == [Withdrawn(n)])
  }

  lemma GetBestRoutes(r: Rib, n: Nlri)
    ensures Get(BestRoutes(r), n) == RouteAt(r, n)
  {
  }

  /** Notices that are right about every prefix bring the consumer's table in line. */
  lemma RightNoticesReplay(r: Rib, r': Rib, cs: seq<Change>)
    requires forall n :: NoticeRight(r, r', n, Naming(cs, n))
    ensures ApplyAll(BestRoutes(r), cs) == BestRoutes(r')
  {
    var a, b := ApplyAll(BestRoutes(r), cs), BestRoutes(r');
    forall n ensures Get(a, n) == Get(b, n) {
      ApplyAllAt(BestRoutes(r), cs, n);
      GetBestRoutes(r, n);
      GetBestRoutes(r', n);
      assert NoticeRight(r, r', n, Naming(cs, n));
    }
    SameEverywhere(a, b);
  }

  lemma SameEverywhere<T>(a: map<Nlri, T>, b: map<Nlri, T>)
    requires forall n :: Get(a, n) == Get(b, n)
    ensures a == b
  {
    forall n ensures n in a <==> n in b { assert Get(a, n) == Get(b, n); }
    assert a.Keys == b.Keys;
    forall n | n in a ensures a[n] == b[n] { assert Get(a, n) == Get(b, n); }
  }

  // ---------- one prefix at a time ----------

  /** `r'` differs from `r` at prefix `n` only. */
  ghost predicate SameElsewhere(r: Rib, r': Rib, n: Nlri) {
    forall m :: m != n ==> SameAt(r, r', m)
  }

  lemma ReselectedElsewhere(r: Rib, r': Rib, n: Nlri, o: Oracle)
    requires Reselected(r, r', n, o)
    requires forall k: Key :: k.0 != n ==> (k in r.candidates <==> k in r'.candidates)
    requires forall k: Key :: k.0 != n && k in r.candidates ==> r'.candidates[k] == r.candidates[k]
    ensures SameElsewhere(r, r', n)
  {
    forall m | m != n ensures SameAt(r, r', m) {
      assert m in r.best <==> m in r.best - {n};
      assert m in r'.best <==> m in r'.best - {n};
      if m in r.best { assert (r.best - {n})[m] == (r'.best - {n})[m]; }
    }
  }

  lemma ReselectedKeepsSound(r: Rib, r': Rib, n: Nlri, o: Oracle)
    requires Sound(r) && SameElsewhere(r, r', n) && BestFor(r', n, o)
    ensures Sound(r')
  {
    forall m | m in r'.best && m != n ensures (m, r'.best[m]) in r'.candidates {
      assert SameAt(r, r', m);
      assert (m, r.best[m]) in r.candidates;
    }
  }

  /** An operation on `n` that sent `cs` concerns `n` only and is right about it. */
  ghost predicate Local(r: Rib, r': Rib, n: Nlri, cs: seq<Change>) {
    && SameElsewhere(r, r', n)
    && (forall m :: m != n ==> Naming(cs, m) == [])
    && NoticeRight(r, r', n, Naming(cs, n))
  }

  lemma LocalReplays(r: Rib, r': Rib, n: Nlri, cs: seq<Change>)
    requires Local(r, r', n, cs)
    ensures ApplyAll(BestRoutes(r), cs) == BestRoutes(r')
  {
    forall m ensures NoticeRight(r, r', m, Naming(cs, m)) {
      if m != n {
        assert SameAt(r, r', m);
      }
    }
    RightNoticesReplay(r, r', cs);
  }

  /** The insert's notice is right, except exactly when it takes the last reachable route away. */
  lemma InsertIsLocal(r: Rib, peer: PeerId, route: Route, o: Oracle, r': Rib, change: Change)
    requires InsertStep(r, peer, route, o, r', change)
    ensures SameElsewhere(r, r', route.nlri)
    ensures Local(r, r', route.nlri, [change]) <==> !LosesWithdrawal(r, peer, route, o)
    ensures LosesWithdrawal(r, peer, route, o) ==> RouteAt(r', route.nlri).None? && change == Unchanged
  {
    var n := route.nlri;
    ReselectedElsewhere(r, r', n, o);
    forall m ensures Naming([change], m) == if Names(change, m) then [change] else [] { NamingOne(change, m); }
    BestIffReachable(r', n, o);
    LosesIffEmptied(r, peer, route, o, r');
  }

  lemma LosesIffEmptied(r: Rib, peer: PeerId, route: Route, o: Oracle, r': Rib)
    requires r'.candidates == r.candidates[(route.nlri, peer) := route] && BestFor(r', route.nlri, o)
    ensures LosesWithdrawal(r, peer, route, o) <==> RouteAt(r, route.nlri).Some? && RouteAt(r', route.nlri).None?
  {
    var n := route.nlri;
    BestIffReachable(r', n, o);
    assert (n, peer) in r'.candidates;
    if RouteAt(r', n).None? {
      forall p | p != peer && (n, p) in r.candidates ensures !Reachable(r.candidates[(n, p)], o) {
        assert (n, p) in r'.candidates;
      }
    }
  }

  /** A withdrawal's notice is always right. */
  lemma WithdrawIsLocal(r: Rib, peer: PeerId, n: Nlri, o: Oracle, r': Rib, change: Change)
    requires WithdrawStep(r, peer, n, o, r', change)
    ensures Local(r, r', n, [change])
  {
    forall m ensures Naming([change], m) == if Names(change, m) then [change] else [] { NamingOne(change, m); }
    if (n, peer) in r.candidates {
      ReselectedElsewhere(r, r', n, o);
    }
  }

  /** A re-selection's notice is right, and there is one exactly when the winner changed. */
  lemma ReselectIsLocal(r: Rib, n: Nlri, o: Oracle, r': Rib, notice: seq<Change>)
    requires ReselectStep(r, n, o, r', notice)
    ensures Local(r, r', n, notice)
    ensures Naming(notice, n) == [] <==> Winner(r, n) == Winner(r', n)
  {
    ReselectedElsewhere(r, r', n, o);
    if notice != [] {
      assert notice == [notice[0]];
      forall m ensures Naming(notice, m) == if Names(notice[0], m) then [notice[0]] else [] { NamingOne(notice[0], m); }
    }
  }

  /** The notice an insert sends brings a consumer in line exactly when it loses no withdrawal. */
  lemma InsertReplays(r: Rib, peer: PeerId, route: Route, o: Oracle, r': Rib, change: Change)
    requires InsertStep(r, peer, route, o, r', change)
    ensures Apply(BestRoutes(r), change) == BestRoutes(r') <==> !LosesWithdrawal(r, peer, route, o)
  {
    var n := route.nlri;
    InsertIsLocal(r, peer, route, o, r', change);
    ApplyAllOne(BestRoutes(r), change);
    if LosesWithdrawal(r, peer, route, o) {
      GetBestRoutes(r, n);
      GetBestRoutes(r', n);
    } else {
      LocalReplays(r, r', n, [change]);
    }
  }

  lemma ApplyAllOne(fib: map<Nlri, Route>, c: Change)
    ensures ApplyAll(fib, [c]) == Apply(fib, c)
  {
    assert [c][1..] == [];
  }

  // ---------- many prefixes ----------

  ghost predicate LocalChain(ns: seq<Nlri>, states: seq<Rib>, notices: seq<seq<Change>>) {
    && |states| == |ns| + 1 && |notices| == |ns|
    && (forall i, j :: 0 <= i < j < |ns| ==> ns[i] != ns[j])
    && forall i :: 0 <= i < |ns| ==> Local(states[i], states[i + 1], ns[i], notices[i])
  }

  lemma LocalChainTail(ns: seq<Nlri>, states: seq<Rib>, notices: seq<seq<Change>>)
    requires LocalChain(ns, states, notices) && ns != []
    ensures LocalChain(ns[1..], states[1..], notices[1..])
  {
    forall i | 0 <= i < |ns[1..]| ensures Local(states[1..][i], states[1..][i + 1], ns[1..][i], notices[1..][i]) {
      assert Local(states[i + 1], states[i + 2], ns[i + 1], notices[i + 1]);
    }
  }

  lemma SameAtTransitive(a: Rib, b: Rib, c: Rib, n: Nlri)
    requires SameAt(a, b, n) && SameAt(b, c, n)
    ensures SameAt(a, c, n)
  {
  }

  /** A prefix off the chain is untouched and unnamed. */
  lemma {:induction false} ChainElsewhere(ns: seq<Nlri>, states: seq<Rib>, notices: seq<seq<Change>>, n: Nlri)
    requires LocalChain(ns, states, notices) && n !in ns
    ensures SameAt(states[0], states[|ns|], n) && Naming(Flat(notices), n) == []
    decreases ns
  {
    if ns != [] {
      LocalChainTail(ns, states, notices);
      ChainElsewhere(ns[1..], states[1..], notices[1..], n);
      assert Local(states[0], states[1], ns[0], notices[0]);
      SameAtTransitive(states[0], states[1], states[|ns|], n);
      NamingAppend(notices[0], Flat(notices[1..]), n);
    }
  }

  /** A prefix on the chain is affected by its own step alone. */
  lemma {:induction false} ChainAt(ns: seq<Nlri>, states: seq<Rib>, notices: seq<seq<Change>>, i: nat)
    requires LocalChain(ns, states, notices) && i < |ns|
    ensures SameAt(states[0], states[i], ns[i]) && SameAt(states[i + 1], states[|ns|], ns[i])
    ensures Naming(Flat(notices), ns[i]) == Naming(notices[i], ns[i])
    decreases ns
  {
    var n := ns[i];
    LocalChainTail(ns, states, notices);
    assert Local(states[0], states[1], ns[0], notices[0]);
    NamingAppend(notices[0], Flat(notices[1..]), n);
    if i == 0 {
      ChainElsewhere(ns[1..], states[1..], notices[1..], n);
    } else {
      ChainAt(ns[1..], states[1..], notices[1..], i - 1);
      SameAtTransitive(states[0], states[1], states[i], n);
    }
  }

  lemma ChainNoticeRight(ns: seq<Nlri>, states: seq<Rib>, notices: seq<seq<Change>>, n: Nlri)
    requires LocalChain(ns, states, notices)
    ensures NoticeRight(states[0], states[|ns|], n, Naming(Flat(notices), n))
  {
    if n in ns {
      var i :| 0 <= i < |ns| && ns[i] == n;
      ChainAt(ns, states, notices, i);
      assert Local(states[i], states[i + 1], n, notices[i]);
    } else {
      ChainElsewhere(ns, states, notices, n);
    }
  }

  function Singles(changes: seq<Change>): (ss: seq<seq<Change>>)
    ensures |ss| == |changes| && forall i :: 0 <= i < |changes| ==> ss[i] == [changes[i]]
  {
    seq(|changes|, i requires 0 <= i < |changes| => [changes[i]])
  }

  lemma {:induction false} FlatSingles(changes: seq<Change>)
    ensures Flat(Singles(changes)) == changes
  {
    if changes != [] {
      assert Singles(changes)[1..] == Singles(changes[1..]);
      FlatSingles(changes[1..]);
    }
  }

  lemma WithdrawChainIsLocal(peer: PeerId, o: Oracle, ns: seq<Nlri>, states: seq<Rib>, changes: seq<Change>)
    requires WithdrawChain(peer, o, ns, states, changes)
    requires forall i, j :: 0 <= i < j < |ns| ==> ns[i] != ns[j]
    ensures LocalChain(ns, states, Singles(changes))
  {
    forall i | 0 <= i < |ns| ensures Local(states[i], states[i + 1], ns[i], Singles(changes)[i]) {
      assert WithdrawStep(states[i], peer, ns[i], o, states[i + 1], changes[i]);
      WithdrawIsLocal(states[i], peer, ns[i], o, states[i + 1], changes[i]);
    }
  }

  lemma ReselectChainIsLocal(o: Oracle, ns: seq<Nlri>, states: seq<Rib>, notices: seq<seq<Change>>)
    requires ReselectChain(o, ns, states, notices)
    requires forall i, j :: 0 <= i < j < |ns| ==> ns[i] != ns[j]
    ensures LocalChain(ns, states, notices)
  {
    forall i | 0 <= i < |ns| ensures Local(states[i], states[i + 1], ns[i], notices[i]) {
      assert ReselectStep(states[i], ns[i], o, states[i + 1], notices[i]);
      ReselectIsLocal(states[i], ns[i], o, states[i + 1], notices[i]);
    }
  }

  /** What withdrawing a peer does at one prefix. */
  lemma WithdrawPeerAt(r: Rib, peer: PeerId, o: Oracle, r': Rib, changes: seq<Change>, n: Nlri)
    requires WithdrawPeerStep(r, peer, o, r', changes)
    ensures NoticeRight(r, r', n, Naming(changes, n))
    ensures if (n, peer) in r.candidates
            then BestFor(r', n, o) && CandidatesFor(r'.candidates, n) == CandidatesFor(r.candidates, n) - {peer}
            else SameAt(r, r', n) && Naming(changes, n) == []
  {
    var ns, states :| IsListing(ns, PrefixesOf(r, peer)) && WithdrawChain(peer, o, ns, states, changes)
                      && states[0] == r && states[|ns|] == r';
    WithdrawChainIsLocal(peer, o, ns, states, changes);
    FlatSingles(changes);
    ChainNoticeRight(ns, states, Singles(changes), n);
    assert (n, peer) in r.candidates ==> (n, peer).0 in PrefixesOf(r, peer);
    if n in ns {
      var i :| 0 <= i < |ns| && ns[i] == n;
      ChainAt(ns, states, Singles(changes), i);
      assert WithdrawStep(states[i], peer, n, o, states[i + 1], changes[i]);
      assert (n, peer) in r.candidates;
      SameAtKeepsBest(states[i + 1], r', n, o);
      WithdrawnCandidates(r, states[i], states[i + 1], r', n, peer);
    } else {
      ChainElsewhere(ns, states, Singles(changes), n);
    }
  }

  lemma WithdrawnCandidates(r: Rib, a: Rib, b: Rib, r': Rib, n: Nlri, peer: PeerId)
    requires SameAt(r, a, n) && b.candidates == a.candidates - {(n, peer)} && SameAt(b, r', n)
    ensures CandidatesFor(r'.candidates, n) == CandidatesFor(r.candidates, n) - {peer}
  {
    var x, y := CandidatesFor(r.candidates, n), CandidatesFor(r'.candidates, n);
    forall p ensures p in y <==> p in x && p != peer {
      assert p in x <==> (n, p) in r.candidates;
      assert p in y <==> (n, p) in r'.candidates;
      assert (n, p) in b.candidates <==> (n, p) in a.candidates && p != peer;
    }
    assert y.Keys == x.Keys - {peer};
  }

  lemma WithdrawPeerCandidates(r: Rib, peer: PeerId, o: Oracle, r': Rib, changes: seq<Change>)
    requires WithdrawPeerStep(r, peer, o, r', changes)
    ensures r'.candidates == r.candidates - (set k | k in r.candidates && k.1 == peer)
  {
    var left := r.candidates - (set k | k in r.candidates && k.1 == peer);
    forall k: Key ensures k in r'.candidates <==> k in left {
      WithdrawPeerAt(r, peer, o, r', changes, k.0);
      CandidateKey(r, k);
      CandidateKey(r', k);
    }
    forall k: Key | k in left ensures r'.candidates[k] == left[k] {
      WithdrawPeerAt(r, peer, o, r', changes, k.0);
      CandidateKey(r, k);
      CandidateKey(r', k);
    }
  }

  lemma CandidateKey(r: Rib, k: Key)
    ensures k in r.candidates <==> k.1 in CandidatesFor(r.candidates, k.0)
    ensures k in r.candidates ==> CandidatesFor(r.candidates, k.0)[k.1] == r.candidates[k]
  {
    assert k == (k.0, k.1);
  }

  lemma {:induction false} ListingLength(ns: seq<Nlri>, s: set<Nlri>)
    requires IsListing(ns, s)
    ensures |ns| == |s|
    decreases ns
  {
    if ns == [] {
      assert s == {};
    } else {
      assert ns[0] in s && ns == [ns[0]] + ns[1..];
      ListingLength(ns[1..], s - {ns[0]});
    }
  }

  /** Withdrawing a peer takes exactly its candidates; its notices, one per prefix, bring a consumer in line. */
  lemma WithdrawPeerReplays(r: Rib, peer: PeerId, o: Oracle, r': Rib, changes: seq<Change>)
    requires WithdrawPeerStep(r, peer, o, r', changes)
    ensures r'.candidates == r.candidates - (set k | k in r.candidates && k.1 == peer)
    ensures |changes| == |PrefixesOf(r, peer)|
    ensures ApplyAll(BestRoutes(r), changes) == BestRoutes(r')
  {
    WithdrawPeerCandidates(r, peer, o, r', changes);
    var ns, states :| IsListing(ns, PrefixesOf(r, peer)) && WithdrawChain(peer, o, ns, states, changes)
                      && states[0] == r && states[|ns|] == r';
    ListingLength(ns, PrefixesOf(r, peer));
    forall n ensures NoticeRight(r, r', n, Naming(changes, n)) {
      WithdrawPeerAt(r, peer, o, r', changes, n);
    }
    RightNoticesReplay(r, r', changes);
  }

  /** What re-selecting everything does at one prefix; it is named exactly when its winner changed. */
  lemma RecomputeAt(r: Rib, o: Oracle, r': Rib, changes: seq<Change>, n: Nlri)
    requires RecomputeStep(r, o, r', changes)
    ensures NoticeRight(r, r', n, Naming(changes, n)) && (Sound(r) ==> BestFor(r', n, o))
    ensures Naming(changes, n) == [] <==> Winner(r, n) == Winner(r', n)
    ensures forall p :: (n, p) in r'.candidates <==> (n, p) in r.candidates
    ensures forall p :: (n, p) in r.candidates ==> r'.candidates[(n, p)] == r.candidates[(n, p)]
  {
    var ns, states, notices :| IsListing(ns, Prefixes(r)) && ReselectChain(o, ns, states, notices)
                               && states[0] == r && states[|ns|] == r' && changes == Flat(notices);
    ReselectChainIsLocal(o, ns, states, notices);
    ChainNoticeRight(ns, states, notices, n);
    if n in ns {
      var i :| 0 <= i < |ns| && ns[i] == n;
      ChainAt(ns, states, notices, i);
      assert ReselectStep(states[i], n, o, states[i + 1], notices[i]);
      ReselectIsLocal(states[i], n, o, states[i + 1], notices[i]);
      SameAtKeepsBest(states[i + 1], r', n, o);
    } else {
      ChainElsewhere(ns, states, notices, n);
      if Sound(r) { NoCandidates(r, n, o); }
      SameAtKeepsBest(r, r', n, o);
    }
  }

  lemma NoCandidates(r: Rib, n: Nlri, o: Oracle)
    requires Sound(r) && n !in Prefixes(r)
    ensures BestFor(r, n, o)
  {
    assert forall k :: k in r.candidates ==> k.0 in Prefixes(r);
    assert forall p :: (n, p) in r.candidates ==> (n, p).0 in Prefixes(r);
    NoneReachable(r.candidates, n, o);
  }

  lemma {:induction false} FlatMembers(notices: seq<seq<Change>>)
    requires forall i :: 0 <= i < |notices| ==> Unchanged !in notices[i]
    ensures Unchanged !in Flat(notices)
  {
    if notices != [] { FlatMembers(notices[1..]); }
  }

  /** Re-selecting everything brings every prefix up to date, and its notices bring a consumer in line. */
  lemma RecomputeReplays(r: Rib, o: Oracle, r': Rib, changes: seq<Change>)
    requires RecomputeStep(r, o, r', changes) && Sound(r)
    ensures UpToDate(r', o) && r'.candidates == r.candidates && Unchanged !in changes
    ensures forall n :: Naming(changes, n) == [] <==> Winner(r, n) == Winner(r', n)
    ensures ApplyAll(BestRoutes(r), changes) == BestRoutes(r')
  {
    forall n ensures NoticeRight(r, r', n, Naming(changes, n)) && BestFor(r', n, o)
      && (Naming(changes, n) == [] <==> Winner(r, n) == Winner(r', n))
    {
      RecomputeAt(r, o, r', changes, n);
    }
    var ns, states, notices :| IsListing(ns, Prefixes(r)) && ReselectChain(o, ns, states, notices)
                               && states[0] == r && states[|ns|] == r' && changes == Flat(notices);
    forall i | 0 <= i < |notices| ensures Unchanged !in notices[i] {
      assert ReselectStep(states[i], ns[i], o, states[i + 1], notices[i]);
    }
    FlatMembers(notices);
    forall k: Key ensures k in r'.candidates <==> k in r.candidates {
      RecomputeAt(r, o, r', changes, k.0);
      assert k == (k.0, k.1);
    }
    forall k | k in r.candidates ensures r'.candidates[k] == r.candidates[k] {
      RecomputeAt(r, o, r', changes, k.0);
      assert k == (k.0, k.1);
    }
    RightNoticesReplay(r, r', changes);
  }

  // ---------- a lone reachable candidate ----------

  lemma LoneSelection(c: Candidate, o: Oracle)
    ensures PossibleSelection({c}, o, Some(c))
  {
    var gs := [[c]];
    assert IsGroup([c]);
    assert gs[0] == [c] && c in gs[0];
    assert [c][1..] == [];
    assert GroupWinners(gs, o) == [c];
    assert gs != [] && IsGrouping(gs, {c}) && c == SelectFrom(gs, o);
  }

  /** The only reachable candidate of a prefix is its best. */
  lemma LoneBest(r: Rib, n: Nlri, peer: PeerId, o: Oracle)
    requires (n, peer) in r.candidates && Reachable(r.candidates[(n, peer)], o)
    requires forall p :: p != peer && (n, p) in r.candidates ==> !Reachable(r.candidates[(n, p)], o)
    requires Winner(r, n) == Some(peer)
    ensures BestFor(r, n, o)
  {
    var c := Candidate(peer, r.candidates[(n, peer)]);
    var s := ReachableFor(r.candidates, n, o);
    assert CandidatesFor(r.candidates, n)[peer] == c.route;
    forall d | d in s ensures d == c { assert (n, d.peer) in r.candidates; }
    assert c in s;
    assert s == {c};
    LoneSelection(c, o);
  }

  // ---------- the table ----------

  /** `index` lists exactly the peers with a candidate. */
  ghost predicate Indexed(m: map<Key, Route>, index: map<Nlri, seq<PeerId>>) {
    && (forall n, p :: n in index && p in index[n] ==> (n, p) in m)
    && (forall n, p :: (n, p) in m ==> n in index && p in index[n])
    && (forall n :: n in index ==> index[n] != [])
  }

  /** Every route is stored under its own prefix. */
  ghost predicate FiledByPrefix(m: map<Key, Route>) {
    forall k :: k in m ==> m[k].nlri == k.0
  }

  function Without(xs: seq<PeerId>, p: PeerId): (ys: seq<PeerId>)
    ensures forall q :: q in ys <==> q in xs && q != p
  {
    if xs == [] then [] else (if xs[0] == p then [] else [xs[0]]) + Without(xs[1..], p)
  }

  lemma IndexedWithout(m: map<Key, Route>, index: map<Nlri, seq<PeerId>>, n: Nlri, peer: PeerId)
    requires Indexed(m, index) && (n, peer) in m
    ensures var m', peers := m - {(n, peer)}, Without(index[n], peer);
            Indexed(m', if peers == [] then index - {n} else index[n := peers])
  {
  }

  lemma UnindexedIsEmpty(m: map<Key, Route>, index: map<Nlri, seq<PeerId>>, n: Nlri)
    requires Indexed(m, index)
    ensures n in index <==> CandidatesFor(m, n) != map[]
  {
    if n in index {
      assert (n, index[n][0]) in m;
      assert index[n][0] in CandidatesFor(m, n);
    }
    if CandidatesFor(m, n) != map[] {
      var p :| p in CandidatesFor(m, n);
      assert (n, p) in m;
    }
  }

  lemma WithdrawChainSnoc(peer: PeerId, o: Oracle, ns: seq<Nlri>, states: seq<Rib>, changes: seq<Change>,
                          n: Nlri, r: Rib, change: Change)
    requires WithdrawChain(peer, o, ns, states, changes) && WithdrawStep(states[|ns|], peer, n, o, r, change)
    ensures WithdrawChain(peer, o, ns + [n], states + [r], changes + [change])
  {
    var ns', states', changes' := ns + [n], states + [r], changes + [change];
    forall i | 0 <= i < |ns'| ensures WithdrawStep(states'[i], peer, ns'[i], o, states'[i + 1], changes'[i]) {
      if i < |ns| { assert WithdrawStep(states[i], peer, ns[i], o, states[i + 1], changes[i]); }
    }
  }

  lemma ReselectChainSnoc(o: Oracle, ns: seq<Nlri>, states: seq<Rib>, notices: seq<seq<Change>>,
                          n: Nlri, r: Rib, notice: seq<Change>)
    requires ReselectChain(o, ns, states, notices) && ReselectStep(states[|ns|], n, o, r, notice)
    ensures ReselectChain(o, ns + [n], states + [r], notices + [notice])
    ensures Flat(notices + [notice]) == Flat(notices) + notice
  {
    var ns', states', notices' := ns + [n], states + [r], notices + [notice];
    forall i | 0 <= i < |ns'| ensures ReselectStep(states'[i], ns'[i], o, states'[i + 1], notices'[i]) {
      if i < |ns| { assert ReselectStep(states[i], ns[i], o, states[i + 1], notices[i]); }
    }
    FlatSnoc(notices, notice);
  }

  lemma {:induction false} FlatSnoc(notices: seq<seq<Change>>, notice: seq<Change>)
    ensures Flat(notices + [notice]) == Flat(notices) + notice
  {
    if notices == [] {
      assert notices + [notice] == [notice] && [notice][1..] == [];
    } else {
      assert (notices + [notice])[0] == notices[0] && (notices + [notice])[1..] == notices[1..] + [notice];
      FlatSnoc(notices[1..], notice);
    }
  }

  lemma ListingSnoc(ns: seq<Nlri>, all: set<Nlri>, todo: set<Nlri>, n: Nlri)
    requires IsListing(ns, all - todo) && n in todo && todo <= all
    ensures IsListing(ns + [n], all - (todo - {n}))
  {
  }

  class LocRib {
    var candidates: map<Key, Route>
    /** For each prefix, the peers with a candidate, so one prefix is found without a scan. */
    var peerIndex: map<Nlri, seq<PeerId>>
    var best: map<Nlri, PeerId>

    ghost predicate Valid()
      reads this
    {
      && Indexed(candidates, peerIndex)
      && Sound(State())
      && FiledByPrefix(candidates)
    }

    ghost function State(): Rib
      reads this
    {
      Rib(candidates, best)
    }

    constructor ()
      ensures Valid() && State() == Rib(map[], map[])
    {
      candidates, peerIndex, best := map[], map[], map[];
    }

    method RecomputeBest(n: Nlri, o: Oracle)
      requires Indexed(candidates, peerIndex)
      modifies this`best
      ensures best - {n} == old(best) - {n}
      ensures BestFor(State(), n, o)
    {
      var peerMap: map<PeerId, Route> := map[];
      var peers := if n in peerIndex then peerIndex[n] else [];
      for i := 0 to |peers|
        invariant forall p :: p in peerMap <==> p in peers[..i]
        invariant forall p :: p in peerMap ==> (n, p) in candidates && peerMap[p] == candidates[(n, p)]
      {
        peerMap := peerMap[peers[i] := candidates[(n, peers[i])]];
      }
      assert peers[..|peers|] == peers;
      assert peerMap == CandidatesFor(candidates, n);
      var winner := SelectBestWithOracle(peerMap, o);
      if winner.Some? {
        SelectionIsMember(candidates, n, o, winner.value);
        best := best[n := winner.value.peer];
      } else {
        best := best - {n};
      }
    }

    method AddCandidate(peer: PeerId, route: Route)
      requires Indexed(candidates, peerIndex) && FiledByPrefix(candidates)
      modifies this`candidates, this`peerIndex
      ensures candidates == old(candidates)[(route.nlri, peer) := route]
      ensures Indexed(candidates, peerIndex) && FiledByPrefix(candidates)
    {
      var n := route.nlri;
      candidates := candidates[(n, peer) := route];
      var peers := if n in peerIndex then peerIndex[n] else [];
      if peer !in peers {
        peers := peers + [peer];
      }
      peerIndex := peerIndex[n := peers];
    }

    /** Adds or replaces one peer's route and re-selects its prefix. */
    method Insert(peer: PeerId, route: Route, o: Oracle) returns (change: Change)
      requires Valid()
      modifies this
      ensures Valid()
      ensures InsertStep(old(State()), peer, route, o, State(), change)
      ensures Apply(old(BestRoutes(State())), change) == BestRoutes(State())
         <==> !LosesWithdrawal(old(State()), peer, route, o)
    {
      var n := route.nlri;
      ghost var r := State();
      var oldBest := if n in best then Some(best[n]) else None;
      AddCandidate(peer, route);
      RecomputeBest(n, o);
      if n !in best {
        change := Unchanged;
      } else if oldBest == Some(best[n]) && peer != best[n] {
        change := Unchanged;
      } else {
        change := Announced(n, candidates[(n, best[n])]);
      }
      assert InsertStep(r, peer, route, o, State(), change);
      InsertIsLocal(r, peer, route, o, State(), change);
      ReselectedKeepsSound(r, State(), n, o);
      InsertReplays(r, peer, route, o, State(), change);
    }

    /** Re-selects `n` after a withdrawal that left other candidates. */
    method ReselectAfterWithdraw(peer: PeerId, n: Nlri, o: Oracle, ghost r: Rib) returns (change: Change)
      requires (n, peer) in r.candidates
      requires candidates == r.candidates - {(n, peer)} && best == r.best && Indexed(candidates, peerIndex)
      requires CandidatesFor(candidates, n) != map[]
      modifies this`best
      ensures WithdrawStep(r, peer, n, o, State(), change)
    {
      var oldBest := if n in best then Some(best[n]) else None;
      RecomputeBest(n, o);
      if n !in best {
        change := Withdrawn(n);
      } else if oldBest == Some(best[n]) && oldBest != Some(peer) {
        change := Unchanged;
      } else {
        change := Announced(n, candidates[(n, best[n])]);
      }
    }

    /** Drops one candidate from the map and the index. */
    method RemoveCandidate(peer: PeerId, n: Nlri) returns (left: bool)
      requires Indexed(candidates, peerIndex) && FiledByPrefix(candidates) && (n, peer) in candidates
      modifies this`candidates, this`peerIndex
      ensures candidates == old(candidates) - {(n, peer)}
      ensures Indexed(candidates, peerIndex) && FiledByPrefix(candidates)
      ensures left <==> CandidatesFor(candidates, n) != map[]
    {
      IndexedWithout(candidates, peerIndex, n, peer);
      candidates := candidates - {(n, peer)};
      var peers := Without(peerIndex[n], peer);
      peerIndex := if peers == [] then peerIndex - {n} else peerIndex[n := peers];
      left := peers != [];
      UnindexedIsEmpty(candidates, peerIndex, n);
    }

    /** Forgets the best route of a prefix that lost its last candidate. */
    method ForgetPrefix(ghost peer: PeerId, n: Nlri, ghost o: Oracle, ghost r: Rib) returns (change: Change)
      requires (n, peer) in r.candidates
      requires candidates == r.candidates - {(n, peer)} && best == r.best
      requires CandidatesFor(candidates, n) == map[]
      modifies this`best
      ensures WithdrawStep(r, peer, n, o, State(), change)
    {
      change := if n in best then Withdrawn(n) else Unchanged;
      best := best - {n};
    }

    /** Removes one peer's route for a prefix and re-selects the prefix. */
    method Withdraw(peer: PeerId, n: Nlri, o: Oracle) returns (change: Change)
      requires Valid()
      modifies this
      ensures Valid()
      ensures WithdrawStep(old(State()), peer, n, o, State(), change)
      ensures Apply(old(BestRoutes(State())), change) == BestRoutes(State())
    {
      ghost var r := State();
      if (n, peer) !in candidates {
        return Unchanged;
      }
      var left := RemoveCandidate(peer, n);
      if left {
        change := ReselectAfterWithdraw(peer, n, o, r);
      } else {
        change := ForgetPrefix(peer, n, o, r);
      }
      WithdrawIsLocal(r, peer, n, o, State(), change);
      ReselectedKeepsSound(r, State(), n, o);
      LocalReplays(r, State(), n, [change]);
      ApplyAllOne(BestRoutes(r), change);
    }

    /** Removes everything `peer` offered, prefix by prefix. */
    method WithdrawPeer(peer: PeerId, o: Oracle) returns (changes: seq<Change>)
      requires Valid()
      modifies this
      ensures Valid()
      ensures WithdrawPeerStep(old(State()), peer, o, State(), changes)
      ensures candidates == old(candidates) - (set k | k in old(candidates) && k.1 == peer)
      ensures |changes| == |PrefixesOf(old(State()), peer)|
      ensures ApplyAll(old(BestRoutes(State())), changes) == BestRoutes(State())
    {
      ghost var r := State();
      var todo := set n | n in peerIndex && peer in peerIndex[n];
      ghost var all := PrefixesOf(r, peer);
      assert todo == all;
      changes := [];
      ghost var ns: seq<Nlri>, states := [], [r];
      while todo != {}
        invariant Valid() && todo <= all
        invariant WithdrawChain(peer, o, ns, states, changes)
        invariant states[0] == r && states[|ns|] == State()
        invariant IsListing(ns, all - todo)
        decreases todo
      {
        var n :| n in todo;
        var change := Withdraw(peer, n, o);
        WithdrawChainSnoc(peer, o, ns, states, changes, n, State(), change);
        ListingSnoc(ns, all, todo, n);
        ns, states := ns + [n], states + [State()];
        todo, changes := todo - {n}, changes + [change];
      }
      assert all - todo == all;
      WithdrawPeerReplays(r, peer, o, State(), changes);
    }

    /** Re-selects every prefix, as when the forwarding table changes under the next hops. */
    method RecomputeAll(o: Oracle) returns (changes: seq<Change>)
      requires Valid()
      modifies this`best
      ensures Valid()
      ensures RecomputeStep(old(State()), o, State(), changes)
      ensures UpToDate(State(), o) && Unchanged !in changes
      ensures forall n :: Naming(changes, n) == [] <==> Winner(old(State()), n) == Winner(State(), n)
      ensures ApplyAll(old(BestRoutes(State())), changes) == BestRoutes(State())
    {
      ghost var r := State();
      var todo := peerIndex.Keys;
      ghost var all := Prefixes(r);
      IndexKeys(candidates, peerIndex, best);
      changes := [];
      ghost var ns: seq<Nlri>, states, notices: seq<seq<Change>> := [], [r], [];
      while todo != {}
        invariant Valid() && todo <= all
        invariant ReselectChain(o, ns, states, notices) && changes == Flat(notices)
        invariant states[0] == r && states[|ns|] == State()
        invariant IsListing(ns, all - todo)
        decreases todo
      {
        var n :| n in todo;
        var notice := Reselect(n, o);
        ReselectChainSnoc(o, ns, states, notices, n, State(), notice);
        ListingSnoc(ns, all, todo, n);
        ns, states, notices := ns + [n], states + [State()], notices + [notice];
        todo, changes := todo - {n}, changes + notice;
      }
      assert all - todo == all;
      RecomputeReplays(r, o, State(), changes);
    }

    /** Re-selects one prefix and returns its notice. */
    method Reselect(n: Nlri, o: Oracle) returns (notice: seq<Change>)
      requires Valid()
      modifies this`best
      ensures Valid()
      ensures ReselectStep(old(State()), n, o, State(), notice)
    {
      ghost var before := State();
      var oldPeer := if n in best then Some(best[n]) else None;
      RecomputeBest(n, o);
      if n !in best {
        notice := if oldPeer.Some? then [Withdrawn(n)] else [];
      } else if oldPeer == Some(best[n]) {
        notice := [];
      } else {
        notice := [Announced(n, candidates[(n, best[n])])];
      }
      ReselectIsLocal(before, n, o, State(), notice);
      ReselectedKeepsSound(before, State(), n, o);
    }
  }

  lemma IndexKeys(m: map<Key, Route>, index: map<Nlri, seq<PeerId>>, best: map<Nlri, PeerId>)
    requires Indexed(m, index)
    ensures index.Keys == Prefixes(Rib(m, best))
  {
    forall n | n in index ensures n in Prefixes(Rib(m, best)) {
      assert (n, index[n][0]) in m;
    }
    forall k | k in m ensures k.0 in index {
      assert (k.0, k.1) in m;
    }
  }
}
