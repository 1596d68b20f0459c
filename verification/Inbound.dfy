/**
 From a peer's inbound table, through the import policy, to the candidates the local table
 holds for that peer, and what a restart or a policy change does to that connection.
 */
module Inbound {
  import opened Types
  import opened Policies
  import opened BestPath
  import A = AdjRibIn
  import L = LocRib
  import R = LocRibRuns
  import RouteLeak

  const BLACKHOLE: Community := 0xFFFF_029A

  predicate Blackholed(r: Route) { BLACKHOLE in r.Communities() }

  datatype ImportPolicy = ImportPolicy(terms: seq<Term>, default: DefaultAction)

  /** The route as the policy lets it in, if it does. */
  function Imported(p: ImportPolicy, raw: Route): Option<Route> {
    var (d, r) := EvalTerms(p.terms, raw, p.default);
    if d == Accept then Some(r) else None
  }

  /** What the local table should hold for an inbound route: nothing for a blackhole one. */
  function Due(p: ImportPolicy, raw: Route): Option<Route> {
    if Blackholed(raw) then None else Imported(p, raw)
  }

  /** One peer's inbound table, its candidates in the local table, and its import policy. */
  datatype Intake = Intake(table: A.Table, offered: map<Nlri, Route>, policy: ImportPolicy)

  function Find(m: map<Nlri, Route>, n: Nlri): Option<Route> {
    if n in m then Some(m[n]) else None
  }

  /** The peer's candidate for `n` is its inbound route, as the policy lets it in. */
  predicate RightAt(s: Intake, n: Nlri) {
    Find(s.offered, n) == if n in s.table then Due(s.policy, s.table[n]) else None
  }

  /** Every inbound route the policy accepts, as it lets it in. */
  function Accepted(p: ImportPolicy, t: A.Table): map<Nlri, Route> {
    map n | n in t && Imported(p, t[n]).Some? :: Imported(p, t[n]).value
  }

  /**
   A route announced; prefixes withdrawn by the peer or pruned after its restart; a session
   lost with graceful restart, covering this family or not; a session ended or its restart
   window expired; the policy replaced.
   */
  datatype Event =
    | Announce(raw: Route)
    | Withdraw(ns: set<Nlri>)
    | Restart(covered: bool)
    | SessionEnd
    | Reapply(policy: ImportPolicy)

  function Step(s: Intake, e: Event): Intake {
    match e
    case Announce(raw) =>
      s.(table := s.table[raw.nlri := raw],
         offered := if Blackholed(raw) then s.offered - {raw.nlri}
                    else if Imported(s.policy, raw).Some?
                    then s.offered[raw.nlri := Imported(s.policy, raw).value]
                    else s.offered)
    case Withdraw(ns) => s.(table := s.table - ns, offered := s.offered - ns)
    case Restart(covered) =>
      if covered then s.(table := A.AllStaled(s.table), offered := s.offered + A.AllStaled(s.table))
      else s.(table := map[])
    case SessionEnd => s.(table := map[], offered := map[])
    case Reapply(p) => s.(policy := p, offered := (s.offered - s.table.Keys) + Accepted(p, s.table))
  }

  function Run(s: Intake, es: seq<Event>): Intake {
    if es == [] then s else Step(Run(s, es[..|es| - 1]), es[|es| - 1])
  }

  // ---------- the daemon's steps ----------

  function Offered(m: map<L.Key, Route>, peer: PeerId): map<Nlri, Route> {
    map k | k in m.Keys && k.1 == peer :: k.0 := m[k]
  }

  /** No other peer's candidate differs. */
  ghost predicate OthersKept(m: map<L.Key, Route>, m': map<L.Key, Route>, peer: PeerId) {
    forall k: L.Key :: k.1 != peer ==> (k in m <==> k in m') && (k in m ==> m[k] == m'[k])
  }

  lemma OfferedInsert(m: map<L.Key, Route>, peer: PeerId, route: Route)
    ensures Offered(m[(route.nlri, peer) := route], peer) == Offered(m, peer)[route.nlri := route]
    ensures OthersKept(m, m[(route.nlri, peer) := route], peer)
  {
    var m' := m[(route.nlri, peer) := route];
    forall n ensures Find(Offered(m', peer), n) == Find(Offered(m, peer)[route.nlri := route], n) {
      assert (n, peer) in m' <==> n in Offered(m', peer);
      assert (n, peer) in m <==> n in Offered(m, peer);
    }
    SameMap(Offered(m', peer), Offered(m, peer)[route.nlri := route]);
  }

  lemma OfferedRemove(m: map<L.Key, Route>, peer: PeerId, n: Nlri)
    ensures Offered(m - {(n, peer)}, peer) == Offered(m, peer) - {n}
    ensures OthersKept(m, m - {(n, peer)}, peer)
  {
    var m' := m - {(n, peer)};
    forall x ensures Find(Offered(m', peer), x) == Find(Offered(m, peer) - {n}, x) {
      assert (x, peer) in m' <==> x in Offered(m', peer);
      assert (x, peer) in m <==> x in Offered(m, peer);
    }
    SameMap(Offered(m', peer), Offered(m, peer) - {n});
  }

  lemma SameMap(a: map<Nlri, Route>, b: map<Nlri, Route>)
    requires forall n :: Find(a, n) == Find(b, n)
    ensures a == b
  {
    forall n ensures n in a <==> n in b { assert Find(a, n) == Find(b, n); }
    forall n | n in a ensures a[n] == b[n] { assert Find(a, n) == Find(b, n); }
  }

  /** Compared with the candidates `m0`, those of `peer` are now `offered`; no other peer's differ. */
  ghost predicate Offering(m0: map<L.Key, Route>, m: map<L.Key, Route>, peer: PeerId, offered: map<Nlri, Route>) {
    Offered(m, peer) == offered && OthersKept(m0, m, peer)
  }

  lemma OneInserted(m0: map<L.Key, Route>, m: map<L.Key, Route>, peer: PeerId, offered: map<Nlri, Route>, route: Route)
    requires Offering(m0, m, peer, offered)
    ensures Offering(m0, m[(route.nlri, peer) := route], peer, offered[route.nlri := route])
  {
    OfferedInsert(m, peer, route);
  }

  lemma OneRemoved(m0: map<L.Key, Route>, m: map<L.Key, Route>, peer: PeerId, offered: map<Nlri, Route>, n: Nlri)
    requires Offering(m0, m, peer, offered)
    ensures Offering(m0, m - {(n, peer)}, peer, offered - {n})
  {
    OfferedRemove(m, peer, n);
  }

  /** Inserts the peer's candidate for one prefix. */
  method Offer(rib: L.LocRib, peer: PeerId, route: Route, o: Oracle,
               ghost m0: map<L.Key, Route>, ghost offered: map<Nlri, Route>)
    requires rib.Valid() && Offering(m0, rib.candidates, peer, offered)
    modifies rib
    ensures rib.Valid() && Offering(m0, rib.candidates, peer, offered[route.nlri := route])
  {
    OneInserted(m0, rib.candidates, peer, offered, route);
    var _ := rib.Insert(peer, route, o);
  }

  /** Takes it away, if there is one. */
  method Retract(rib: L.LocRib, peer: PeerId, n: Nlri, o: Oracle,
                 ghost m0: map<L.Key, Route>, ghost offered: map<Nlri, Route>)
    requires rib.Valid() && Offering(m0, rib.candidates, peer, offered)
    modifies rib
    ensures rib.Valid() && Offering(m0, rib.candidates, peer, offered - {n})
  {
    OneRemoved(m0, rib.candidates, peer, offered, n);
    assert (n, peer) !in rib.candidates ==> rib.candidates - {(n, peer)} == rib.candidates;
    var _ := rib.Withdraw(peer, n, o);
  }

  ghost function View(adj: A.AdjRibIn, rib: L.LocRib, policy: Policy): Intake
    reads adj, rib, policy
  {
    Intake(adj.routes, Offered(rib.candidates, adj.peer), ImportPolicy(policy.terms, policy.default))
  }

  method HandleAnnouncement(adj: A.AdjRibIn, rib: L.LocRib, policy: Policy, raw: Route, o: Oracle)
    requires adj.Valid() && rib.Valid()
    modifies adj, rib
    ensures adj.Valid() && rib.Valid() && OthersKept(old(rib.candidates), rib.candidates, adj.peer)
    ensures View(adj, rib, policy) == Step(old(View(adj, rib, policy)), Announce(raw))
  {
    ghost var m0, before := rib.candidates, Offered(rib.candidates, adj.peer);
    var _ := adj.Insert(raw);
    if BLACKHOLE in raw.Communities() {
      Retract(rib, adj.peer, raw.nlri, o, m0, before);
      return;
    }
    var d, route := policy.Evaluate(raw);
    EvalFrame(policy.terms, raw, policy.default);
    if d == Accept {
      Offer(rib, adj.peer, route, o, m0, before);
    }
  }

  function TakeFirst(m: map<Nlri, Route>, ns: seq<Nlri>, k: nat): map<Nlri, Route>
    requires k <= |ns|
  {
    if k == 0 then m else TakeFirst(m, ns, k - 1) - {ns[k - 1]}
  }

  lemma {:induction false} TakeFirstAt(m: map<Nlri, Route>, ns: seq<Nlri>, k: nat, n: Nlri)
    requires k <= |ns|
    ensures Find(TakeFirst(m, ns, k), n) == if n in ns[..k] then None else Find(m, n)
  {
    if k > 0 {
      TakeFirstAt(m, ns, k - 1, n);
      assert ns[..k] == ns[..k - 1] + [ns[k - 1]];
    }
  }

  function Named(ns: seq<Nlri>): set<Nlri> { set n | n in ns }

  lemma TakenWhole(m: map<Nlri, Route>, ns: seq<Nlri>)
    ensures TakeFirst(m, ns, |ns|) == m - Named(ns)
  {
    forall n ensures Find(TakeFirst(m, ns, |ns|), n) == Find(m - Named(ns), n) {
      TakeFirstAt(m, ns, |ns|, n);
      assert ns[..|ns|] == ns;
    }
    SameMap(TakeFirst(m, ns, |ns|), m - Named(ns));
  }

  method RemoveAll(adj: A.AdjRibIn, ns: seq<Nlri>)
    requires adj.Valid()
    modifies adj
    ensures adj.Valid() && adj.routes == TakeFirst(old(adj.routes), ns, |ns|)
  {
    for i := 0 to |ns|
      invariant adj.Valid() && adj.routes == TakeFirst(old(adj.routes), ns, i)
    {
      var _ := adj.Withdraw(ns[i]);
    }
  }

  method RetractAll(rib: L.LocRib, peer: PeerId, ns: seq<Nlri>, o: Oracle)
    requires rib.Valid()
    modifies rib
    ensures rib.Valid()
    ensures Offering(old(rib.candidates), rib.candidates, peer, TakeFirst(old(Offered(rib.candidates, peer)), ns, |ns|))
  {
    ghost var m0, before := rib.candidates, Offered(rib.candidates, peer);
    for i := 0 to |ns|
      invariant rib.Valid() && Offering(m0, rib.candidates, peer, TakeFirst(before, ns, i))
    {
      Retract(rib, peer, ns[i], o, m0, TakeFirst(before, ns, i));
    }
  }

  /** Prefixes the peer withdrew, or that it did not announce again after its restart. */
  method HandleWithdrawals(adj: A.AdjRibIn, rib: L.LocRib, policy: Policy, ns: seq<Nlri>, o: Oracle)
    requires adj.Valid() && rib.Valid()
    modifies adj, rib
    ensures adj.Valid() && rib.Valid() && OthersKept(old(rib.candidates), rib.candidates, adj.peer)
    ensures View(adj, rib, policy) == Step(old(View(adj, rib, policy)), Withdraw(Named(ns)))
  {
    TakenWhole(adj.routes, ns);
    TakenWhole(Offered(rib.candidates, adj.peer), ns);
    RemoveAll(adj, ns);
    RetractAll(rib, adj.peer, ns, o);
  }

  /** The candidates after the first `k` routes of a listing were inserted. */
  function OfferFirst(offered: map<Nlri, Route>, rs: seq<Route>, k: nat): map<Nlri, Route>
    requires k <= |rs|
  {
    if k == 0 then offered else OfferFirst(offered, rs, k - 1)[rs[k - 1].nlri := rs[k - 1]]
  }

  lemma {:induction false} OfferFirstAt(offered: map<Nlri, Route>, t: A.Table, rs: seq<Route>, k: nat, n: Nlri)
    requires A.Lists(rs, t) && k <= |rs|
    ensures Find(OfferFirst(offered, rs, k), n)
         == if exists i :: 0 <= i < k && rs[i].nlri == n then Find(t, n) else Find(offered, n)
  {
    if k > 0 { OfferFirstAt(offered, t, rs, k - 1, n); }
  }

  lemma OfferedWhole(offered: map<Nlri, Route>, t: A.Table, rs: seq<Route>)
    requires A.Lists(rs, t) && A.FiledByPrefix(t)
    ensures OfferFirst(offered, rs, |rs|) == offered + t
  {
    forall n ensures Find(OfferFirst(offered, rs, |rs|), n) == Find(offered + t, n) {
      OfferFirstAt(offered, t, rs, |rs|, n);
      if n in t {
        var i :| 0 <= i < |rs| && rs[i] == t[n];
        assert rs[i].nlri == n;
      }
    }
    SameMap(OfferFirst(offered, rs, |rs|), offered + t);
  }

  /** Inserts a list of routes as they are. */
  method OfferAll(rib: L.LocRib, peer: PeerId, rs: seq<Route>, o: Oracle)
    requires rib.Valid()
    modifies rib
    ensures rib.Valid()
    ensures Offering(old(rib.candidates), rib.candidates, peer, OfferFirst(old(Offered(rib.candidates, peer)), rs, |rs|))
  {
    ghost var m0, before := rib.candidates, Offered(rib.candidates, peer);
    for i := 0 to |rs|
      invariant rib.Valid() && Offering(m0, rib.candidates, peer, OfferFirst(before, rs, i))
    {
      Offer(rib, peer, rs[i], o, m0, OfferFirst(before, rs, i));
    }
  }

  /** The session is lost with graceful restart; stale copies go to the local table unfiltered. */
  method LoseSession(adj: A.AdjRibIn, rib: L.LocRib, policy: Policy, covered: bool, o: Oracle)
    requires adj.Valid() && rib.Valid()
    modifies adj, rib
    ensures adj.Valid() && rib.Valid() && OthersKept(old(rib.candidates), rib.candidates, adj.peer)
    ensures View(adj, rib, policy) == Step(old(View(adj, rib, policy)), Restart(covered))
  {
    if !covered {
      adj.Clear();
      return;
    }
    ghost var before := Offered(rib.candidates, adj.peer);
    var stale := adj.MarkAllStale();
    OfferAll(rib, adj.peer, stale, o);
    OfferedWhole(before, adj.routes, stale);
  }

  method EndSession(adj: A.AdjRibIn, rib: L.LocRib, policy: Policy, o: Oracle)
    requires adj.Valid() && rib.Valid()
    modifies adj, rib
    ensures adj.Valid() && rib.Valid() && OthersKept(old(rib.candidates), rib.candidates, adj.peer)
    ensures View(adj, rib, policy) == Step(old(View(adj, rib, policy)), SessionEnd)
  {
    adj.Clear();
    var _ := rib.WithdrawPeer(adj.peer, o);
  }

  /** The candidates once the first `k` inbound routes have been evaluated again. */
  function ReapplyFirst(offered: map<Nlri, Route>, p: ImportPolicy, rs: seq<Route>, k: nat): map<Nlri, Route>
    requires k <= |rs|
  {
    if k == 0 then offered
    else Reconciled(ReapplyFirst(offered, p, rs, k - 1), rs[k - 1].nlri, Imported(p, rs[k - 1]))
  }

  function Reconciled(offered: map<Nlri, Route>, n: Nlri, r: Option<Route>): map<Nlri, Route> {
    if r.Some? then offered[n := r.value] else offered - {n}
  }

  lemma {:induction false} ReapplyFirstAt(offered: map<Nlri, Route>, p: ImportPolicy, t: A.Table, rs: seq<Route>,
                                          k: nat, n: Nlri)
    requires A.Lists(rs, t) && k <= |rs|
    ensures Find(ReapplyFirst(offered, p, rs, k), n)
         == if exists i :: 0 <= i < k && rs[i].nlri == n then Imported(p, t[n]) else Find(offered, n)
  {
    if k > 0 { ReapplyFirstAt(offered, p, t, rs, k - 1, n); }
  }

  lemma ReappliedWhole(offered: map<Nlri, Route>, p: ImportPolicy, t: A.Table, rs: seq<Route>)
    requires A.Lists(rs, t) && A.FiledByPrefix(t)
    ensures ReapplyFirst(offered, p, rs, |rs|) == (offered - t.Keys) + Accepted(p, t)
  {
    var whole := (offered - t.Keys) + Accepted(p, t);
    forall n ensures Find(ReapplyFirst(offered, p, rs, |rs|), n) == Find(whole, n) {
      ReapplyFirstAt(offered, p, t, rs, |rs|, n);
      if n in t {
        var i :| 0 <= i < |rs| && rs[i] == t[n];
        assert rs[i].nlri == n;
      }
    }
    SameMap(ReapplyFirst(offered, p, rs, |rs|), whole);
  }

  /** Evaluates one inbound route again. */
  method ReapplyOne(rib: L.LocRib, peer: PeerId, policy: Policy, raw: Route, o: Oracle,
                    ghost m0: map<L.Key, Route>, ghost offered: map<Nlri, Route>)
    requires rib.Valid() && Offering(m0, rib.candidates, peer, offered)
    modifies rib
    ensures rib.Valid()
    ensures Offering(m0, rib.candidates, peer,
                     Reconciled(offered, raw.nlri, Imported(ImportPolicy(policy.terms, policy.default), raw)))
  {
    var d, route := policy.Evaluate(raw);
    EvalFrame(policy.terms, raw, policy.default);
    if d == Accept {
      Offer(rib, peer, route, o, m0, offered);
    } else {
      Retract(rib, peer, raw.nlri, o, m0, offered);
    }
  }

  method ReapplyAll(rib: L.LocRib, peer: PeerId, policy: Policy, rs: seq<Route>, o: Oracle)
    requires rib.Valid()
    modifies rib
    ensures rib.Valid()
    ensures Offering(old(rib.candidates), rib.candidates, peer,
                     ReapplyFirst(old(Offered(rib.candidates, peer)), ImportPolicy(policy.terms, policy.default), rs, |rs|))
  {
    ghost var p := ImportPolicy(policy.terms, policy.default);
    ghost var m0, before := rib.candidates, Offered(rib.candidates, peer);
    for i := 0 to |rs|
      invariant rib.Valid() && Offering(m0, rib.candidates, peer, ReapplyFirst(before, p, rs, i))
    {
      ReapplyOne(rib, peer, policy, rs[i], o, m0, ReapplyFirst(before, p, rs, i));
    }
  }

  /** Evaluates the peer's inbound routes again, in any order, under its present policy. */
  method ReapplyImportPolicy(adj: A.AdjRibIn, rib: L.LocRib, policy: Policy, o: Oracle)
    requires adj.Valid() && rib.Valid()
    modifies rib
    ensures rib.Valid() && OthersKept(old(rib.candidates), rib.candidates, adj.peer)
    ensures View(adj, rib, policy)
         == Step(old(View(adj, rib, policy)), Reapply(ImportPolicy(policy.terms, policy.default)))
  {
    var rs := adj.Routes();
    ReappliedWhole(Offered(rib.candidates, adj.peer), ImportPolicy(policy.terms, policy.default), adj.routes, rs);
    ReapplyAll(rib, adj.peer, policy, rs, o);
  }

  // ---------- one event, seen from one prefix ----------

  /** After this event the candidate for `n` is not the inbound route as the policy lets it in. */
  predicate Breaks(s: Intake, e: Event, n: Nlri) {
    match e
    case Announce(raw) =>
      raw.nlri == n && !Blackholed(raw) && Imported(s.policy, raw).None? && n in s.offered
    case Withdraw(_) => false
    case Restart(covered) =>
      if covered then n in s.table && Due(s.policy, A.Staled(s.table[n])) != Some(A.Staled(s.table[n]))
      else n in s.offered
    case SessionEnd => false
    case Reapply(p) => n in s.table && Blackholed(s.table[n]) && Imported(p, s.table[n]).Some?
  }

  /** The event decides anew what the candidate for `n` is. */
  predicate Concerns(s: Intake, e: Event, n: Nlri) {
    match e
    case Announce(raw) => raw.nlri == n
    case Withdraw(ns) => n in ns
    case Restart(covered) => covered ==> n in s.table
    case SessionEnd => true
    case Reapply(_) => n in s.table
  }

  predicate Mends(s: Intake, e: Event, n: Nlri) { Concerns(s, e, n) && !Breaks(s, e, n) }

  /** The exact effect of one event on one prefix, from any state. */
  lemma StepRightIff(s: Intake, e: Event, n: Nlri)
    ensures RightAt(Step(s, e), n) <==> Mends(s, e, n) || (RightAt(s, n) && !Breaks(s, e, n))
  {
    match e {
      case Announce(raw) =>
      case Withdraw(ns) =>
      case Restart(covered) =>
      case SessionEnd =>
      case Reapply(p) =>
    }
  }

  // ---------- whole runs ----------

  /** What the event at `i` does to `n`: it breaks it, mends it, or leaves it as it was. */
  datatype Effect = Broken | Mended | Kept

  function EffectAt(s: Intake, es: seq<Event>, i: nat, n: Nlri): Effect
    requires i < |es|
  {
    EffectOf(Run(s, es[..i]), es[i], n)
  }

  function EffectOf(s: Intake, e: Event, n: Nlri): Effect {
    if Breaks(s, e, n) then Broken else if Mends(s, e, n) then Mended else Kept
  }

  /** Some event breaks `n` and none after it mends it. */
  ghost predicate LeftBroken(s: Intake, es: seq<Event>, n: Nlri) {
    exists i :: 0 <= i < |es| && BrokenSince(s, es, i, n)
  }

  ghost predicate BrokenSince(s: Intake, es: seq<Event>, i: nat, n: Nlri)
    requires i < |es|
  {
    EffectAt(s, es, i, n) == Broken && forall j :: i < j < |es| ==> EffectAt(s, es, j, n) != Mended
  }

  lemma SamePast(s: Intake, front: seq<Event>, e: Event, i: nat, n: Nlri)
    requires i < |front|
    ensures EffectAt(s, front + [e], i, n) == EffectAt(s, front, i, n)
  {
    assert (front + [e])[..i] == front[..i];
  }

  lemma BrokenSinceStep(s: Intake, front: seq<Event>, e: Event, i: nat, n: Nlri)
    requires i < |front|
    ensures BrokenSince(s, front + [e], i, n)
       <==> BrokenSince(s, front, i, n) && EffectAt(s, front + [e], |front|, n) != Mended
  {
    var es := front + [e];
    SamePast(s, front, e, i, n);
    if BrokenSince(s, es, i, n) {
      forall j | i < j < |front| ensures EffectAt(s, front, j, n) != Mended { SamePast(s, front, e, j, n); }
    }
    if BrokenSince(s, front, i, n) && EffectAt(s, es, |front|, n) != Mended {
      forall j | i < j < |es| ensures EffectAt(s, es, j, n) != Mended {
        if j < |front| { SamePast(s, front, e, j, n); }
      }
    }
  }

  lemma LeftBrokenStep(s: Intake, front: seq<Event>, e: Event, n: Nlri)
    ensures var effect := EffectAt(s, front + [e], |front|, n);
      LeftBroken(s, front + [e], n) <==> effect == Broken || (LeftBroken(s, front, n) && effect != Mended)
  {
    var es := front + [e];
    var effect := EffectAt(s, es, |front|, n);
    if LeftBroken(s, es, n) {
      var i :| 0 <= i < |es| && BrokenSince(s, es, i, n);
      if i < |front| { BrokenSinceStep(s, front, e, i, n); }
    }
    if effect == Broken { assert BrokenSince(s, es, |front|, n); }
    if LeftBroken(s, front, n) && effect != Mended {
      var i :| 0 <= i < |front| && BrokenSince(s, front, i, n);
      BrokenSinceStep(s, front, e, i, n);
    }
  }

  lemma LastEffect(s: Intake, front: seq<Event>, e: Event, n: Nlri)
    ensures Run(s, front + [e]) == Step(Run(s, front), e)
    ensures EffectAt(s, front + [e], |front|, n) == EffectOf(Run(s, front), e, n)
  {
    assert (front + [e])[..|front|] == front;
  }

  /**
   After any run from a session's start, the candidate for a prefix is its inbound route as
   the policy lets it in, if and only if every breaking event was followed by a mending one.
   */
  lemma {:induction false} CandidateRightIff(s: Intake, es: seq<Event>, n: Nlri)
    requires s.table == map[] && s.offered == map[]
    ensures RightAt(Run(s, es), n) <==> !LeftBroken(s, es, n)
    decreases |es|
  {
    if es != [] {
      var front, e := es[..|es| - 1], es[|es| - 1];
      assert es == front + [e];
      CandidateRightIff(s, front, n);
      LastEffect(s, front, e, n);
      StepRightIff(Run(s, front), e, n);
      LeftBrokenStep(s, front, e, n);
    }
  }

  /** What a policy-abiding local table holds for the peer: accepted routes and nothing else. */
  ghost predicate OnlyAccepted(s: Intake) {
    && (forall n :: n in s.offered ==> n in s.table && Due(s.policy, s.table[n]) == Some(s.offered[n]))
    && (forall n :: n in s.table && Due(s.policy, s.table[n]).Some? ==> n in s.offered)
  }

  /** Every candidate of the peer is an accepted route, and every accepted route a candidate, exactly then. */
  lemma OnlyAcceptedIff(s: Intake, es: seq<Event>)
    requires s.table == map[] && s.offered == map[]
    ensures OnlyAccepted(Run(s, es)) <==> forall n :: !LeftBroken(s, es, n)
  {
    var t := Run(s, es);
    forall n ensures RightAt(t, n) <==> !LeftBroken(s, es, n) { CandidateRightIff(s, es, n); }
    if OnlyAccepted(t) {
      forall n ensures RightAt(t, n) {}
    }
    if forall n :: !LeftBroken(s, es, n) {
      forall n | n in t.offered ensures n in t.table && Due(t.policy, t.table[n]) == Some(t.offered[n]) {
        assert RightAt(t, n);
      }
      forall n | n in t.table && Due(t.policy, t.table[n]).Some? ensures n in t.offered { assert RightAt(t, n); }
    }
  }

  // ---------- runs that end wrong ----------

  function Start(p: ImportPolicy): Intake { Intake(map[], map[], p) }

  lemma TwoEvents(s: Intake, a: Event, b: Event)
    ensures Run(s, [a, b]) == Step(Step(s, a), b)
  {
    assert [a, b][..1] == [a] && [a][..0] == [];
    assert Run(s, [a]) == Step(Run(s, []), a);
  }

  /** The terms of a session with a customer, and nothing else. */
  function LeakGuard(asn: Asn): ImportPolicy {
    ImportPolicy(RouteLeak.ImportTerms(Provider, asn), DefaultAccept)
  }

  lemma LeakGuardRejects(asn: Asn, raw: Route)
    ensures Imported(LeakGuard(asn), raw) == if raw.Otc().Some? then None else Some(raw)
  {
    var terms := LeakGuard(asn).terms;
    assert terms == [Term(OtcLeakCondition(Provider, asn), RejectRoute)] && terms[1..] == [];
    assert EvalTerms([], raw, DefaultAccept) == (Accept, raw);
  }

  lemma LeakThenRestart(p: ImportPolicy, raw: Route)
    requires Due(p, raw) == None && !Blackholed(raw)
    ensures Run(Start(p), [Announce(raw)]).offered == map[]
    ensures Run(Start(p), [Announce(raw), Restart(true)]).offered == map[raw.nlri := A.Staled(raw)]
  {
    assert [Announce(raw)][..0] == [];
    TwoEvents(Start(p), Announce(raw), Restart(true));
  }

  lemma StaleAloneIsSelected(raw: Route, peer: PeerId, o: Oracle)
    requires Reachable(raw, o)
    ensures R.Step(R.EMPTY, R.Event(R.InsertOp(peer, A.Staled(raw)), o, [L.Announced(raw.nlri, A.Staled(raw))]),
                   R.Lone(peer, A.Staled(raw)))
    ensures L.RouteAt(R.Lone(peer, A.Staled(raw)), raw.nlri) == Some(A.Staled(raw))
  {
    R.InsertAlone(peer, A.Staled(raw), o);
  }

  /**
   A leak the terms of section 5 of RFC 9234 turned away becomes a candidate when the
   customer's session restarts, and is the selected route if no other peer has one.
   */
  lemma RestartAdmitsLeak(asn: Asn, raw: Route, peer: PeerId, o: Oracle)
    requires raw.Otc().Some? && !Blackholed(raw) && Reachable(raw, o)
    ensures var p := LeakGuard(asn);
      && Run(Start(p), [Announce(raw)]).offered == map[]
      && Run(Start(p), [Announce(raw), Restart(true)]).offered == map[raw.nlri := A.Staled(raw)]
      && Due(p, A.Staled(raw)) == None
    ensures R.Step(R.EMPTY, R.Event(R.InsertOp(peer, A.Staled(raw)), o, [L.Announced(raw.nlri, A.Staled(raw))]),
                   R.Lone(peer, A.Staled(raw)))
    ensures L.RouteAt(R.Lone(peer, A.Staled(raw)), raw.nlri) == Some(A.Staled(raw))
  {
    LeakGuardRejects(asn, raw);
    LeakGuardRejects(asn, A.Staled(raw));
    LeakThenRestart(LeakGuard(asn), raw);
    StaleAloneIsSelected(raw, peer, o);
  }

  /** A rejected announcement leaves the route it replaces in the local table. */
  lemma RejectedReplacementStays(asn: Asn, good: Route, leak: Route)
    requires good.nlri == leak.nlri && !Blackholed(good) && !Blackholed(leak)
    requires good.Otc().None? && leak.Otc().Some?
    ensures var s := Run(Start(LeakGuard(asn)), [Announce(good), Announce(leak)]);
      s.table == map[good.nlri := leak] && s.offered == map[good.nlri := good]
  {
    LeakGuardRejects(asn, good);
    LeakGuardRejects(asn, leak);
    TwoEvents(Start(LeakGuard(asn)), Announce(good), Announce(leak));
  }

  /**
   When the lost session's restart did not cover the family, its candidate stays behind: the
   prefixes pruned once the peer is back are those of the inbound table, which is empty.
   */
  lemma UncoveredRestartStrands(p: ImportPolicy, raw: Route)
    requires Due(p, raw).Some?
    ensures var s := Run(Start(p), [Announce(raw), Restart(false)]);
      s.table == map[] && s.offered == map[raw.nlri := Due(p, raw).value] && Step(s, Withdraw(s.table.Keys)) == s
  {
    TwoEvents(Start(p), Announce(raw), Restart(false));
    var s := Run(Start(p), [Announce(raw), Restart(false)]);
    assert s.offered - {} == s.offered;
  }

  /** A blackhole route is kept out on arrival and let in when the same policy is applied again. */
  lemma ReapplyAdmitsBlackhole(p: ImportPolicy, raw: Route)
    requires Blackholed(raw) && Imported(p, raw).Some?
    ensures Run(Start(p), [Announce(raw)]).offered == map[]
    ensures Run(Start(p), [Announce(raw), Reapply(p)]).offered == map[raw.nlri := Imported(p, raw).value]
  {
    assert [Announce(raw)][..0] == [];
    TwoEvents(Start(p), Announce(raw), Reapply(p));
  }
}
