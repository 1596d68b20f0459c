/**
 From the local routing table to one peer: which prefixes are propagated, the reflector's
 guard between non-client internal peers, and what the peer ends up holding.
 */
module Propagation {
  import opened Types
  import opened BestPath
  import opened Policies
  import opened Outbound
  import L = LocRib
  import R = LocRibRuns
  import A = AdjRibOut

  /** Route-reflector clients and the types of the established peers. */
  datatype Peering = Peering(clients: set<PeerId>, types: map<PeerId, PeerType>)

  /** One established session and what it exports. */
  datatype Session = Session(
    peer: PeerId,
    peerType: PeerType,
    reflects: bool,
    speaker: Speaker,
    terms: seq<Term>,
    default: DefaultAction,
    peering: Peering)

  /**
   Section 8 of RFC 4456: a reflector does not pass a route between two internal peers
   neither of which is a client. Only sources with an IPv4 address are looked up.
   */
  predicate GuardFires(p: Peering, peer: PeerId, peerType: PeerType, source: Option<PeerId>) {
    && p.clients != {} && peerType.Internal?
    && source.Some? && source.value.PeerV4?
    && source.value in p.types && p.types[source.value].Internal?
    && source.value !in p.clients && peer !in p.clients
  }

  predicate Guarded(r: L.Rib, n: Nlri, s: Session) {
    GuardFires(s.peering, s.peer, s.peerType, L.Winner(r, n))
  }

  function ViewAt(r: L.Rib, n: Nlri, s: Session): A.View {
    A.View(L.RouteAt(r, n), L.Winner(r, n), s.peerType, s.speaker, s.terms, s.default)
  }

  /** What the export pipeline makes of the best route, guard aside. */
  function Offered(r: L.Rib, n: Nlri, s: Session): Option<Route> {
    A.Advertised(s.peer, s.peerType, s.reflects, ViewAt(r, n, s))
  }

  /** The route the peer should hold for `n`, if any. */
  function Export(r: L.Rib, n: Nlri, s: Session): Option<Route> {
    if Guarded(r, n, s) then None else Offered(r, n, s)
  }

  /** Our table for the peer holds for every prefix exactly what the peer should hold. */
  ghost predicate InSync(t: A.Table, r: L.Rib, s: Session) {
    forall n :: A.Lookup(t, n) == Export(r, n, s)
  }

  /**
   A caller that checks the guard skips a guarded prefix altogether, so whatever the table
   holds stays. The callers that run when a session ends do not check it.
   */
  function PropagateOne(t: A.Table, r: L.Rib, n: Nlri, s: Session, checks: bool): A.Table {
    if checks && Guarded(r, n, s) then t else A.Put(t, n, Offered(r, n, s))
  }

  function PropagateAll(t: A.Table, r: L.Rib, ns: seq<Nlri>, s: Session, checks: bool): A.Table
    decreases ns
  {
    if ns == [] then t else PropagateAll(PropagateOne(t, r, ns[0], s, checks), r, ns[1..], s, checks)
  }

  function DecisionFor(t: A.Table, r: L.Rib, n: Nlri, s: Session, checks: bool): A.PrefixDecision {
    if checks && Guarded(r, n, s) then A.NoChange else A.MessageTo(t, n, Offered(r, n, s))
  }

  /** The decisions of one round, each taken on the table the ones before it left. */
  function Decisions(t: A.Table, r: L.Rib, ns: seq<Nlri>, s: Session, checks: bool): seq<A.PrefixDecision>
    decreases ns
  {
    if ns == [] then []
    else [DecisionFor(t, r, ns[0], s, checks)]
         + Decisions(PropagateOne(t, r, ns[0], s, checks), r, ns[1..], s, checks)
  }

  function ReceiveAll(remote: A.Table, ds: seq<A.PrefixDecision>): A.Table
    decreases ds
  {
    if ds == [] then remote else ReceiveAll(A.Receive(remote, ds[0]), ds[1..])
  }

  lemma {:induction false} ReceiveAllOne(remote: A.Table, ds: seq<A.PrefixDecision>, d: A.PrefixDecision)
    ensures ReceiveAll(remote, ds + [d]) == A.Receive(ReceiveAll(remote, ds), d)
    decreases ds
  {
    if ds == [] {
      assert ds + [d] == [d] && [d][1..] == [];
    } else {
      assert (ds + [d])[0] == ds[0] && (ds + [d])[1..] == ds[1..] + [d];
      ReceiveAllOne(A.Receive(remote, ds[0]), ds[1..], d);
    }
  }

  /** One prefix: the guard first, then the decision of the outbound table. */
  method DecideOne(rib: L.LocRib, out: A.AdjRibOut, policy: Policy, speaker: Speaker, peering: Peering,
                   n: Nlri, checks: bool, deferred: bool)
    returns (d: A.PrefixDecision)
    requires rib.Valid() && out.Valid()
    modifies out`routes
    ensures out.Valid()
    ensures A.Receive(old(out.routes), d) == out.routes
    ensures d == if deferred then A.NoChange else
      DecisionFor(old(out.routes), rib.State(), n, SessionOf(out, policy, speaker, peering), checks)
    ensures out.routes == if deferred then old(out.routes) else
      PropagateOne(old(out.routes), rib.State(), n, SessionOf(out, policy, speaker, peering), checks)
  {
    var bestPeer := if n in rib.best then Some(rib.best[n]) else None;
    if checks && peering.clients != {} && out.peerType.Internal? && bestPeer.Some? && bestPeer.value.PeerV4? {
      var source := bestPeer.value;
      var sourceIsIbgp := source in peering.types && peering.types[source].Internal?;
      if sourceIsIbgp && source !in peering.clients && out.peer !in peering.clients {
        return A.NoChange;
      }
    }
    var best := if n in rib.best then Some(rib.candidates[(n, rib.best[n])]) else None;
    d := out.PropagatePrefix(n, best, bestPeer, policy, out.peerType, speaker, deferred);
  }

  ghost function SessionOf(out: A.AdjRibOut, policy: Policy, speaker: Speaker, peering: Peering): Session
    reads policy
  {
    Session(out.peer, out.peerType, out.reflects, speaker, policy.terms, policy.default, peering)
  }

  /**
   Takes the decisions for the listed prefixes and one peer. A far end that applied them
   in this order would keep holding the same table as we do.
   */
  method PropagateToPeer(rib: L.LocRib, out: A.AdjRibOut, policy: Policy, speaker: Speaker, peering: Peering,
                         nlris: seq<Nlri>, checks: bool, deferred: bool)
    returns (decisions: seq<A.PrefixDecision>)
    requires rib.Valid() && out.Valid()
    modifies out`routes
    ensures out.Valid() && rib.Valid()
    ensures ReceiveAll(old(out.routes), decisions) == out.routes
    ensures !deferred ==>
      decisions == Decisions(old(out.routes), rib.State(), nlris, SessionOf(out, policy, speaker, peering), checks)
    ensures out.routes == if deferred then old(out.routes) else
      PropagateAll(old(out.routes), rib.State(), nlris, SessionOf(out, policy, speaker, peering), checks)
  {
    ghost var s := SessionOf(out, policy, speaker, peering);
    decisions := [];
    assert nlris[0..] == nlris;
    for i := 0 to |nlris|
      invariant out.Valid()
      invariant ReceiveAll(old(out.routes), decisions) == out.routes
      invariant if deferred then out.routes == old(out.routes)
                else SoFar(old(out.routes), out.routes, rib.State(), nlris, i, s, checks, decisions)
    {
      ghost var t := out.routes;
      var d := DecideOne(rib, out, policy, speaker, peering, nlris[i], checks, deferred);
      ReceiveAllOne(old(out.routes), decisions, d);
      if !deferred { SoFarStep(old(out.routes), t, rib.State(), nlris, i, s, checks, decisions); }
      decisions := decisions + [d];
    }
  }

  /** The decisions so far, and those still to be taken for the prefixes from `i` on, are all of them. */
  ghost predicate SoFar(t0: A.Table, t: A.Table, r: L.Rib, ns: seq<Nlri>, i: nat, s: Session, checks: bool,
                        decisions: seq<A.PrefixDecision>) {
    && i <= |ns|
    && PropagateAll(t, r, ns[i..], s, checks) == PropagateAll(t0, r, ns, s, checks)
    && decisions + Decisions(t, r, ns[i..], s, checks) == Decisions(t0, r, ns, s, checks)
  }

  lemma SoFarStep(t0: A.Table, t: A.Table, r: L.Rib, ns: seq<Nlri>, i: nat, s: Session, checks: bool,
                  decisions: seq<A.PrefixDecision>)
    requires i < |ns| && SoFar(t0, t, r, ns, i, s, checks, decisions)
    ensures SoFar(t0, PropagateOne(t, r, ns[i], s, checks), r, ns, i + 1, s, checks,
                  decisions + [DecisionFor(t, r, ns[i], s, checks)])
  {
    assert ns[i..][0] == ns[i] && ns[i..][1..] == ns[i + 1..];
  }

  // ---------- which prefixes need propagating ----------

  /** `ns` includes every prefix the operation may have given another best route. */
  ghost predicate Covers(ns: seq<Nlri>, r: L.Rib, e: R.Event, r': L.Rib) {
    match e.op
    case InsertOp(_, route) => route.nlri in ns
    case WithdrawOp(_, n) => n in ns
    case WithdrawPeerOp(p) => forall n :: (n, p) in r.candidates && (n in r.best || n in r'.best) ==> n in ns
    case RecomputeOp => forall n :: L.Naming(e.changes, n) != [] ==> n in ns
  }

  /** When a session ends, the prefixes that had a best route are enough, if the table was up to date. */
  lemma BestPrefixesCover(ns: seq<Nlri>, r: L.Rib, e: R.Event, r': L.Rib)
    requires R.Step(r, e, r') && e.op.WithdrawPeerOp? && L.UpToDate(r, e.oracle)
    requires forall n :: n in r.best ==> n in ns
    ensures Covers(ns, r, e, r')
  {
    var p, o := e.op.peer, e.oracle;
    forall n | (n, p) in r.candidates && n in r'.best ensures n in ns {
      L.WithdrawPeerAt(r, p, o, r', e.changes, n);
      L.BestIffReachable(r', n, o);
      var q :| (n, q) in r'.candidates && Reachable(r'.candidates[(n, q)], o);
      L.CandidateKey(r', (n, q));
      L.CandidateKey(r, (n, q));
      assert L.BestFor(r, n, o);
      L.BestIffReachable(r, n, o);
    }
  }

  lemma UncoveredKeepsView(ns: seq<Nlri>, r: L.Rib, e: R.Event, r': L.Rib, s: Session, n: Nlri)
    requires R.Step(r, e, r') && Covers(ns, r, e, r') && n !in ns
    ensures ViewAt(r', n, s) == ViewAt(r, n, s)
  {
    match e.op {
      case InsertOp(p, route) =>
        L.InsertIsLocal(r, p, route, e.oracle, r', e.changes[0]);
        assert L.SameAt(r, r', n);
      case WithdrawOp(p, m) =>
        L.WithdrawIsLocal(r, p, m, e.oracle, r', e.changes[0]);
        assert L.SameAt(r, r', n);
      case WithdrawPeerOp(p) => L.WithdrawPeerAt(r, p, e.oracle, r', e.changes, n);
      case RecomputeOp => L.RecomputeAt(r, e.oracle, r', e.changes, n);
    }
  }

  lemma {:induction false} PropagateAllAt(t: A.Table, r: L.Rib, ns: seq<Nlri>, s: Session, checks: bool, n: Nlri)
    ensures A.Lookup(PropagateAll(t, r, ns, s, checks), n)
         == if n in ns && !(checks && Guarded(r, n, s)) then Offered(r, n, s) else A.Lookup(t, n)
    decreases ns
  {
    if ns != [] {
      PropagateAllAt(PropagateOne(t, r, ns[0], s, checks), r, ns[1..], s, checks, n);
      assert ns == [ns[0]] + ns[1..];
    }
  }

  /**
   A listed prefix goes wrong when it is guarded and, with the check, the peer still holds
   a route for it, or, without the check, the pipeline has a route to offer.
   */
  predicate GoesWrong(t: A.Table, r: L.Rib, ns: seq<Nlri>, s: Session, checks: bool, n: Nlri) {
    n in ns && Guarded(r, n, s) && if checks then n in t else Offered(r, n, s).Some?
  }

  ghost predicate NoneGoesWrong(t: A.Table, r: L.Rib, ns: seq<Nlri>, s: Session, checks: bool) {
    forall n :: !GoesWrong(t, r, ns, s, checks, n)
  }

  /** Outside the list, what the peer should hold is what it should have held before. */
  ghost predicate NoneMissed(ns: seq<Nlri>, r: L.Rib, r': L.Rib, s: Session) {
    forall n :: n !in ns ==> Export(r', n, s) == Export(r, n, s)
  }

  /**
   Whatever list is propagated after whatever change of the routing table, our table stays
   right exactly when no listed prefix goes wrong and no other one is missed.
   */
  lemma RoundStaysInSync(t: A.Table, r: L.Rib, r': L.Rib, ns: seq<Nlri>, s: Session, checks: bool)
    requires InSync(t, r, s)
    ensures InSync(PropagateAll(t, r', ns, s, checks), r', s)
       <==> NoneGoesWrong(t, r', ns, s, checks) && NoneMissed(ns, r, r', s)
  {
    var t' := PropagateAll(t, r', ns, s, checks);
    forall n ensures A.Lookup(t', n) == Export(r', n, s)
      <==> !GoesWrong(t, r', ns, s, checks, n) && (n !in ns ==> Export(r', n, s) == Export(r, n, s))
    {
      PropagateAllAt(t, r', ns, s, checks, n);
      assert A.Lookup(t, n) == Export(r, n, s);
    }
  }

  /**
   The list taken when a session ends, the prefixes that had a best route, misses a prefix
   exactly when the withdrawal gives it one and the peer should hold that.
   */
  lemma SessionEndMisses(ns: seq<Nlri>, r: L.Rib, e: R.Event, r': L.Rib, s: Session)
    requires R.Step(r, e, r') && e.op.WithdrawPeerOp? && forall n :: n in ns <==> n in r.best
    ensures NoneMissed(ns, r, r', s) <==> forall n :: n !in r.best && n in r'.best ==> Export(r', n, s).None?
  {
    forall n | n !in ns ensures Export(r, n, s).None? && (n !in r'.best ==> Export(r', n, s).None?) {}
  }

  /** Propagating the affected prefixes keeps our table right exactly when none of them goes wrong. */
  lemma StepStaysInSync(t: A.Table, r: L.Rib, e: R.Event, r': L.Rib, ns: seq<Nlri>, s: Session, checks: bool)
    requires InSync(t, r, s) && R.Step(r, e, r') && Covers(ns, r, e, r')
    ensures InSync(PropagateAll(t, r', ns, s, checks), r', s) <==> NoneGoesWrong(t, r', ns, s, checks)
  {
    forall n | n !in ns ensures Export(r', n, s) == Export(r, n, s) {
      UncoveredKeepsView(ns, r, e, r', s, n);
    }
    RoundStaysInSync(t, r, r', ns, s, checks);
  }

  /** A new session starts in sync once every prefix with a best route has been propagated to it. */
  lemma DumpSynchronizes(r: L.Rib, ns: seq<Nlri>, s: Session)
    requires forall n :: n in r.best ==> n in ns
    ensures InSync(PropagateAll(map[], r, ns, s, true), r, s)
  {
    forall n ensures A.Lookup(PropagateAll(map[], r, ns, s, true), n) == Export(r, n, s) {
      PropagateAllAt(map[], r, ns, s, true, n);
    }
  }

  // ---------- whole runs ----------

  /** The prefixes propagated after an operation, and whether the guard was checked. */
  datatype Round = Round(nlris: seq<Nlri>, checks: bool)

  /** A run of the routing table with the affected prefixes propagated after each operation. */
  ghost predicate PropagatedRun(states: seq<L.Rib>, events: seq<R.Event>, rounds: seq<Round>,
                                tables: seq<A.Table>, s: Session) {
    && R.Run(states, events) && |rounds| == |events| && |tables| == |states|
    && forall i :: 0 <= i < |events| ==> PropagatedStep(states[i], events[i], states[i + 1], rounds[i], tables[i], tables[i + 1], s)
  }

  ghost predicate PropagatedStep(r: L.Rib, e: R.Event, r': L.Rib, round: Round, t: A.Table, t': A.Table, s: Session) {
    R.Step(r, e, r') && Covers(round.nlris, r, e, r') && t' == PropagateAll(t, r', round.nlris, s, round.checks)
  }

  /** What was last offered to the peer: by any round where the prefix is not guarded, or by one that did not check. */
  function LastOffered(states: seq<L.Rib>, rounds: seq<Round>, n: Nlri, k: nat, s: Session): Option<Route>
    requires k < |states| && k <= |rounds|
  {
    if !Guarded(states[k], n, s) then Offered(states[k], n, s)
    else if k == 0 then None
    else if !rounds[k - 1].checks && n in rounds[k - 1].nlris then Offered(states[k], n, s)
    else LastOffered(states, rounds, n, k - 1, s)
  }

  /**
   At every point of every run our table for the peer holds, for every prefix, exactly what
   the peer was last offered, whatever the oracles said and whatever notices were sent.
   */
  lemma {:induction false} TableHoldsLastOffered(states: seq<L.Rib>, events: seq<R.Event>, rounds: seq<Round>,
                                                tables: seq<A.Table>, s: Session, k: nat, n: Nlri)
    requires PropagatedRun(states, events, rounds, tables, s) && k <= |events|
    requires InSync(tables[0], states[0], s)
    ensures A.Lookup(tables[k], n) == LastOffered(states, rounds, n, k, s)
  {
    if k > 0 {
      TableHoldsLastOffered(states, events, rounds, tables, s, k - 1, n);
      assert PropagatedStep(states[k - 1], events[k - 1], states[k], rounds[k - 1], tables[k - 1], tables[k], s);
      LastOfferedStep(states, events[k - 1], rounds, tables[k - 1], s, k - 1, n);
    } else {
      assert A.Lookup(tables[0], n) == Export(states[0], n, s);
    }
  }

  lemma LastOfferedStep(states: seq<L.Rib>, e: R.Event, rounds: seq<Round>, t: A.Table, s: Session, i: nat, n: Nlri)
    requires i + 1 < |states| && i < |rounds| && R.Step(states[i], e, states[i + 1])
    requires Covers(rounds[i].nlris, states[i], e, states[i + 1])
    requires A.Lookup(t, n) == LastOffered(states, rounds, n, i, s)
    ensures A.Lookup(PropagateAll(t, states[i + 1], rounds[i].nlris, s, rounds[i].checks), n)
         == LastOffered(states, rounds, n, i + 1, s)
  {
    PropagateAllAt(t, states[i + 1], rounds[i].nlris, s, rounds[i].checks, n);
    if n !in rounds[i].nlris { UncoveredKeepsView(rounds[i].nlris, states[i], e, states[i + 1], s, n); }
  }

  /** Our table is right at a point of a run exactly when nothing guarded there was offered last. */
  lemma InSyncIff(states: seq<L.Rib>, events: seq<R.Event>, rounds: seq<Round>,
                  tables: seq<A.Table>, s: Session, k: nat)
    requires PropagatedRun(states, events, rounds, tables, s) && k <= |events|
    requires InSync(tables[0], states[0], s)
    ensures InSync(tables[k], states[k], s)
       <==> forall n :: Guarded(states[k], n, s) ==> LastOffered(states, rounds, n, k, s).None?
  {
    forall n ensures A.Lookup(tables[k], n) == Export(states[k], n, s)
                <==> (Guarded(states[k], n, s) ==> LastOffered(states, rounds, n, k, s).None?)
    {
      TableHoldsLastOffered(states, events, rounds, tables, s, k, n);
    }
  }

  ghost predicate NothingGoesWrong(states: seq<L.Rib>, events: seq<R.Event>, rounds: seq<Round>,
                                   tables: seq<A.Table>, s: Session)
    requires |states| == |tables| == |events| + 1 && |rounds| == |events|
  {
    forall i :: 0 <= i < |events| ==> NoneGoesWrong(tables[i], states[i + 1], rounds[i].nlris, s, rounds[i].checks)
  }

  /**
   Our table for the peer is the exported view of the best routes at every point of a run if
   and only if no round finds a guarded prefix still in it, or offers one unchecked.
   */
  lemma RunStaysInSync(states: seq<L.Rib>, events: seq<R.Event>, rounds: seq<Round>,
                       tables: seq<A.Table>, s: Session)
    requires PropagatedRun(states, events, rounds, tables, s) && InSync(tables[0], states[0], s)
    ensures (forall k :: 0 <= k <= |events| ==> InSync(tables[k], states[k], s))
       <==> NothingGoesWrong(states, events, rounds, tables, s)
  {
    if NothingGoesWrong(states, events, rounds, tables, s) {
      forall k | 0 <= k <= |events| ensures InSync(tables[k], states[k], s) {
        FlawlessRun(states, events, rounds, tables, s, k);
      }
    }
    if forall k :: 0 <= k <= |events| ==> InSync(tables[k], states[k], s) {
      forall i | 0 <= i < |events| ensures NoneGoesWrong(tables[i], states[i + 1], rounds[i].nlris, s, rounds[i].checks) {
        assert InSync(tables[i], states[i], s) && InSync(tables[i + 1], states[i + 1], s);
        RunStepInSync(states, events, rounds, tables, s, i);
      }
    }
  }

  lemma RunStepInSync(states: seq<L.Rib>, events: seq<R.Event>, rounds: seq<Round>,
                      tables: seq<A.Table>, s: Session, i: nat)
    requires PropagatedRun(states, events, rounds, tables, s) && i < |events|
    requires InSync(tables[i], states[i], s)
    ensures InSync(tables[i + 1], states[i + 1], s)
       <==> NoneGoesWrong(tables[i], states[i + 1], rounds[i].nlris, s, rounds[i].checks)
  {
    assert PropagatedStep(states[i], events[i], states[i + 1], rounds[i], tables[i], tables[i + 1], s);
    StepStaysInSync(tables[i], states[i], events[i], states[i + 1], rounds[i].nlris, s, rounds[i].checks);
  }

  lemma {:induction false} FlawlessRun(states: seq<L.Rib>, events: seq<R.Event>, rounds: seq<Round>,
                                       tables: seq<A.Table>, s: Session, k: nat)
    requires PropagatedRun(states, events, rounds, tables, s) && InSync(tables[0], states[0], s)
    requires NothingGoesWrong(states, events, rounds, tables, s) && k <= |events|
    ensures InSync(tables[k], states[k], s)
  {
    if k > 0 {
      FlawlessRun(states, events, rounds, tables, s, k - 1);
      RunStepInSync(states, events, rounds, tables, s, k - 1);
      assert NoneGoesWrong(tables[k - 1], states[k], rounds[k - 1].nlris, s, rounds[k - 1].checks);
    }
  }

  /** On every session but a reflector's to a non-client, the guard never fires and our table is always right. */
  lemma UnguardedRunInSync(states: seq<L.Rib>, events: seq<R.Event>, rounds: seq<Round>,
                           tables: seq<A.Table>, s: Session, k: nat)
    requires PropagatedRun(states, events, rounds, tables, s) && InSync(tables[0], states[0], s) && k <= |events|
    requires s.peering.clients == {} || !s.peerType.Internal? || s.peer in s.peering.clients
    ensures InSync(tables[k], states[k], s)
  {
    InSyncIff(states, events, rounds, tables, s, k);
  }

  // ---------- the guard can strand a route ----------

  /** A session of a reflector with an internal peer that is not a client. */
  predicate NonClientSession(s: Session, inner: PeerId) {
    && s.peerType.Internal? && s.reflects && s.terms == [] && s.default.DefaultAccept?
    && s.peering.clients != {} && s.peer !in s.peering.clients
    && inner.PeerV4? && inner !in s.peering.clients && inner != s.peer
    && inner in s.peering.types && s.peering.types[inner].Internal?
  }

  /** The two routes of the example: only the outer one's next hop can become unreachable. */
  predicate ExampleRoutes(outer: Route, inner: Route, before: Oracle, after: Oracle) {
    && outer.nlri == inner.nlri && outer.Communities() == []
    && Reachable(outer, before) && !Reachable(outer, after) && Reachable(inner, after)
  }

  function Both(outerPeer: PeerId, outer: Route, innerPeer: PeerId, inner: Route): L.Rib {
    var n := inner.nlri;
    L.Rib(map[(n, outerPeer) := outer, (n, innerPeer) := inner], map[n := innerPeer])
  }

  /** The inner route wins while the outer one is unreachable. */
  lemma InnerWins(outerPeer: PeerId, outer: Route, innerPeer: PeerId, inner: Route, before: Oracle, after: Oracle)
    requires outerPeer != innerPeer && ExampleRoutes(outer, inner, before, after)
    ensures R.Step(R.Lone(outerPeer, outer),
                   R.Event(R.InsertOp(innerPeer, inner), after, [L.Announced(inner.nlri, inner)]),
                   Both(outerPeer, outer, innerPeer, inner))
  {
    var n := inner.nlri;
    var a, b := R.Lone(outerPeer, outer), Both(outerPeer, outer, innerPeer, inner);
    L.LoneBest(b, n, innerPeer, after);
    assert b.candidates == a.candidates[(n, innerPeer) := inner];
    assert b.best - {n} == a.best - {n};
  }

  lemma OuterGoes(outerPeer: PeerId, outer: Route, innerPeer: PeerId, inner: Route, after: Oracle)
    requires outerPeer != innerPeer && Reachable(inner, after)
    ensures R.Step(Both(outerPeer, outer, innerPeer, inner),
                   R.Event(R.WithdrawOp(outerPeer, inner.nlri), after, [L.Unchanged]), R.Lone(innerPeer, inner))
  {
    var n := inner.nlri;
    var b, c := Both(outerPeer, outer, innerPeer, inner), R.Lone(innerPeer, inner);
    L.LoneBest(c, n, innerPeer, after);
    assert c.candidates == b.candidates - {(n, outerPeer)};
    assert c.best - {n} == b.best - {n};
  }

  /** The outer route is exported; the inner one is guarded. */
  lemma ExampleExports(outerPeer: PeerId, outer: Route, innerPeer: PeerId, inner: Route, s: Session)
    requires NonClientSession(s, innerPeer) && outer.nlri == inner.nlri && outer.Communities() == []
    requires outerPeer != innerPeer && outerPeer != s.peer
    requires outerPeer !in s.peering.types || !s.peering.types[outerPeer].Internal?
    ensures var n := inner.nlri;
      && !Guarded(R.Lone(outerPeer, outer), n, s)
      && Export(R.Lone(outerPeer, outer), n, s) == Some(Prepared(outer, Internal, s.speaker))
      && Guarded(Both(outerPeer, outer, innerPeer, inner), n, s)
      && Guarded(R.Lone(innerPeer, inner), n, s)
  {
    LoneOffer(outerPeer, outer, s);
  }

  /** One step of the example: the table of the one prefix involved. */
  lemma ExampleStep(r: L.Rib, e: R.Event, r': L.Rib, n: Nlri, checks: bool, t: A.Table, t': A.Table, s: Session)
    requires R.Step(r, e, r') && Covers([n], r, e, r') && t' == PropagateOne(t, r', n, s, checks)
    ensures PropagatedStep(r, e, r', Round([n], checks), t, t', s)
  {
    assert [n][1..] == [];
  }

  /**
   An external route is exported to a non-client. Its next hop becomes unreachable and a
   non-client internal route wins, which the guard skips. Then the external peer withdraws
   its route: no candidate has it any more, and the non-client still does.
   */
  lemma GuardStrandsRoute(outerPeer: PeerId, outer: Route, innerPeer: PeerId, inner: Route,
                          before: Oracle, after: Oracle, s: Session)
    returns (states: seq<L.Rib>, events: seq<R.Event>, rounds: seq<Round>, tables: seq<A.Table>)
    requires NonClientSession(s, innerPeer) && ExampleRoutes(outer, inner, before, after)
    requires outerPeer != innerPeer && outerPeer != s.peer
    requires outerPeer !in s.peering.types || !s.peering.types[outerPeer].Internal?
    ensures PropagatedRun(states, events, rounds, tables, s) && |events| == 3
    ensures forall i :: 0 <= i < 3 ==> rounds[i].checks
    ensures states[0] == R.EMPTY && tables[0] == map[]
    ensures states[3] == R.Lone(innerPeer, inner) && Export(states[3], inner.nlri, s).None?
    ensures A.Lookup(tables[3], inner.nlri) == Some(Prepared(outer, Internal, s.speaker))
  {
    var n := inner.nlri;
    var held := map[n := Prepared(outer, Internal, s.speaker)];
    var a, b, c := R.Lone(outerPeer, outer), Both(outerPeer, outer, innerPeer, inner), R.Lone(innerPeer, inner);
    ExampleExports(outerPeer, outer, innerPeer, inner, s);
    var e, f, g := ExampleEvents(outerPeer, outer, innerPeer, inner, before, after);
    states, events, rounds, tables := ExampleRun(a, b, c, e, f, g, n, held, s);
  }

  lemma ExampleRun(a: L.Rib, b: L.Rib, c: L.Rib, e: R.Event, f: R.Event, g: R.Event, n: Nlri, held: A.Table, s: Session)
    returns (states: seq<L.Rib>, events: seq<R.Event>, rounds: seq<Round>, tables: seq<A.Table>)
    requires R.Step(R.EMPTY, e, a) && R.Step(a, f, b) && R.Step(b, g, c)
    requires Covers([n], R.EMPTY, e, a) && Covers([n], a, f, b) && Covers([n], b, g, c)
    requires held == PropagateOne(map[], a, n, s, true) && Guarded(b, n, s) && Guarded(c, n, s)
    ensures PropagatedRun(states, events, rounds, tables, s) && |events| == 3
    ensures forall i :: 0 <= i < 3 ==> rounds[i].checks
    ensures states[0] == R.EMPTY && tables[0] == map[] && states[3] == c && tables[3] == held
  {
    ExampleStep(R.EMPTY, e, a, n, true, map[], held, s);
    ExampleStep(a, f, b, n, true, held, held, s);
    ExampleStep(b, g, c, n, true, held, held, s);
    states, events := [R.EMPTY, a, b, c], [e, f, g];
    rounds, tables := [Round([n], true), Round([n], true), Round([n], true)], [map[], held, held, held];
    ThreeSteps(states, events, rounds, tables, s);
  }

  lemma ExampleEvents(outerPeer: PeerId, outer: Route, innerPeer: PeerId, inner: Route, before: Oracle, after: Oracle)
    returns (e: R.Event, f: R.Event, g: R.Event)
    requires outerPeer != innerPeer && ExampleRoutes(outer, inner, before, after)
    ensures var a, b, c := R.Lone(outerPeer, outer), Both(outerPeer, outer, innerPeer, inner), R.Lone(innerPeer, inner);
      R.Step(R.EMPTY, e, a) && R.Step(a, f, b) && R.Step(b, g, c)
      && Covers([inner.nlri], R.EMPTY, e, a) && Covers([inner.nlri], a, f, b) && Covers([inner.nlri], b, g, c)
  {
    var n := inner.nlri;
    R.InsertAlone(outerPeer, outer, before);
    InnerWins(outerPeer, outer, innerPeer, inner, before, after);
    OuterGoes(outerPeer, outer, innerPeer, inner, after);
    e := R.Event(R.InsertOp(outerPeer, outer), before, [L.Announced(n, outer)]);
    f := R.Event(R.InsertOp(innerPeer, inner), after, [L.Announced(n, inner)]);
    g := R.Event(R.WithdrawOp(outerPeer, n), after, [L.Unchanged]);
  }

  lemma ThreeSteps(states: seq<L.Rib>, events: seq<R.Event>, rounds: seq<Round>, tables: seq<A.Table>, s: Session)
    requires |states| == |tables| == 4 && |events| == |rounds| == 3
    requires PropagatedStep(states[0], events[0], states[1], rounds[0], tables[0], tables[1], s)
    requires PropagatedStep(states[1], events[1], states[2], rounds[1], tables[1], tables[2], s)
    requires PropagatedStep(states[2], events[2], states[3], rounds[2], tables[2], tables[3], s)
    ensures PropagatedRun(states, events, rounds, tables, s)
  {
  }

  /** The outer peer's session ends instead. */
  lemma OuterSessionEnds(outerPeer: PeerId, outer: Route, innerPeer: PeerId, inner: Route, after: Oracle)
    requires outerPeer != innerPeer && Reachable(inner, after)
    ensures R.Step(Both(outerPeer, outer, innerPeer, inner),
                   R.Event(R.WithdrawPeerOp(outerPeer), after, [L.Unchanged]), R.Lone(innerPeer, inner))
  {
    var n, r, r' := inner.nlri, Both(outerPeer, outer, innerPeer, inner), R.Lone(innerPeer, inner);
    OuterGoes(outerPeer, outer, innerPeer, inner, after);
    assert (n, outerPeer) in r.candidates;
    assert L.PrefixesOf(r, outerPeer) == {n};
    assert L.IsListing([n], L.PrefixesOf(r, outerPeer));
    assert L.WithdrawChain(outerPeer, after, [n], [r, r'], [L.Unchanged]);
    assert [r, r'][0] == r && [r, r'][1] == r';
  }

  /**
   When the external peer's session ends, the propagation does not check the guard, and
   the non-client is sent the other non-client's route.
   */
  lemma UncheckedSendsGuardedRoute(outerPeer: PeerId, outer: Route, innerPeer: PeerId, inner: Route,
                                   after: Oracle, s: Session, t: A.Table)
    requires NonClientSession(s, innerPeer) && outerPeer != innerPeer
    requires Reachable(inner, after) && inner.Communities() == []
    ensures var n, r, r' := inner.nlri, Both(outerPeer, outer, innerPeer, inner), R.Lone(innerPeer, inner);
      && R.Step(r, R.Event(R.WithdrawPeerOp(outerPeer), after, [L.Unchanged]), r')
      && Export(r', n, s).None?
      && A.Lookup(PropagateAll(t, r', [n], s, false), n) == Some(Prepared(inner, Internal, s.speaker))
  {
    var n, r' := inner.nlri, R.Lone(innerPeer, inner);
    OuterSessionEnds(outerPeer, outer, innerPeer, inner, after);
    PropagateAllAt(t, r', [n], s, false, n);
    LoneOffer(innerPeer, inner, s);
  }

  lemma LoneOffer(peer: PeerId, route: Route, s: Session)
    requires s.peerType.Internal? && s.reflects && s.terms == [] && s.default.DefaultAccept?
    requires peer != s.peer && route.Communities() == []
    ensures Offered(R.Lone(peer, route), route.nlri, s) == Some(Prepared(route, Internal, s.speaker))
  {
    var p := Prepared(route, Internal, s.speaker);
    assert EvalTerms([], p, DefaultAccept) == (Accept, p);
    assert p.Communities() == [];
  }

  // ---------- a best route nobody is told of ----------

  /**
   Two peers' routes are both unreachable, so the prefix has no best route. One becomes
   reachable, and before the table is re-selected the other's session ends. Withdrawing it
   selects the first, but the prefix had no best route and is not on the list.
   */
  lemma SessionEndMissesGain(going: PeerId, gone: Route, staying: PeerId, gain: Route, before: Oracle, after: Oracle, s: Session)
    requires going != staying && staying != s.peer && gone.nlri == gain.nlri && gain.Communities() == []
    requires !Reachable(gone, before) && !Reachable(gain, before) && Reachable(gain, after)
    requires s.peerType.Internal? && s.reflects && s.terms == [] && s.default.DefaultAccept? && s.peering.clients == {}
    ensures var n := gain.nlri;
      var r := L.Rib(map[(n, going) := gone, (n, staying) := gain], map[]);
      var e := R.Event(R.WithdrawPeerOp(going), after, [L.Announced(n, gain)]);
      && L.UpToDate(r, before) && R.Step(r, e, R.Lone(staying, gain))
      && Export(R.Lone(staying, gain), n, s).Some?
      && InSync(map[], r, s) && !InSync(PropagateAll(map[], R.Lone(staying, gain), [], s, false), R.Lone(staying, gain), s)
  {
    var n := gain.nlri;
    var r, r' := L.Rib(map[(n, going) := gone, (n, staying) := gain], map[]), R.Lone(staying, gain);
    forall m ensures L.BestFor(r, m, before) { L.NoneReachable(r.candidates, m, before); }
    GainStep(going, gone, staying, gain, after);
    LoneOffer(staying, gain, s);
    assert A.Lookup(map[], n) != Export(r', n, s);
  }

  lemma GainStep(going: PeerId, gone: Route, staying: PeerId, gain: Route, after: Oracle)
    requires going != staying && gone.nlri == gain.nlri && Reachable(gain, after)
    ensures R.Step(L.Rib(map[(gain.nlri, going) := gone, (gain.nlri, staying) := gain], map[]),
                   R.Event(R.WithdrawPeerOp(going), after, [L.Announced(gain.nlri, gain)]), R.Lone(staying, gain))
  {
    var n := gain.nlri;
    var r, r' := L.Rib(map[(n, going) := gone, (n, staying) := gain], map[]), R.Lone(staying, gain);
    L.LoneBest(r', n, staying, after);
    assert r'.candidates == r.candidates - {(n, going)} && r'.best - {n} == r.best - {n};
    assert L.WithdrawStep(r, going, n, after, r', L.Announced(n, gain));
    assert (n, going) in r.candidates;
    assert L.PrefixesOf(r, going) == {n};
    assert L.IsListing([n], L.PrefixesOf(r, going));
    assert L.WithdrawChain(going, after, [n], [r, r'], [L.Announced(n, gain)]);
    assert [r, r'][0] == r && [r, r'][1] == r';
  }
}
