/** Histories of one external session after which the peer does not hold what it should. */
module SessionCases {
  import opened Types
  import opened BestPath
  import opened Policies
  import opened Outbound
  import L = LocRib
  import R = LocRibRuns
  import A = AdjRibOut
  import P = Propagation
  import F = Flush
  import opened Sessions

  /** An external session that exports everything, and a route from some other peer that nothing suppresses. */
  predicate Plain(s: P.Session, peer: PeerId, route: Route) {
    s.peerType.External? && s.terms == [] && s.default.DefaultAccept? && peer != s.peer && route.Communities() == []
  }

  function Sent(route: Route, s: P.Session): Route {
    Prepared(route, External, s.speaker)
  }

  function SentAttrs(route: Route, s: P.Session): F.Attrs {
    F.AttributesOf(Sent(route, s), External)
  }

  lemma PlainOffer(s: P.Session, peer: PeerId, route: Route)
    requires Plain(s, peer, route)
    ensures P.Offered(R.Lone(peer, route), route.nlri, s) == Some(Sent(route, s)) && Sent(route, s).nlri == route.nlri
    ensures P.Offered(R.EMPTY, route.nlri, s) == None
  {
    var p := Sent(route, s);
    StoredIsPrepared(route, External, s.speaker, [], DefaultAccept);
    assert EvalTerms([], p, DefaultAccept) == (Accept, p);
    assert p.Communities() == [];
  }

  /** A round for one prefix on such a session. */
  lemma OneRound(l: Link, r: L.Rib, n: Nlri, s: P.Session, checks: bool)
    requires s.peerType.External?
    ensures P.Decisions(l.table, r, [n], s, checks) == [A.MessageTo(l.table, n, P.Offered(r, n, s))]
    ensures P.PropagateAll(l.table, r, [n], s, checks) == A.Put(l.table, n, P.Offered(r, n, s))
  {
    assert [n][1..] == [];
  }

  lemma PaceSingle(d: A.PrefixDecision, lastSent: map<Nlri, nat>, pending: set<Nlri>, now: nat)
    ensures PaceAll([d], lastSent, pending, now) == PaceOne(d, lastSent, pending, now)
  {
    assert [d][1..] == [];
    assert PaceOne(d, lastSent, pending, now).kept + [] == PaceOne(d, lastSent, pending, now).kept;
  }

  function Buffered(n: Nlri, now: nat): Round { Round([n], true, false, now) }

  /** The first announcement of a route on a fresh session goes into the buffer. */
  lemma FirstAnnouncement(s: P.Session, peer: PeerId, route: Route) returns (l: Link)
    requires Plain(s, peer, route)
    ensures l == Advance(FRESH, R.Lone(peer, route), Buffered(route.nlri, 0), s)
    ensures l == Link(map[route.nlri := Sent(route, s)], [A.Announce(Sent(route, s))], map[route.nlri := 0], {}, map[])
  {
    l := Advance(FRESH, R.Lone(peer, route), Buffered(route.nlri, 0), s);
    PlainOffer(s, peer, route);
    OneRound(FRESH, R.Lone(peer, route), route.nlri, s, true);
    PaceSingle(A.Announce(Sent(route, s)), map[], {}, 0);
  }

  /** Two changes of the routing table and a flush, from nothing back to nothing. */
  lemma ShortRun(a: L.Rib, e: Event, l1: Link, f: Event, l2: Link, s: P.Session)
    returns (states: seq<L.Rib>, links: seq<Link>, events: seq<Event>)
    requires Step(R.EMPTY, FRESH, e, a, l1, s) && Step(a, l1, f, R.EMPTY, l2, s)
    ensures Run(states, links, events, s) && |events| == 3
    ensures links[0] == FRESH && states[3] == R.EMPTY && links[3] == Drained(l2, s)
  {
    states, links, events := [R.EMPTY, a, R.EMPTY, R.EMPTY], [FRESH, l1, l2, Drained(l2, s)], [e, f, Drain];
    assert Step(R.EMPTY, l2, Drain, R.EMPTY, Drained(l2, s), s);
  }

  lemma AnnouncementStep(s: P.Session, peer: PeerId, route: Route, o: Oracle) returns (e: Event, l: Link)
    requires Plain(s, peer, route) && Reachable(route, o)
    ensures Step(R.EMPTY, FRESH, e, R.Lone(peer, route), l, s)
    ensures l == Link(map[route.nlri := Sent(route, s)], [A.Announce(Sent(route, s))], map[route.nlri := 0], {}, map[])
  {
    e := Routing(R.Event(R.InsertOp(peer, route), o, [L.Announced(route.nlri, route)]), Buffered(route.nlri, 0));
    R.InsertAlone(peer, route, o);
    l := FirstAnnouncement(s, peer, route);
  }

  /**
   A burst announces a route and withdraws it before the buffer is flushed. The withdrawal
   goes out first, and the peer keeps a route that our table does not hold.
   */
  lemma BurstStrandsRoute(s: P.Session, peer: PeerId, route: Route, o: Oracle)
    returns (states: seq<L.Rib>, links: seq<Link>, events: seq<Event>)
    requires Plain(s, peer, route) && Reachable(route, o)
    ensures Run(states, links, events, s) && |events| == 3 && links[0] == FRESH && states[3] == R.EMPTY
    ensures Quiet(links[3]) && links[3].table == map[]
    ensures F.At(links[3].remote, route.nlri) == Some(SentAttrs(route, s))
  {
    var n := route.nlri;
    var e, l1 := AnnouncementStep(s, peer, route, o);
    var f := Routing(R.Event(R.WithdrawOp(peer, n), o, [L.Withdrawn(n)]), Buffered(n, 1));
    R.WithdrawAlone(peer, route, o);
    var l2 := WithdrawalFollows(s, peer, route);
    PlainOffer(s, peer, route);
    BurstArrives(l2, s, route);
    states, links, events := ShortRun(R.Lone(peer, route), e, l1, f, l2, s);
  }

  lemma WithdrawalFollows(s: P.Session, peer: PeerId, route: Route) returns (l: Link)
    requires Plain(s, peer, route)
    ensures var n := route.nlri;
      var l1 := Link(map[n := Sent(route, s)], [A.Announce(Sent(route, s))], map[n := 0], {}, map[]);
      && l == Advance(l1, R.EMPTY, Buffered(n, 1), s)
      && l == Link(map[], [A.Announce(Sent(route, s)), A.WithdrawPrefix(n)], map[], {}, map[])
  {
    var n, r := route.nlri, Sent(route, s);
    var l1 := Link(map[n := r], [A.Announce(r)], map[n := 0], {}, map[]);
    l := Advance(l1, R.EMPTY, Buffered(n, 1), s);
    PlainOffer(s, peer, route);
    OneRound(l1, R.EMPTY, n, s, true);
    PaceSingle(A.WithdrawPrefix(n), l1.lastSent, {}, 1);
    assert [A.Announce(r)] + [A.WithdrawPrefix(n)] == [A.Announce(r), A.WithdrawPrefix(n)];
    assert map[n := r] - {n} == map[] && map[n := 0] - {n} == map[];
  }

  lemma BurstArrives(l: Link, s: P.Session, route: Route)
    requires s.peerType.External? && Sent(route, s).nlri == route.nlri
    requires l == Link(map[], [A.Announce(Sent(route, s)), A.WithdrawPrefix(route.nlri)], map[], {}, map[])
    ensures F.At(Drained(l, s).remote, route.nlri) == Some(SentAttrs(route, s))
  {
    F.BurstKeepsWithdrawnRoute(Sent(route, s), External);
    F.DeliverIsPointwise(map[], l.buffer, route.nlri, External);
  }

  /**
   The announcing peer's session ends while its announcement is still buffered. The
   withdrawal is sent past the buffer, the announcement after it.
   */
  lemma DirectFlushIsOvertaken(s: P.Session, peer: PeerId, route: Route, o: Oracle)
    returns (states: seq<L.Rib>, links: seq<Link>, events: seq<Event>)
    requires Plain(s, peer, route) && Reachable(route, o)
    ensures Run(states, links, events, s) && |events| == 3 && links[0] == FRESH && states[3] == R.EMPTY
    ensures Quiet(links[3]) && links[3].table == map[]
    ensures F.At(links[3].remote, route.nlri) == Some(SentAttrs(route, s))
  {
    var n := route.nlri;
    var e, l1 := AnnouncementStep(s, peer, route, o);
    var f, l2 := SessionEndStep(s, peer, route, o, l1);
    PlainOffer(s, peer, route);
    LoneAnnouncementArrives(l2, s, Sent(route, s));
    states, links, events := ShortRun(R.Lone(peer, route), e, l1, f, l2, s);
  }

  lemma SessionEndStep(s: P.Session, peer: PeerId, route: Route, o: Oracle, l: Link) returns (f: Event, l': Link)
    requires Plain(s, peer, route) && l.table == map[route.nlri := Sent(route, s)]
    ensures Step(R.Lone(peer, route), l, f, R.EMPTY, l', s)
    ensures l'.table == map[] && l'.buffer == l.buffer
  {
    var n := route.nlri;
    f := Routing(R.Event(R.WithdrawPeerOp(peer), o, [L.Withdrawn(n)]), Round([n], false, true, 1));
    R.WithdrawAlone(peer, route, o);
    PlainOffer(s, peer, route);
    OneRound(l, R.EMPTY, n, s, false);
    l' := Advance(l, R.EMPTY, f.round, s);
  }

  lemma LoneAnnouncementArrives(l: Link, s: P.Session, r: Route)
    requires s.peerType.External? && l.buffer == [A.Announce(r)]
    ensures F.At(Drained(l, s).remote, r.nlri) == Some(F.AttributesOf(r, External))
  {
    NamingOne(A.Announce(r), r.nlri);
    F.OnceIsHarmless(l.buffer, r.nlri, External);
    F.OrderSurvivesIff(F.At(l.remote, r.nlri), l.buffer, r.nlri, External);
    F.DeliverIsPointwise(l.remote, l.buffer, r.nlri, External);
  }

  /** A replacement within the interval is held back, and our table has it already. */
  lemma ReplacementHeldBack(s: P.Session, peer: PeerId, second: Route, l: Link) returns (l': Link)
    requires Plain(s, peer, second) && l.buffer == [] && l.lastSent == map[second.nlri := 0] && l.pending == {}
    requires A.Lookup(l.table, second.nlri) != Some(Sent(second, s))
    ensures l' == Advance(l, R.Lone(peer, second), Buffered(second.nlri, 1), s)
    ensures l' == l.(table := l.table[second.nlri := Sent(second, s)], buffer := [A.NoChange], pending := {second.nlri})
  {
    var n := second.nlri;
    l' := Advance(l, R.Lone(peer, second), Buffered(n, 1), s);
    PlainOffer(s, peer, second);
    OneRound(l, R.Lone(peer, second), n, s, true);
    PaceSingle(A.Announce(Sent(second, s)), l.lastSent, {}, 1);
    assert [] + [A.NoChange] == [A.NoChange];
  }

  /** Flushing decisions that say nothing changes nothing. */
  lemma EmptyFlush(l: Link, s: P.Session, n: Nlri)
    requires F.Naming(l.buffer, n) == []
    ensures F.At(Drained(l, s).remote, n) == F.At(l.remote, n)
  {
    F.DeliverIsPointwise(l.remote, l.buffer, n, s.peerType);
    F.NoAnnouncementArrives(F.At(l.remote, n), l.buffer, n, s.peerType);
  }

  /**
   A route is announced, flushed, and replaced a second later. The replacement is held back;
   the timer an interval later finds our table unchanged, and the peer keeps the first route.
   */
  lemma HeldBackIsNeverSent(s: P.Session, peer: PeerId, first: Route, second: Route, l1: Link, l2: Link, l3: Link, l4: Link)
    requires Plain(s, peer, first) && Plain(s, peer, second) && first.nlri == second.nlri
    requires Sent(first, s) != Sent(second, s)
    requires l1 == Advance(FRESH, R.Lone(peer, first), Buffered(first.nlri, 0), s)
    requires l2 == Drained(l1, s)
    requires l3 == Advance(l2, R.Lone(peer, second), Buffered(first.nlri, 1), s)
    requires l4 == Drained(l3, s)
    ensures var ev := Interval([first.nlri], true, MRAI);
      var l5 := Advance(Unpended(l4, ev), R.Lone(peer, second), IntervalRound(ev), s);
      && Step(R.Lone(peer, second), l4, ev, R.Lone(peer, second), l5, s)
      && Drained(l5, s).table == map[first.nlri := Sent(second, s)] && Drained(l5, s).pending == {}
      && F.At(Drained(l5, s).remote, first.nlri) == Some(SentAttrs(first, s))
  {
    var n := first.nlri;
    var a := FirstAnnouncement(s, peer, first);
    PlainOffer(s, peer, first);
    LoneAnnouncementArrives(l1, s, Sent(first, s));
    var b := ReplacementHeldBack(s, peer, second, l2);
    NamingOne(A.NoChange, n);
    EmptyFlush(l3, s, n);
    assert l4 == Link(map[n := Sent(second, s)], [], map[n := 0], {n}, l4.remote);
    HeldBackTimer(s, peer, second, l4);
  }

  lemma HeldBackTimer(s: P.Session, peer: PeerId, second: Route, l: Link)
    requires Plain(s, peer, second)
    requires l == Link(map[second.nlri := Sent(second, s)], [], map[second.nlri := 0], {second.nlri}, l.remote)
    ensures var ev := Interval([second.nlri], true, MRAI);
      var l' := Advance(Unpended(l, ev), R.Lone(peer, second), IntervalRound(ev), s);
      && Step(R.Lone(peer, second), l, ev, R.Lone(peer, second), l', s)
      && Drained(l', s).table == l.table && Drained(l', s).pending == {}
      && F.At(Drained(l', s).remote, second.nlri) == F.At(l.remote, second.nlri)
  {
    var n, r, ev := second.nlri, R.Lone(peer, second), Interval([second.nlri], true, MRAI);
    PlainOffer(s, peer, second);
    forall m ensures A.Lookup(l.table, m) == P.Export(r, m, s) {}
    RepeatedAdvance(Unpended(l, ev), r, IntervalRound(ev), s);
    EmptyFlush(Advance(Unpended(l, ev), r, IntervalRound(ev), s), s, n);
  }
}
