/** Whole histories of the local routing table. */
module LocRibRuns {
  import opened Types
  import opened BestPath
  import opened Elimination
  import opened LocRib

  datatype Op =
    | InsertOp(peer: PeerId, route: Route)
    | WithdrawOp(peer: PeerId, nlri: Nlri)
    | WithdrawPeerOp(peer: PeerId)
    | RecomputeOp

  /** One operation, the oracle it consulted and the notices it returned. */
  datatype Event = Event(op: Op, oracle: Oracle, changes: seq<Change>)

  ghost predicate Step(r: Rib, e: Event, r': Rib) {
    match e.op
    case InsertOp(p, route) => |e.changes| == 1 && InsertStep(r, p, route, e.oracle, r', e.changes[0])
    case WithdrawOp(p, n) => |e.changes| == 1 && WithdrawStep(r, p, n, e.oracle, r', e.changes[0])
    case WithdrawPeerOp(p) => WithdrawPeerStep(r, p, e.oracle, r', e.changes)
    case RecomputeOp => RecomputeStep(r, e.oracle, r', e.changes)
  }

  ghost predicate Run(states: seq<Rib>, events: seq<Event>) {
    && |states| == |events| + 1
    && forall i :: 0 <= i < |events| ==> Step(states[i], events[i], states[i + 1])
  }

  /** The event is an insert that silently takes away the last reachable route of `n`. */
  ghost predicate LostAt(r: Rib, e: Event, n: Nlri) {
    e.op.InsertOp? && e.op.route.nlri == n && LosesWithdrawal(r, e.op.peer, e.op.route, e.oracle)
  }

  ghost predicate LosesNothing(states: seq<Rib>, events: seq<Event>)
    requires |states| == |events| + 1
  {
    forall i, n :: 0 <= i < |events| ==> !LostAt(states[i], events[i], n)
  }

  // ---------- one event, seen from one prefix ----------

  /** The notices naming a prefix are right exactly when no withdrawal of it was lost. */
  lemma StepNoticeRight(r: Rib, e: Event, r': Rib, n: Nlri)
    requires Step(r, e, r')
    ensures NoticeRight(r, r', n, Naming(e.changes, n)) <==> !LostAt(r, e, n)
    ensures LostAt(r, e, n) ==> Naming(e.changes, n) == [] && RouteAt(r', n).None?
  {
    match e.op {
      case InsertOp(p, route) =>
        assert e.changes == [e.changes[0]];
        InsertIsLocal(r, p, route, e.oracle, r', e.changes[0]);
        NamingOne(e.changes[0], n);
        if n != route.nlri { assert SameAt(r, r', n); }
      case WithdrawOp(p, m) =>
        assert e.changes == [e.changes[0]];
        WithdrawIsLocal(r, p, m, e.oracle, r', e.changes[0]);
        if n != m { assert SameAt(r, r', n); }
      case WithdrawPeerOp(p) => WithdrawPeerAt(r, p, e.oracle, r', e.changes, n);
      case RecomputeOp => RecomputeAt(r, e.oracle, r', e.changes, n);
    }
  }

  /** A prefix is either untouched or freshly selected. */
  lemma StepSelects(r: Rib, e: Event, r': Rib, n: Nlri)
    requires Step(r, e, r') && Sound(r)
    ensures SameAt(r, r', n) || BestFor(r', n, e.oracle)
  {
    match e.op {
      case InsertOp(p, route) =>
        InsertIsLocal(r, p, route, e.oracle, r', e.changes[0]);
      case WithdrawOp(p, m) =>
        WithdrawIsLocal(r, p, m, e.oracle, r', e.changes[0]);
      case WithdrawPeerOp(p) => WithdrawPeerAt(r, p, e.oracle, r', e.changes, n);
      case RecomputeOp => RecomputeAt(r, e.oracle, r', e.changes, n);
    }
  }

  // ---------- the notices ----------

  /** One event's notices bring a consumer in line exactly when it loses no withdrawal. */
  lemma StepReplay(r: Rib, e: Event, r': Rib)
    requires Step(r, e, r')
    ensures ApplyAll(BestRoutes(r), e.changes) == BestRoutes(r') <==> forall n :: !LostAt(r, e, n)
  {
    if forall n :: !LostAt(r, e, n) {
      forall n ensures NoticeRight(r, r', n, Naming(e.changes, n)) { StepNoticeRight(r, e, r', n); }
      RightNoticesReplay(r, r', e.changes);
    } else {
      var n :| LostAt(r, e, n);
      StepNoticeRight(r, e, r', n);
      ApplyAllAt(BestRoutes(r), e.changes, n);
      GetBestRoutes(r, n);
      GetBestRoutes(r', n);
    }
  }

  /** The consumer's table after the first `k` events. */
  function Replay(fib: map<Nlri, Route>, events: seq<Event>, k: nat): map<Nlri, Route>
    requires k <= |events|
  {
    if k == 0 then fib else ApplyAll(Replay(fib, events, k - 1), events[k - 1].changes)
  }

  ghost predicate ConsumerRight(states: seq<Rib>, events: seq<Event>, k: nat)
    requires |states| == |events| + 1 && k <= |events|
  {
    Replay(BestRoutes(states[0]), events, k) == BestRoutes(states[k])
  }

  /**
   A consumer that only ever sees the notices holds exactly the best routes at every
   point of a run, whatever the oracles said, if and only if no insert of the run
   loses a withdrawal.
   */
  lemma ReplayHoldsBestRoutes(states: seq<Rib>, events: seq<Event>)
    requires Run(states, events)
    ensures (forall k :: 0 <= k <= |events| ==> ConsumerRight(states, events, k)) <==> LosesNothing(states, events)
  {
    if LosesNothing(states, events) {
      forall k | 0 <= k <= |events| ensures ConsumerRight(states, events, k) {
        LosslessReplay(states, events, k);
      }
    }
    if forall k :: 0 <= k <= |events| ==> ConsumerRight(states, events, k) {
      forall i, n | 0 <= i < |events| ensures !LostAt(states[i], events[i], n) {
        assert ConsumerRight(states, events, i) && ConsumerRight(states, events, i + 1);
        assert Step(states[i], events[i], states[i + 1]);
        StepReplay(states[i], events[i], states[i + 1]);
      }
    }
  }

  lemma {:induction false} LosslessReplay(states: seq<Rib>, events: seq<Event>, k: nat)
    requires Run(states, events) && LosesNothing(states, events) && k <= |events|
    ensures ConsumerRight(states, events, k)
  {
    if k > 0 {
      LosslessReplay(states, events, k - 1);
      assert Step(states[k - 1], events[k - 1], states[k]);
      StepReplay(states[k - 1], events[k - 1], states[k]);
    }
  }

  // ---------- the case that loses one ----------

  const EMPTY := Rib(map[], map[])

  /** The table that holds one route, and it is the best. */
  function Lone(peer: PeerId, route: Route): Rib {
    Rib(map[(route.nlri, peer) := route], map[route.nlri := peer])
  }

  lemma InsertAlone(peer: PeerId, route: Route, o: Oracle)
    requires Reachable(route, o)
    ensures Step(EMPTY, Event(InsertOp(peer, route), o, [Announced(route.nlri, route)]), Lone(peer, route))
  {
    var r := Lone(peer, route);
    LoneBest(r, route.nlri, peer, o);
    assert r.best - {route.nlri} == EMPTY.best - {route.nlri};
  }

  lemma ReplaceAlone(peer: PeerId, first: Route, second: Route, o: Oracle)
    requires first.nlri == second.nlri && Reachable(second, o)
    ensures Step(Lone(peer, first), Event(InsertOp(peer, second), o, [Announced(second.nlri, second)]), Lone(peer, second))
  {
    var n, r, r' := first.nlri, Lone(peer, first), Lone(peer, second);
    LoneBest(r', n, peer, o);
    assert r'.candidates == r.candidates[(n, peer) := second];
  }

  lemma WithdrawAlone(peer: PeerId, route: Route, o: Oracle)
    ensures Step(Lone(peer, route), Event(WithdrawOp(peer, route.nlri), o, [Withdrawn(route.nlri)]), EMPTY)
    ensures Step(Lone(peer, route), Event(WithdrawPeerOp(peer), o, [Withdrawn(route.nlri)]), EMPTY)
  {
    var n, r := route.nlri, Lone(peer, route);
    NoneReachable(EMPTY.candidates, n, o);
    assert r.candidates - {(n, peer)} == EMPTY.candidates && r.best - {n} == EMPTY.best - {n};
    assert WithdrawStep(r, peer, n, o, EMPTY, Withdrawn(n));
    assert (n, peer) in r.candidates;
    assert PrefixesOf(r, peer) == {n};
    assert IsListing([n], PrefixesOf(r, peer));
    assert WithdrawChain(peer, o, [n], [r, EMPTY], [Withdrawn(n)]);
    assert [r, EMPTY][0] == r && [r, EMPTY][1] == EMPTY;
  }

  /**
   A lone best route is replaced by its own peer with a route whose next hop is
   unreachable: the table has no best route left, and the consumer is not told.
   */
  lemma LostWithdrawalExists(o: Oracle, peer: PeerId, good: Route, bad: Route)
    requires Reachable(good, o) && !Reachable(bad, o) && good.nlri == bad.nlri
    ensures var n := good.nlri;
            var states := [EMPTY, Lone(peer, good), Rib(map[(n, peer) := bad], map[])];
            var events := [Event(InsertOp(peer, good), o, [Announced(n, good)]),
                           Event(InsertOp(peer, bad), o, [Unchanged])];
            && Run(states, events)
            && BestRoutes(states[2]) == map[]
            && Replay(map[], events, 2) == map[n := good]
  {
    var n := good.nlri;
    var r, r' := Lone(peer, good), Rib(map[(n, peer) := bad], map[]);
    var e, e' := Event(InsertOp(peer, good), o, [Announced(n, good)]), Event(InsertOp(peer, bad), o, [Unchanged]);
    InsertAlone(peer, good, o);
    NoneReachable(r'.candidates, n, o);
    assert r'.best - {n} == r.best - {n};
    assert r'.candidates == r.candidates[(n, peer) := bad];
    assert Step(r, e', r');
    ReplayTwo(e, e', map[]);
    ApplyAllOne(map[], Announced(n, good));
    ApplyAllOne(map[n := good], Unchanged);
  }

  lemma ReplayTwo(e: Event, e': Event, fib: map<Nlri, Route>)
    ensures Replay(fib, [e, e'], 2) == ApplyAll(ApplyAll(fib, e.changes), e'.changes)
  {
    assert Replay(fib, [e, e'], 1) == ApplyAll(Replay(fib, [e, e'], 0), e.changes);
  }

  // ---------- the winners ----------

  lemma StepStaysUpToDate(r: Rib, e: Event, r': Rib)
    requires Step(r, e, r') && UpToDate(r, e.oracle)
    ensures UpToDate(r', e.oracle)
  {
    forall n | n in r.best ensures (n, r.best[n]) in r.candidates { assert BestFor(r, n, e.oracle); }
    forall n ensures BestFor(r', n, e.oracle) {
      assert BestFor(r, n, e.oracle);
      StepSelects(r, e, r', n);
      if SameAt(r, r', n) { SameAtKeepsBest(r, r', n, e.oracle); }
    }
  }

  lemma RunStepStays(states: seq<Rib>, events: seq<Event>, k: nat)
    requires Run(states, events) && k < |events| && UpToDate(states[k], events[k].oracle)
    ensures UpToDate(states[k + 1], events[k].oracle)
  {
    StepStaysUpToDate(states[k], events[k], states[k + 1]);
  }

  /** Under one oracle every run keeps every prefix's winner an outcome of selection. */
  lemma {:induction false} RunStaysUpToDate(states: seq<Rib>, events: seq<Event>, o: Oracle, k: nat)
    requires Run(states, events) && k <= |events|
    requires forall i :: 0 <= i < |events| ==> events[i].oracle == o
    requires UpToDate(states[0], o)
    ensures UpToDate(states[k], o)
  {
    if k > 0 {
      RunStaysUpToDate(states, events, o, k - 1);
      RunStepStays(states, events, k - 1);
    }
  }

  /** How the candidates arrived does not matter: equal candidates, equal winners. */
  lemma HistoryDoesNotMatter(r: Rib, r': Rib, o: Oracle)
    requires UpToDate(r, o) && UpToDate(r', o) && r.candidates == r'.candidates
    requires forall n :: Comparable(ReachableFor(r.candidates, n, o), o)
    ensures r == r'
  {
    forall n ensures (n in r.best <==> n in r'.best) && (n in r.best ==> r.best[n] == r'.best[n]) {
      assert BestFor(r, n, o) && BestFor(r', n, o);
      var m := r.candidates;
      if n in r.best {
        SelectedIsSurvivor(CandidatesFor(m, n), o, Some(Candidate(r.best[n], m[(n, r.best[n])])));
      }
      if n in r'.best {
        SelectedIsSurvivor(CandidatesFor(m, n), o, Some(Candidate(r'.best[n], m[(n, r'.best[n])])));
      }
      assert Comparable(ReachableFor(m, n, o), o);
    }
    assert r.best.Keys == r'.best.Keys;
  }
}
