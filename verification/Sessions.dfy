/**
 One session from end to end: the routing table changes, rounds of decisions are taken,
 announcements to an external peer are paced, decisions wait in a buffer, and flushes send
 them. What the peer then holds is compared with what our table says it should.
 */
module Sessions {
  import opened Types
  import opened Bytes
  import opened BestPath
  import opened Policies
  import opened Outbound
  import L = LocRib
  import R = LocRibRuns
  import A = AdjRibOut
  import P = Propagation
  import F = Flush

  /** Seconds between two announcements of one prefix to one external peer. */
  const MRAI: nat := 30

  /** Our table for the peer, the decisions not yet sent, the pacing state, and the peer's own table. */
  datatype Link = Link(
    table: A.Table,
    buffer: seq<A.PrefixDecision>,
    lastSent: map<Nlri, nat>,
    pending: set<Nlri>,
    remote: F.Remote)

  const FRESH := Link(map[], [], map[], {}, map[])

  /** The interval since the last announcement of `n` is over; a clock running backwards counts as zero. */
  predicate Due(lastSent: map<Nlri, nat>, n: Nlri, now: nat) {
    n !in lastSent || now >= lastSent[n] + MRAI
  }

  // ---------- pacing ----------

  /** The decisions let through, and the pacing state after them. */
  datatype Paced = Paced(kept: seq<A.PrefixDecision>, lastSent: map<Nlri, nat>, pending: set<Nlri>)

  function PaceOne(d: A.PrefixDecision, lastSent: map<Nlri, nat>, pending: set<Nlri>, now: nat): Paced {
    match d
    case Announce(r) =>
      if Due(lastSent, r.nlri, now) then Paced([d], lastSent[r.nlri := now], pending - {r.nlri})
      else Paced([A.NoChange], lastSent, pending + {r.nlri})
    case WithdrawPrefix(n) => Paced([d], lastSent - {n}, pending - {n})
    case NoChange => Paced([d], lastSent, pending)
  }

  function PaceAll(ds: seq<A.PrefixDecision>, lastSent: map<Nlri, nat>, pending: set<Nlri>, now: nat): Paced
    decreases ds
  {
    if ds == [] then Paced([], lastSent, pending)
    else
      var p := PaceOne(ds[0], lastSent, pending, now);
      var q := PaceAll(ds[1..], p.lastSent, p.pending, now);
      q.(kept := p.kept + q.kept)
  }

  lemma {:induction false} PaceNone(ds: seq<A.PrefixDecision>, lastSent: map<Nlri, nat>, pending: set<Nlri>, now: nat, n: Nlri)
    requires F.Naming(ds, n) == []
    ensures F.Naming(PaceAll(ds, lastSent, pending, now).kept, n) == []
    decreases ds
  {
    if ds != [] {
      var p := PaceOne(ds[0], lastSent, pending, now);
      PaceNone(ds[1..], p.lastSent, p.pending, now, n);
      F.NamingAppend(p.kept, PaceAll(ds[1..], p.lastSent, p.pending, now).kept, n);
      NamingOne(p.kept[0], n);
    }
  }

  lemma NamingOne(d: A.PrefixDecision, n: Nlri)
    ensures F.Naming([d], n) == if F.Names(d, n) then [d] else []
  {
    assert [d][1..] == [];
  }

  /** The one decision about a prefix is held back exactly when it is an announcement that comes too soon. */
  lemma {:induction false} PaceAt(ds: seq<A.PrefixDecision>, lastSent: map<Nlri, nat>, pending: set<Nlri>, now: nat, n: Nlri)
    requires |F.Naming(ds, n)| <= 1
    ensures var named := F.Naming(ds, n);
      F.Naming(PaceAll(ds, lastSent, pending, now).kept, n)
        == if named != [] && named[0].Announce? && !Due(lastSent, n, now) then [] else named
    decreases ds
  {
    if ds != [] {
      var p := PaceOne(ds[0], lastSent, pending, now);
      PaceHead(ds[0], lastSent, pending, now, n);
      F.NamingAppend(p.kept, PaceAll(ds[1..], p.lastSent, p.pending, now).kept, n);
      if F.Names(ds[0], n) {
        assert F.Naming(ds, n)[1..] == F.Naming(ds[1..], n);
        PaceNone(ds[1..], p.lastSent, p.pending, now, n);
      } else {
        PaceAt(ds[1..], p.lastSent, p.pending, now, n);
      }
    }
  }

  lemma PaceHead(d: A.PrefixDecision, lastSent: map<Nlri, nat>, pending: set<Nlri>, now: nat, n: Nlri)
    ensures var p := PaceOne(d, lastSent, pending, now);
      && F.Naming(p.kept, n) == (if F.Names(d, n) && !(d.Announce? && !Due(lastSent, n, now)) then [d] else [])
      && (!F.Names(d, n) ==> (Due(p.lastSent, n, now) <==> Due(lastSent, n, now)))
  {
    NamingOne(PaceOne(d, lastSent, pending, now).kept[0], n);
  }

  // ---------- rounds and flushes ----------

  /** Prefixes propagated after a change, whether the guard is checked, and whether the buffer is bypassed. */
  datatype Round = Round(nlris: seq<Nlri>, checks: bool, direct: bool, now: nat)

  function Enqueued(l: Link, ds: seq<A.PrefixDecision>, external: bool, now: nat): Link {
    if external then
      var p := PaceAll(ds, l.lastSent, l.pending, now);
      l.(buffer := l.buffer + p.kept, lastSent := p.lastSent, pending := p.pending)
    else l.(buffer := l.buffer + ds)
  }

  function TableAfter(l: Link, r: L.Rib, round: Round, s: P.Session): A.Table {
    P.PropagateAll(l.table, r, round.nlris, s, round.checks)
  }

  /** One round of propagation on this session. */
  function Advance(l: Link, r: L.Rib, round: Round, s: P.Session): Link {
    var ds := P.Decisions(l.table, r, round.nlris, s, round.checks);
    var l' := l.(table := TableAfter(l, r, round, s));
    if round.direct then l'.(remote := F.Deliver(l.remote, ds, s.peerType))
    else Enqueued(l', ds, s.peerType.External?, round.now)
  }

  function Drained(l: Link, s: P.Session): Link {
    l.(remote := F.Deliver(l.remote, l.buffer, s.peerType), buffer := [])
  }

  /** The pacing state and the buffer of one session. */
  class Outbox {
    var buffer: seq<A.PrefixDecision>
    var lastSent: map<Nlri, nat>
    var pending: set<Nlri>

    constructor ()
      ensures LinkWith(map[], map[]) == FRESH
    {
      buffer, lastSent, pending := [], map[], {};
    }

    ghost function LinkWith(table: A.Table, remote: F.Remote): Link
      reads this
    {
      Link(table, buffer, lastSent, pending, remote)
    }

    /** Lets one decision through or holds it back. */
    method PaceDecision(d: A.PrefixDecision, now: nat) returns (kept: A.PrefixDecision)
      modifies this`lastSent, this`pending
      ensures Paced([kept], lastSent, pending) == PaceOne(d, old(lastSent), old(pending), now)
    {
      kept := d;
      match d {
        case Announce(route) =>
          var n := route.nlri;
          if n !in lastSent || now >= lastSent[n] + MRAI {
            lastSent, pending := lastSent[n := now], pending - {n};
          } else {
            pending := pending + {n};
            kept := A.NoChange;
          }
        case WithdrawPrefix(n) =>
          lastSent, pending := lastSent - {n}, pending - {n};
        case NoChange =>
      }
    }

    /** Paces the decisions of a round and appends them to the buffer. */
    method Enqueue(ds: seq<A.PrefixDecision>, external: bool, now: nat, ghost table: A.Table, ghost remote: F.Remote)
      modifies this
      ensures LinkWith(table, remote) == Enqueued(old(LinkWith(table, remote)), ds, external, now)
    {
      if !external {
        buffer := buffer + ds;
        return;
      }
      ghost var all := PaceAll(ds, lastSent, pending, now);
      ghost var kept: seq<A.PrefixDecision> := [];
      assert ds[0..] == ds;
      for i := 0 to |ds|
        invariant buffer == old(buffer) + kept
        invariant PacedSoFar(ds[i..], lastSent, pending, now, kept, all)
      {
        assert ds[i..][0] == ds[i] && ds[i..][1..] == ds[i + 1..];
        PacedStep(ds[i..], lastSent, pending, now, kept, all);
        var d := PaceDecision(ds[i], now);
        Associate(old(buffer), kept, [d]);
        buffer, kept := buffer + [d], kept + [d];
      }
    }

    /** Sends everything buffered. */
    method FlushPending(s: P.Session, maxLen: nat, attrLen: F.Attrs -> nat, ghost table: A.Table, ghost remote: F.Remote)
      returns (msgs: seq<F.Message>)
      modifies this`buffer
      ensures LinkWith(table, F.ReceiveMessages(remote, msgs)) == Drained(old(LinkWith(table, remote)), s)
    {
      msgs := F.FlushUpdates(buffer, s.peerType, maxLen, attrLen, remote);
      buffer := [];
    }
  }

  /** What was let through, followed by what pacing the rest lets through, is all of it. */
  ghost predicate PacedSoFar(rest: seq<A.PrefixDecision>, lastSent: map<Nlri, nat>, pending: set<Nlri>, now: nat,
                             kept: seq<A.PrefixDecision>, all: Paced) {
    var q := PaceAll(rest, lastSent, pending, now);
    all == Paced(kept + q.kept, q.lastSent, q.pending)
  }

  lemma PacedStep(rest: seq<A.PrefixDecision>, lastSent: map<Nlri, nat>, pending: set<Nlri>, now: nat,
                  kept: seq<A.PrefixDecision>, all: Paced)
    requires rest != [] && PacedSoFar(rest, lastSent, pending, now, kept, all)
    ensures var p := PaceOne(rest[0], lastSent, pending, now);
      PacedSoFar(rest[1..], p.lastSent, p.pending, now, kept + p.kept, all)
  {
    var p := PaceOne(rest[0], lastSent, pending, now);
    Associate(kept, p.kept, PaceAll(rest[1..], p.lastSent, p.pending, now).kept);
  }

  // ---------- one round, seen from one prefix ----------

  lemma OfferedFiled(r: L.Rib, n: Nlri, s: P.Session)
    requires L.FiledByPrefix(r.candidates)
    ensures P.Offered(r, n, s).Some? ==> P.Offered(r, n, s).value.nlri == n
  {
    var v := P.ViewAt(r, n, s);
    if v.best.Some? { StoredIsPrepared(v.best.value, s.peerType, s.speaker, s.terms, s.default); }
  }

  /** The prefix is listed, not skipped, and gets something else than it had. */
  predicate Affected(t: A.Table, r: L.Rib, ns: seq<Nlri>, s: P.Session, checks: bool, n: Nlri) {
    n in ns && !(checks && P.Guarded(r, n, s)) && A.Lookup(t, n) != P.Offered(r, n, s)
  }

  /** A round decides on a prefix at most once, even if it is listed twice. */
  lemma {:induction false} DecisionsAt(t: A.Table, r: L.Rib, ns: seq<Nlri>, s: P.Session, checks: bool, n: Nlri)
    requires L.FiledByPrefix(r.candidates)
    ensures F.Naming(P.Decisions(t, r, ns, s, checks), n)
         == if Affected(t, r, ns, s, checks, n) then [A.MessageTo(t, n, P.Offered(r, n, s))] else []
    decreases ns
  {
    if ns != [] {
      var m := ns[0];
      var d, t' := P.DecisionFor(t, r, m, s, checks), P.PropagateOne(t, r, m, s, checks);
      assert ns == [m] + ns[1..];
      DecisionStep(t, r, m, s, checks, n);
      DecisionsAt(t', r, ns[1..], s, checks, n);
      F.NamingAppend([d], P.Decisions(t', r, ns[1..], s, checks), n);
    }
  }

  lemma DecisionStep(t: A.Table, r: L.Rib, m: Nlri, s: P.Session, checks: bool, n: Nlri)
    requires L.FiledByPrefix(r.candidates)
    ensures var d, t' := P.DecisionFor(t, r, m, s, checks), P.PropagateOne(t, r, m, s, checks);
      && F.Naming([d], n) == (if Affected(t, r, [m], s, checks, n) then [A.MessageTo(t, n, P.Offered(r, n, s))] else [])
      && A.Lookup(t', n) == if Affected(t, r, [m], s, checks, n) then P.Offered(r, n, s) else A.Lookup(t, n)
  {
    OfferedFiled(r, m, s);
    NamingOne(P.DecisionFor(t, r, m, s, checks), n);
  }

  function WireAt(t: A.Table, n: Nlri, peerType: PeerType): Option<F.Attrs> {
    if n in t then Some(F.AttributesOf(t[n], peerType)) else None
  }

  /** The peer would hold what our table says, were the buffer delivered in the order it was filled. */
  predicate OnTrackAt(l: Link, s: P.Session, n: Nlri) {
    F.InOrderAt(F.At(l.remote, n), l.buffer, n, s.peerType) == WireAt(l.table, n, s.peerType)
  }

  ghost predicate OnTrack(l: Link, s: P.Session) {
    forall n :: OnTrackAt(l, s, n)
  }

  /**
   A round that changes what the peer should see of `n` gets it across: a direct one finds
   nothing buffered about `n`, and a buffered announcement to an external peer is not too soon.
   */
  predicate CleanAt(l: Link, r: L.Rib, round: Round, s: P.Session, n: Nlri) {
    var after := WireAt(TableAfter(l, r, round, s), n, s.peerType);
    after != WireAt(l.table, n, s.peerType) ==>
      if round.direct then F.Naming(l.buffer, n) == []
      else !(s.peerType.External? && after.Some? && !Due(l.lastSent, n, round.now))
  }

  lemma TableAt(l: Link, r: L.Rib, round: Round, s: P.Session, n: Nlri)
    ensures A.Lookup(TableAfter(l, r, round, s), n)
         == if Affected(l.table, r, round.nlris, s, round.checks, n) then P.Offered(r, n, s) else A.Lookup(l.table, n)
  {
    P.PropagateAllAt(l.table, r, round.nlris, s, round.checks, n);
  }

  /** What the decision about an affected prefix tells the peer is what our table then holds. */
  lemma MessageValue(l: Link, r: L.Rib, round: Round, s: P.Session, n: Nlri)
    requires Affected(l.table, r, round.nlris, s, round.checks, n)
    ensures var d := A.MessageTo(l.table, n, P.Offered(r, n, s));
      && F.ValueOf(d, s.peerType) == WireAt(TableAfter(l, r, round, s), n, s.peerType)
      && (d.Announce? <==> P.Offered(r, n, s).Some?)
  {
    TableAt(l, r, round, s, n);
  }

  lemma DirectRoundAt(l: Link, r: L.Rib, round: Round, s: P.Session, n: Nlri)
    requires L.FiledByPrefix(r.candidates) && OnTrackAt(l, s, n) && round.direct
    ensures OnTrackAt(Advance(l, r, round, s), s, n) <==> CleanAt(l, r, round, s, n)
  {
    var ds := P.Decisions(l.table, r, round.nlris, s, round.checks);
    var v := F.At(l.remote, n);
    DecisionsAt(l.table, r, round.nlris, s, round.checks, n);
    TableAt(l, r, round, s, n);
    F.DeliverIsPointwise(l.remote, ds, n, s.peerType);
    F.OnceIsHarmless(ds, n, s.peerType);
    F.OrderSurvivesIff(v, ds, n, s.peerType);
    if Affected(l.table, r, round.nlris, s, round.checks, n) { MessageValue(l, r, round, s, n); }
  }

  lemma BufferedRoundAt(l: Link, r: L.Rib, round: Round, s: P.Session, n: Nlri)
    requires L.FiledByPrefix(r.candidates) && OnTrackAt(l, s, n) && !round.direct
    ensures OnTrackAt(Advance(l, r, round, s), s, n) <==> CleanAt(l, r, round, s, n)
  {
    var added := AddedAt(l, r, round, s, n);
    F.InOrderAppend(F.At(l.remote, n), l.buffer, added, n, s.peerType);
    TableAt(l, r, round, s, n);
    if Affected(l.table, r, round.nlris, s, round.checks, n) { MessageValue(l, r, round, s, n); }
  }

  /** What a buffered round adds to the buffer about one prefix. */
  lemma AddedAt(l: Link, r: L.Rib, round: Round, s: P.Session, n: Nlri) returns (added: seq<A.PrefixDecision>)
    requires L.FiledByPrefix(r.candidates) && !round.direct
    ensures Advance(l, r, round, s).buffer == l.buffer + added
    ensures F.Naming(added, n)
         == if Affected(l.table, r, round.nlris, s, round.checks, n)
               && !(s.peerType.External? && P.Offered(r, n, s).Some? && !Due(l.lastSent, n, round.now))
            then [A.MessageTo(l.table, n, P.Offered(r, n, s))] else []
  {
    var ds := P.Decisions(l.table, r, round.nlris, s, round.checks);
    DecisionsAt(l.table, r, round.nlris, s, round.checks, n);
    added := if s.peerType.External? then PaceAll(ds, l.lastSent, l.pending, round.now).kept else ds;
    PaceAt(ds, l.lastSent, l.pending, round.now, n);
  }

  /** A flush keeps the peer on track about a prefix exactly when the order of its decisions survives. */
  lemma DrainAt(l: Link, s: P.Session, n: Nlri)
    requires OnTrackAt(l, s, n)
    ensures OnTrackAt(Drained(l, s), s, n) <==> F.Harmless(l.buffer, n, s.peerType)
  {
    F.DeliverIsPointwise(l.remote, l.buffer, n, s.peerType);
    F.OrderSurvivesIff(F.At(l.remote, n), l.buffer, n, s.peerType);
  }

  // ---------- whole runs ----------

  /**
   The routing table changes and a round follows; the buffer is flushed; or the interval
   timer propagates prefixes again, its own pending ones or those of another session.
   */
  datatype Event =
    | Routing(event: R.Event, round: Round)
    | Drain
    | Interval(nlris: seq<Nlri>, own: bool, now: nat)

  function IntervalRound(ev: Event): Round
    requires ev.Interval?
  {
    Round(ev.nlris, true, false, ev.now)
  }

  function Unpended(l: Link, ev: Event): Link
    requires ev.Interval?
  {
    if ev.own then l.(pending := l.pending - (set n | n in ev.nlris)) else l
  }

  ghost predicate Step(r: L.Rib, l: Link, ev: Event, r': L.Rib, l': Link, s: P.Session) {
    match ev
    case Routing(e, round) => R.Step(r, e, r') && P.Covers(round.nlris, r, e, r') && l' == Advance(l, r', round, s)
    case Drain => r' == r && l' == Drained(l, s)
    case Interval(ns, own, now) =>
      && r' == r && (own ==> forall n :: n in ns <==> n in l.pending && Due(l.lastSent, n, now))
      && l' == Advance(Unpended(l, ev), r, IntervalRound(ev), s)
  }

  ghost predicate Run(states: seq<L.Rib>, links: seq<Link>, events: seq<Event>, s: P.Session) {
    && |states| == |links| == |events| + 1 && L.FiledByPrefix(states[0].candidates)
    && forall i :: 0 <= i < |events| ==> Step(states[i], links[i], events[i], states[i + 1], links[i + 1], s)
  }

  /** Nothing the peer should see is lost by this event. */
  ghost predicate Clean(l: Link, ev: Event, r': L.Rib, s: P.Session) {
    match ev
    case Routing(_, round) => forall n :: CleanAt(l, r', round, s, n)
    case Drain => forall n :: F.Harmless(l.buffer, n, s.peerType)
    case Interval(_, _, _) => forall n :: CleanAt(Unpended(l, ev), r', IntervalRound(ev), s, n)
  }

  lemma StepKeepsFiled(r: L.Rib, l: Link, ev: Event, r': L.Rib, l': Link, s: P.Session)
    requires Step(r, l, ev, r', l', s) && L.FiledByPrefix(r.candidates)
    ensures L.FiledByPrefix(r'.candidates)
  {
    if ev.Routing? {
      var e := ev.event;
      match e.op {
        case InsertOp(_, _) =>
        case WithdrawOp(_, _) =>
        case WithdrawPeerOp(p) => L.WithdrawPeerCandidates(r, p, e.oracle, r', e.changes);
        case RecomputeOp =>
          forall k | k in r'.candidates ensures r'.candidates[k].nlri == k.0 {
            L.RecomputeAt(r, e.oracle, r', e.changes, k.0);
            assert k == (k.0, k.1);
          }
      }
    }
  }

  lemma {:induction false} RunKeepsFiled(states: seq<L.Rib>, links: seq<Link>, events: seq<Event>, s: P.Session, k: nat)
    requires Run(states, links, events, s) && k <= |events|
    ensures L.FiledByPrefix(states[k].candidates)
  {
    if k > 0 {
      RunKeepsFiled(states, links, events, s, k - 1);
      StepKeepsFiled(states[k - 1], links[k - 1], events[k - 1], states[k], links[k], s);
    }
  }

  lemma RoundStaysOnTrack(l: Link, r: L.Rib, round: Round, s: P.Session)
    requires L.FiledByPrefix(r.candidates) && OnTrack(l, s)
    ensures OnTrack(Advance(l, r, round, s), s) <==> forall n :: CleanAt(l, r, round, s, n)
  {
    forall n ensures OnTrackAt(Advance(l, r, round, s), s, n) <==> CleanAt(l, r, round, s, n) {
      assert OnTrackAt(l, s, n);
      if round.direct { DirectRoundAt(l, r, round, s, n); } else { BufferedRoundAt(l, r, round, s, n); }
    }
  }

  /** One event keeps the peer on track exactly when it is clean. */
  lemma StepStaysOnTrack(r: L.Rib, l: Link, ev: Event, r': L.Rib, l': Link, s: P.Session)
    requires Step(r, l, ev, r', l', s) && L.FiledByPrefix(r'.candidates) && OnTrack(l, s)
    ensures OnTrack(l', s) <==> Clean(l, ev, r', s)
  {
    match ev {
      case Routing(e, round) => RoundStaysOnTrack(l, r', round, s);
      case Drain =>
        forall n ensures OnTrackAt(l', s, n) <==> F.Harmless(l.buffer, n, s.peerType) {
          assert OnTrackAt(l, s, n);
          DrainAt(l, s, n);
        }
      case Interval(ns, own, now) =>
        forall n ensures OnTrackAt(Unpended(l, ev), s, n) { assert OnTrackAt(l, s, n); }
        RoundStaysOnTrack(Unpended(l, ev), r', IntervalRound(ev), s);
    }
  }

  lemma RunStep(states: seq<L.Rib>, links: seq<Link>, events: seq<Event>, s: P.Session, i: nat)
    requires Run(states, links, events, s) && i < |events| && OnTrack(links[i], s)
    ensures OnTrack(links[i + 1], s) <==> Clean(links[i], events[i], states[i + 1], s)
  {
    RunKeepsFiled(states, links, events, s, i + 1);
    StepStaysOnTrack(states[i], links[i], events[i], states[i + 1], links[i + 1], s);
  }

  lemma {:induction false} CleanRun(states: seq<L.Rib>, links: seq<Link>, events: seq<Event>, s: P.Session, k: nat)
    requires Run(states, links, events, s) && OnTrack(links[0], s) && k <= |events|
    requires forall i :: 0 <= i < |events| ==> Clean(links[i], events[i], states[i + 1], s)
    ensures OnTrack(links[k], s)
  {
    if k > 0 {
      CleanRun(states, links, events, s, k - 1);
      RunStep(states, links, events, s, k - 1);
    }
  }

  /**
   The peer is on track at every point of a run if and only if every event of it is clean:
   nothing overtakes the buffer, no announcement comes too soon, and no flush loses an order.
   */
  lemma OnTrackIffClean(states: seq<L.Rib>, links: seq<Link>, events: seq<Event>, s: P.Session)
    requires Run(states, links, events, s) && OnTrack(links[0], s)
    ensures (forall k :: 0 <= k <= |events| ==> OnTrack(links[k], s))
       <==> (forall i :: 0 <= i < |events| ==> Clean(links[i], events[i], states[i + 1], s))
  {
    if forall i :: 0 <= i < |events| ==> Clean(links[i], events[i], states[i + 1], s) {
      forall k | 0 <= k <= |events| ensures OnTrack(links[k], s) { CleanRun(states, links, events, s, k); }
    }
    if forall k :: 0 <= k <= |events| ==> OnTrack(links[k], s) {
      forall i | 0 <= i < |events| ensures Clean(links[i], events[i], states[i + 1], s) {
        assert OnTrack(links[i], s) && OnTrack(links[i + 1], s);
        RunStep(states, links, events, s, i);
      }
    }
  }

  /** Nothing buffered is about any prefix. */
  ghost predicate Quiet(l: Link) {
    forall n :: F.Naming(l.buffer, n) == []
  }

  /** With nothing buffered, being on track is holding our table. */
  lemma QuietMeansEqual(l: Link, s: P.Session)
    requires Quiet(l)
    ensures OnTrack(l, s) <==> forall n :: F.At(l.remote, n) == WireAt(l.table, n, s.peerType)
  {
    forall n ensures OnTrackAt(l, s, n) <==> F.At(l.remote, n) == WireAt(l.table, n, s.peerType) {
      assert F.Naming(l.buffer, n) == [];
    }
  }

  // ---------- the table, and the interval timer ----------

  /** The reflector's guard can never fire on this session. */
  predicate Unguarded(s: P.Session) {
    s.peering.clients == {} || !s.peerType.Internal? || s.peer in s.peering.clients
  }

  ghost predicate AllUnchanged(ds: seq<A.PrefixDecision>) {
    forall i :: 0 <= i < |ds| ==> ds[i] == A.NoChange
  }

  /** Propagating prefixes our table is already right about changes nothing. */
  lemma {:induction false} RepeatedRound(t: A.Table, r: L.Rib, ns: seq<Nlri>, s: P.Session)
    requires P.InSync(t, r, s) && Unguarded(s)
    ensures P.PropagateAll(t, r, ns, s, true) == t
    ensures AllUnchanged(P.Decisions(t, r, ns, s, true))
    decreases ns
  {
    if ns != [] {
      var n := ns[0];
      assert A.Lookup(t, n) == P.Export(r, n, s);
      if n !in t { assert t - {n} == t; }
      assert P.PropagateOne(t, r, n, s, true) == t;
      RepeatedRound(t, r, ns[1..], s);
    }
  }

  lemma {:induction false} PaceNothing(ds: seq<A.PrefixDecision>, lastSent: map<Nlri, nat>, pending: set<Nlri>, now: nat)
    requires AllUnchanged(ds)
    ensures PaceAll(ds, lastSent, pending, now) == Paced(ds, lastSent, pending)
    decreases ds
  {
    if ds != [] {
      PaceNothing(ds[1..], lastSent, pending, now);
      assert ds[0] == A.NoChange && [ds[0]] + ds[1..] == ds;
    }
  }

  lemma {:induction false} NothingNamed(ds: seq<A.PrefixDecision>, n: Nlri)
    requires AllUnchanged(ds)
    ensures F.Naming(ds, n) == []
  {
    if ds != [] {
      assert ds[0] == A.NoChange;
      NothingNamed(ds[1..], n);
    }
  }

  /**
   The timer sends nothing: an announcement that was held back is in our table already, so
   propagating its prefix again finds no change. Only the pending set shrinks.
   */
  lemma IntervalSendsNothing(r: L.Rib, l: Link, ev: Event, r': L.Rib, l': Link, s: P.Session)
    requires Step(r, l, ev, r', l', s) && ev.Interval? && P.InSync(l.table, r, s) && Unguarded(s)
    ensures l'.table == l.table && l'.remote == l.remote && l'.lastSent == l.lastSent
    ensures l'.pending == Unpended(l, ev).pending
    ensures forall n :: F.Naming(l'.buffer, n) == F.Naming(l.buffer, n)
  {
    RepeatedAdvance(Unpended(l, ev), r, IntervalRound(ev), s);
  }

  lemma RepeatedAdvance(l: Link, r: L.Rib, round: Round, s: P.Session)
    requires P.InSync(l.table, r, s) && Unguarded(s) && round.checks && !round.direct
    ensures var l' := Advance(l, r, round, s);
      && l' == l.(buffer := l'.buffer)
      && forall n :: F.Naming(l'.buffer, n) == F.Naming(l.buffer, n)
  {
    var ds := P.Decisions(l.table, r, round.nlris, s, true);
    RepeatedRound(l.table, r, round.nlris, s);
    PaceNothing(ds, l.lastSent, l.pending, round.now);
    assert Advance(l, r, round, s).buffer == l.buffer + ds;
    forall n ensures F.Naming(l.buffer + ds, n) == F.Naming(l.buffer, n) {
      NothingNamed(ds, n);
      F.NamingAppend(l.buffer, ds, n);
    }
  }

  lemma StepTableInSync(r: L.Rib, l: Link, ev: Event, r': L.Rib, l': Link, s: P.Session)
    requires Step(r, l, ev, r', l', s) && P.InSync(l.table, r, s) && Unguarded(s)
    ensures P.InSync(l'.table, r', s)
  {
    match ev {
      case Routing(e, round) => P.StepStaysInSync(l.table, r, e, r', round.nlris, s, round.checks);
      case Drain =>
      case Interval(_, _, _) => IntervalSendsNothing(r, l, ev, r', l', s);
    }
  }

  lemma RunStepTable(states: seq<L.Rib>, links: seq<Link>, events: seq<Event>, s: P.Session, i: nat)
    requires Run(states, links, events, s) && i < |events| && P.InSync(links[i].table, states[i], s) && Unguarded(s)
    ensures P.InSync(links[i + 1].table, states[i + 1], s)
  {
    StepTableInSync(states[i], links[i], events[i], states[i + 1], links[i + 1], s);
  }

  /** On such a session our table is the exported view of the best routes at every point of a run. */
  lemma {:induction false} TableInSync(states: seq<L.Rib>, links: seq<Link>, events: seq<Event>, s: P.Session, k: nat)
    requires Run(states, links, events, s) && P.InSync(links[0].table, states[0], s) && Unguarded(s) && k <= |events|
    ensures P.InSync(links[k].table, states[k], s)
  {
    if k > 0 {
      TableInSync(states, links, events, s, k - 1);
      RunStepTable(states, links, events, s, k - 1);
    }
  }

  /** The attributes a peer should see of a prefix. */
  function ExportedAt(r: L.Rib, n: Nlri, s: P.Session): Option<F.Attrs> {
    match P.Export(r, n, s) case Some(route) => Some(F.AttributesOf(route, s.peerType)) case None => None
  }

  /**
   From the routing table to the peer: in a run whose events are all clean, the peer holds,
   whenever nothing is buffered, the attributes of exactly what it should see of every prefix.
   */
  lemma PeerHoldsExports(states: seq<L.Rib>, links: seq<Link>, events: seq<Event>, s: P.Session, k: nat, n: Nlri)
    requires Run(states, links, events, s) && Unguarded(s) && k <= |events|
    requires P.InSync(links[0].table, states[0], s) && OnTrack(links[0], s)
    requires forall i :: 0 <= i < |events| ==> Clean(links[i], events[i], states[i + 1], s)
    requires Quiet(links[k])
    ensures F.At(links[k].remote, n) == ExportedAt(states[k], n, s)
  {
    TableInSync(states, links, events, s, k);
    CleanRun(states, links, events, s, k);
    QuietMeansEqual(links[k], s);
    assert A.Lookup(links[k].table, n) == P.Export(states[k], n, s);
  }

  // ---------- what goes wrong stays wrong ----------

  /** The event gives our table something else for `n`, or loses an order about it. */
  predicate Touches(l: Link, ev: Event, l': Link, n: Nlri) {
    A.Lookup(l'.table, n) != A.Lookup(l.table, n) || (ev.Drain? && F.Naming(l.buffer, n) != [])
  }

  /** A peer that is off track about a prefix stays so until the prefix changes or is flushed. */
  lemma OffTrackStays(r: L.Rib, l: Link, ev: Event, r': L.Rib, l': Link, s: P.Session, n: Nlri)
    requires Step(r, l, ev, r', l', s) && L.FiledByPrefix(r'.candidates)
    requires !OnTrackAt(l, s, n) && !Touches(l, ev, l', n)
    ensures !OnTrackAt(l', s, n)
  {
    match ev {
      case Routing(e, round) => UntouchedRound(l, r', round, s, n);
      case Drain =>
        F.DeliverIsPointwise(l.remote, l.buffer, n, s.peerType);
        F.OnceIsHarmless(l.buffer, n, s.peerType);
        F.OrderSurvivesIff(F.At(l.remote, n), l.buffer, n, s.peerType);
      case Interval(_, _, _) => UntouchedRound(Unpended(l, ev), r', IntervalRound(ev), s, n);
    }
  }

  lemma UntouchedRound(l: Link, r: L.Rib, round: Round, s: P.Session, n: Nlri)
    requires L.FiledByPrefix(r.candidates) && A.Lookup(Advance(l, r, round, s).table, n) == A.Lookup(l.table, n)
    ensures OnTrackAt(Advance(l, r, round, s), s, n) <==> OnTrackAt(l, s, n)
  {
    var v := F.At(l.remote, n);
    TableAt(l, r, round, s, n);
    if round.direct {
      var ds := P.Decisions(l.table, r, round.nlris, s, round.checks);
      DecisionsAt(l.table, r, round.nlris, s, round.checks, n);
      F.DeliverIsPointwise(l.remote, ds, n, s.peerType);
      F.OnceIsHarmless(ds, n, s.peerType);
      F.OrderSurvivesIff(v, ds, n, s.peerType);
    } else {
      var added := AddedAt(l, r, round, s, n);
      F.InOrderAppend(v, l.buffer, added, n, s.peerType);
    }
  }

  lemma {:induction false} OffTrackPersists(states: seq<L.Rib>, links: seq<Link>, events: seq<Event>, s: P.Session, n: Nlri, k: nat)
    requires Run(states, links, events, s) && k <= |events| && !OnTrackAt(links[0], s, n)
    requires forall i :: 0 <= i < |events| ==> !Touches(links[i], events[i], links[i + 1], n)
    ensures !OnTrackAt(links[k], s, n)
  {
    if k > 0 {
      OffTrackPersists(states, links, events, s, n, k - 1);
      RunKeepsFiled(states, links, events, s, k);
      OffTrackStays(states[k - 1], links[k - 1], events[k - 1], states[k], links[k], s, n);
    }
  }
}
