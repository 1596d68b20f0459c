/**
 The per-peer outbound table, the messages its return values call for, and the
 decision taken for one prefix when the best route may have changed.
 */
module AdjRibOut {
  import opened Types
  import opened AsPaths
  import opened Policies
  import opened Outbound

  type Table = map<Nlri, Route>

  datatype InsertOutcome = Accepted(previous: Option<Route>) | Filtered(evicted: Option<Route>)

  /** What one prefix needs sent. */
  datatype PrefixDecision = Announce(route: Route) | WithdrawPrefix(nlri: Nlri) | NoChange

  function Lookup(t: Table, n: Nlri): Option<Route> {
    if n in t then Some(t[n]) else None
  }

  /** The table with exactly `v` at `n`. */
  function Put(t: Table, n: Nlri, v: Option<Route>): Table {
    if v.Some? then t[n := v.value] else t - {n}
  }

  /** The far end of the session: it sees messages, never our table. */
  function Receive(remote: Table, m: PrefixDecision): Table {
    match m
    case Announce(r) => remote[r.nlri := r]
    case WithdrawPrefix(n) => remote - {n}
    case NoChange => remote
  }

  /** What an inserted route leaves in a table for this kind of peer. */
  function Kept(peerType: PeerType, reflects: bool, r: Route): Option<Route> {
    if SplitHorizon(peerType, reflects, r) then None else Some(Stored(peerType, r))
  }

  /** The message an insert's outcome calls for: nothing if the peer already has the route. */
  function MessageForInsert(r: Route, stored: Route, outcome: InsertOutcome): PrefixDecision {
    match outcome
    case Accepted(previous) => if previous == Some(stored) then NoChange else Announce(stored)
    case Filtered(evicted) => if evicted.Some? then WithdrawPrefix(r.nlri) else NoChange
  }

  function MessageForWithdraw(n: Nlri, removed: Option<Route>): PrefixDecision {
    if removed.Some? then WithdrawPrefix(n) else NoChange
  }

  /** What is sent when the table goes from holding something for `n` to holding `v`. */
  function MessageTo(t: Table, n: Nlri, v: Option<Route>): PrefixDecision {
    if Lookup(t, n) == v then NoChange
    else if v.Some? then Announce(v.value)
    else WithdrawPrefix(n)
  }

  /** Everything the propagation of one prefix reads besides the table. */
  datatype View = View(
    best: Option<Route>,
    bestPeer: Option<PeerId>,
    sessionType: PeerType,
    speaker: Speaker,
    terms: seq<Term>,
    default: DefaultAction)

  /** The route this peer should hold for a prefix, if any. */
  function Advertised(peer: PeerId, peerType: PeerType, reflects: bool, v: View): Option<Route> {
    if v.best.None? || v.bestPeer == Some(peer) then None
    else
      var (d, out) := EvalTerms(v.terms, Prepared(v.best.value, v.sessionType, v.speaker), v.default);
      if d == Accept && !IsExportSuppressed(out.Communities(), v.sessionType)
      then Kept(peerType, reflects, out) else None
  }

  class AdjRibOut {
    const peer: PeerId
    const peerType: PeerType
    const reflects: bool
    var routes: Table

    /** Each route is filed under its prefix and is one this peer may see. */
    ghost predicate Valid()
      reads this
    {
      ValidTable(routes, peerType, reflects)
    }

    constructor (peer: PeerId, peerType: PeerType)
      ensures Valid() && routes == map[] && !reflects
      ensures this.peer == peer && this.peerType == peerType
    {
      this.peer, this.peerType, reflects, routes := peer, peerType, false, map[];
    }

    constructor Reflecting(peer: PeerId, peerType: PeerType)
      ensures Valid() && routes == map[] && reflects
      ensures this.peer == peer && this.peerType == peerType
    {
      this.peer, this.peerType, reflects, routes := peer, peerType, true, map[];
    }

    method Insert(route: Route) returns (outcome: InsertOutcome)
      requires Valid()
      modifies this`routes
      ensures Valid()
      ensures routes == Put(old(routes), route.nlri, Kept(peerType, reflects, route))
      ensures outcome == if SplitHorizon(peerType, reflects, route)
                         then Filtered(Lookup(old(routes), route.nlri))
                         else Accepted(Lookup(old(routes), route.nlri))
    {
      var n := route.nlri;
      var before := if n in routes then Some(routes[n]) else None;
      if !reflects && peerType.Internal? && route.peerType.Internal? {
        routes := routes - {n};
        return Filtered(before);
      }
      var r := route;
      if peerType.External? {
        StripEffect(r.asPath);
        r := r.(asPath := StripConfed(r.asPath));
      }
      routes := routes[n := r];
      outcome := Accepted(before);
    }

    method Withdraw(n: Nlri) returns (removed: Option<Route>)
      requires Valid()
      modifies this`routes
      ensures Valid()
      ensures routes == Put(old(routes), n, None) && removed == Lookup(old(routes), n)
    {
      removed := if n in routes then Some(routes[n]) else None;
      routes := routes - {n};
    }

    method WithdrawDecision(n: Nlri) returns (d: PrefixDecision)
      requires Valid()
      modifies this`routes
      ensures Valid()
      ensures routes == Put(old(routes), n, None) && d == MessageTo(old(routes), n, None)
      ensures Receive(old(routes), d) == routes && (d.NoChange? <==> routes == old(routes))
    {
      var removed := Withdraw(n);
      d := if removed.Some? then WithdrawPrefix(n) else NoChange;
      assert removed.None? ==> old(routes) - {n} == old(routes);
      assert removed.Some? ==> n !in routes && n in old(routes);
    }

    /**
     Brings the table in line with the current best route for `n` and says what to
     send. When the session's type is the table's, as it is for every established peer,
     the far end that applies just that message ends up with the same table.
     */
    method PropagatePrefix(n: Nlri, best: Option<Route>, bestPeer: Option<PeerId>, policy: Policy,
                           sessionType: PeerType, speaker: Speaker, deferred: bool)
      returns (d: PrefixDecision)
      requires Valid()
      requires best.Some? ==> best.value.nlri == n
      modifies this`routes
      ensures Valid()
      ensures deferred ==> routes == old(routes)
      ensures !deferred ==>
        var v := View(best, bestPeer, sessionType, speaker, policy.terms, policy.default);
        routes == Put(old(routes), n, Advertised(peer, peerType, reflects, v))
      ensures deferred ==> d == NoChange
      ensures !deferred && sessionType == peerType ==>
        var v := View(best, bestPeer, sessionType, speaker, policy.terms, policy.default);
        d == MessageTo(old(routes), n, Advertised(peer, peerType, reflects, v))
      ensures sessionType == peerType ==> Receive(old(routes), d) == routes && (d.NoChange? <==> routes == old(routes))
    {
      if deferred {
        return NoChange;
      }
      if best.None? || bestPeer == Some(peer) {
        d := WithdrawDecision(n);
        return;
      }
      var prepared := PrepareOutbound(best.value, sessionType, speaker);
      var decision, route := policy.Evaluate(prepared);
      StoredIsPrepared(best.value, sessionType, speaker, policy.terms, policy.default);
      if decision == Accept && !IsExportSuppressed(route.Communities(), sessionType) {
        d := Offer(route);
      } else {
        d := WithdrawDecision(n);
      }
    }

    /** Inserts a prepared route and turns the outcome into a message. */
    method Offer(route: Route) returns (d: PrefixDecision)
      requires Valid()
      modifies this`routes
      ensures Valid()
      ensures routes == Put(old(routes), route.nlri, Kept(peerType, reflects, route))
      ensures Stored(peerType, route) == route ==>
        d == MessageTo(old(routes), route.nlri, Kept(peerType, reflects, route)) &&
        Receive(old(routes), d) == routes && (d.NoChange? <==> routes == old(routes))
    {
      var outcome := Insert(route);
      match outcome {
        case Accepted(previous) => d := if previous == Some(route) then NoChange else Announce(route);
        case Filtered(Some(_)) => d := WithdrawPrefix(route.nlri);
        case Filtered(None) => d := NoChange;
      }
      assert d == MessageForInsert(route, route, outcome);
      InsertMessageIsRight(old(routes), peerType, reflects, route);
    }
  }

  /** Keys match routes; no internal route for a plain internal peer; no confed segment for an external one. */
  ghost predicate ValidTable(t: Table, peerType: PeerType, reflects: bool) {
    forall n :: n in t ==>
      && t[n].nlri == n
      && !SplitHorizon(peerType, reflects, t[n])
      && (peerType.External? ==> NoConfed(t[n].asPath))
  }

  lemma InsertMessageIsRight(t: Table, peerType: PeerType, reflects: bool, r: Route)
    ensures var t' := Put(t, r.nlri, Kept(peerType, reflects, r));
            var before := Lookup(t, r.nlri);
            var outcome := if SplitHorizon(peerType, reflects, r) then Filtered(before) else Accepted(before);
            var m := MessageForInsert(r, Stored(peerType, r), outcome);
            Receive(t, m) == t' && (m.NoChange? <==> t' == t)
  {
    var t' := Put(t, r.nlri, Kept(peerType, reflects, r));
    if SplitHorizon(peerType, reflects, r) && r.nlri in t { assert r.nlri !in t'; }
    if r.nlri !in t { assert t - {r.nlri} == t; }
    if !SplitHorizon(peerType, reflects, r) && Lookup(t, r.nlri) == Some(Stored(peerType, r)) { assert t' == t; }
  }

  // ---------- whole runs ----------

  datatype Op = InsertOp(route: Route) | WithdrawOp(nlri: Nlri)

  function Target(op: Op): Nlri {
    if op.InsertOp? then op.route.nlri else op.nlri
  }

  function Effect(op: Op, peerType: PeerType, reflects: bool): Option<Route> {
    if op.InsertOp? then Kept(peerType, reflects, op.route) else None
  }

  function StepTable(t: Table, op: Op, peerType: PeerType, reflects: bool): Table {
    Put(t, Target(op), Effect(op, peerType, reflects))
  }

  function MessageFor(t: Table, op: Op, peerType: PeerType, reflects: bool): PrefixDecision {
    match op
    case InsertOp(r) =>
      var before := Lookup(t, r.nlri);
      MessageForInsert(r, Stored(peerType, r),
                       if SplitHorizon(peerType, reflects, r) then Filtered(before) else Accepted(before))
    case WithdrawOp(n) => MessageForWithdraw(n, Lookup(t, n))
  }

  function RunTable(t: Table, ops: seq<Op>, peerType: PeerType, reflects: bool): Table
    decreases ops
  {
    if ops == [] then t else RunTable(StepTable(t, ops[0], peerType, reflects), ops[1..], peerType, reflects)
  }

  /** The far end's table after the messages those operations call for. */
  function RunRemote(remote: Table, t: Table, ops: seq<Op>, peerType: PeerType, reflects: bool): Table
    decreases ops
  {
    if ops == [] then remote
    else RunRemote(Receive(remote, MessageFor(t, ops[0], peerType, reflects)),
                   StepTable(t, ops[0], peerType, reflects), ops[1..], peerType, reflects)
  }

  /** After every sequence of operations the far end holds exactly our outbound table. */
  lemma {:induction false} RemoteMirrorsTable(t: Table, ops: seq<Op>, peerType: PeerType, reflects: bool)
    ensures RunRemote(t, t, ops, peerType, reflects) == RunTable(t, ops, peerType, reflects)
    decreases ops
  {
    if ops != [] {
      var t' := StepTable(t, ops[0], peerType, reflects);
      match ops[0] {
        case InsertOp(r) => InsertMessageIsRight(t, peerType, reflects, r);
        case WithdrawOp(n) => if n !in t { assert t - {n} == t; }
      }
      assert Receive(t, MessageFor(t, ops[0], peerType, reflects)) == t';
      RemoteMirrorsTable(t', ops[1..], peerType, reflects);
    }
  }

  /** The last operation on a prefix, if there was one. */
  function LastOn(ops: seq<Op>, n: Nlri): Option<Op> {
    if ops == [] then None
    else if Target(ops[|ops| - 1]) == n then Some(ops[|ops| - 1])
    else LastOn(ops[..|ops| - 1], n)
  }

  lemma {:induction false} RunAppend(t: Table, ops: seq<Op>, op: Op, peerType: PeerType, reflects: bool)
    ensures RunTable(t, ops + [op], peerType, reflects)
         == StepTable(RunTable(t, ops, peerType, reflects), op, peerType, reflects)
    decreases ops
  {
    if ops == [] {
      assert [op][1..] == [] && [] + [op] == [op];
    } else {
      assert (ops + [op])[0] == ops[0] && (ops + [op])[1..] == ops[1..] + [op];
      RunAppend(StepTable(t, ops[0], peerType, reflects), ops[1..], op, peerType, reflects);
    }
  }

  /** From an empty table, each prefix holds just what its last operation left. */
  lemma {:induction false} LastOperationWins(ops: seq<Op>, n: Nlri, peerType: PeerType, reflects: bool)
    ensures Lookup(RunTable(map[], ops, peerType, reflects), n)
         == if LastOn(ops, n).None? then None else Effect(LastOn(ops, n).value, peerType, reflects)
    decreases |ops|
  {
    if ops != [] {
      var front, last := ops[..|ops| - 1], ops[|ops| - 1];
      assert ops == front + [last];
      RunAppend(map[], front, last, peerType, reflects);
      LastOperationWins(front, n, peerType, reflects);
    }
  }

  /** Every reachable table files routes by prefix and honours split horizon and confed hiding. */
  lemma {:induction false} ReachableTablesValid(t: Table, ops: seq<Op>, peerType: PeerType, reflects: bool)
    requires ValidTable(t, peerType, reflects)
    ensures ValidTable(RunTable(t, ops, peerType, reflects), peerType, reflects)
    decreases ops
  {
    if ops != [] {
      if ops[0].InsertOp? { StripEffect(ops[0].route.asPath); }
      ReachableTablesValid(StepTable(t, ops[0], peerType, reflects), ops[1..], peerType, reflects);
    }
  }
}
