/** The per-peer inbound table and its stale marks during a graceful restart. */
module AdjRibIn {
  import opened Types

  type Table = map<Nlri, Route>

  function Staled(r: Route): Route { r.(stale := true) }

  function AllStaled(t: Table): Table {
    map n | n in t :: Staled(t[n])
  }

  ghost predicate FiledByPrefix(t: Table) {
    forall n :: n in t ==> t[n].nlri == n
  }

  function StalePrefixes(t: Table): set<Nlri> {
    set n | n in t && t[n].stale
  }

  /** `rs` lists every route of `t` once. */
  ghost predicate Lists(rs: seq<Route>, t: Table) {
    && (forall i :: 0 <= i < |rs| ==> rs[i].nlri in t && t[rs[i].nlri] == rs[i])
    && (forall i, j :: 0 <= i < j < |rs| ==> rs[i].nlri != rs[j].nlri)
    && (forall n :: n in t ==> t[n] in rs)
  }

  /** Of the table `t0`, the routes outside `todo` are marked in `t` and listed in `copies`. */
  ghost predicate PartlyStaled(t0: Table, t: Table, todo: set<Nlri>, copies: seq<Route>) {
    && todo <= t.Keys == t0.Keys && FiledByPrefix(t0)
    && (forall n :: n in t ==> t[n] == if n in todo then t0[n] else Staled(t0[n]))
    && (forall n :: n in t && n !in todo ==> t[n] in copies)
    && (forall i :: 0 <= i < |copies| ==> copies[i].nlri in t && copies[i].nlri !in todo && t[copies[i].nlri] == copies[i])
    && (forall i, j :: 0 <= i < j < |copies| ==> copies[i].nlri != copies[j].nlri)
  }

  lemma StaleStep(t0: Table, t: Table, todo: set<Nlri>, copies: seq<Route>, n: Nlri)
    requires PartlyStaled(t0, t, todo, copies) && n in todo
    ensures PartlyStaled(t0, t[n := Staled(t[n])], todo - {n}, copies + [Staled(t[n])])
  {
    var t', more := t[n := Staled(t[n])], copies + [Staled(t[n])];
    assert t'.Keys == t.Keys;
    forall m | m in t' && m !in todo - {n} ensures t'[m] in more {
      if m != n { assert t[m] in copies; } else { assert more[|copies|] == t'[m]; }
    }
  }

  /** `rs` lists the routes of `t` for the prefixes outside `todo`. */
  ghost predicate PartlyListed(rs: seq<Route>, t: Table, todo: set<Nlri>) {
    && (forall i :: 0 <= i < |rs| ==> rs[i].nlri in t && rs[i].nlri !in todo && t[rs[i].nlri] == rs[i])
    && (forall i, j :: 0 <= i < j < |rs| ==> rs[i].nlri != rs[j].nlri)
    && (forall n :: n in t && n !in todo ==> t[n] in rs)
  }

  lemma ListStep(rs: seq<Route>, t: Table, todo: set<Nlri>, n: Nlri)
    requires PartlyListed(rs, t, todo) && n in todo && n in t && FiledByPrefix(t)
    ensures PartlyListed(rs + [t[n]], t, todo - {n})
  {
    var more := rs + [t[n]];
    forall m | m in t && m !in todo - {n} ensures t[m] in more {
      if m != n { assert t[m] in rs; } else { assert more[|rs|] == t[m]; }
    }
  }

  class AdjRibIn {
    const peer: PeerId
    var routes: Table

    ghost predicate Valid()
      reads this
    {
      FiledByPrefix(routes)
    }

    constructor (peer: PeerId)
      ensures Valid() && routes == map[] && this.peer == peer
    {
      this.peer, routes := peer, map[];
    }

    method Insert(route: Route) returns (replaced: Option<Route>)
      requires Valid()
      modifies this`routes
      ensures Valid()
      ensures routes == Step(old(routes), InsertOp(route))
      ensures replaced == if route.nlri in old(routes) then Some(old(routes)[route.nlri]) else None
    {
      replaced := if route.nlri in routes then Some(routes[route.nlri]) else None;
      routes := routes[route.nlri := route];
    }

    method Withdraw(n: Nlri) returns (removed: Option<Route>)
      requires Valid()
      modifies this`routes
      ensures Valid()
      ensures routes == Step(old(routes), WithdrawOp(n))
      ensures removed == if n in old(routes) then Some(old(routes)[n]) else None
    {
      removed := if n in routes then Some(routes[n]) else None;
      routes := routes - {n};
    }

    /** Marks every route stale in place and returns a copy of each for re-selection. */
    method MarkAllStale() returns (copies: seq<Route>)
      requires Valid()
      modifies this`routes
      ensures Valid()
      ensures routes == AllStaled(old(routes)) && Lists(copies, routes)
      ensures StalePrefixes(routes) == old(routes).Keys
    {
      copies := [];
      var todo := routes.Keys;
      while todo != {}
        invariant PartlyStaled(old(routes), routes, todo, copies)
        decreases todo
      {
        var n :| n in todo;
        StaleStep(old(routes), routes, todo, copies, n);
        todo := todo - {n};
        routes := routes[n := routes[n].(stale := true)];
        copies := copies + [routes[n]];
      }
    }

    /** Every route of the table, in no particular order. */
    method Routes() returns (rs: seq<Route>)
      requires Valid()
      ensures Lists(rs, routes)
    {
      rs := [];
      var todo := routes.Keys;
      while todo != {}
        invariant todo <= routes.Keys && PartlyListed(rs, routes, todo)
        decreases todo
      {
        var n :| n in todo;
        ListStep(rs, routes, todo, n);
        rs, todo := rs + [routes[n]], todo - {n};
      }
    }

    method Clear()
      modifies this`routes
      ensures Valid() && routes == Step(old(routes), ClearOp)
    {
      routes := map[];
    }
  }

  // ---------- after the session drops ----------

  datatype Op = InsertOp(route: Route) | WithdrawOp(nlri: Nlri) | ClearOp

  function Step(t: Table, op: Op): Table {
    match op
    case InsertOp(r) => t[r.nlri := r]
    case WithdrawOp(n) => t - {n}
    case ClearOp => map[]
  }

  function Run(t: Table, ops: seq<Op>): Table
    decreases ops
  {
    if ops == [] then t else Run(Step(t, ops[0]), ops[1..])
  }

  /** Some operation announced, withdrew or cleared this prefix. */
  ghost predicate Touched(ops: seq<Op>, n: Nlri) {
    exists i :: 0 <= i < |ops| && Touches(ops[i], n)
  }

  predicate Touches(op: Op, n: Nlri) {
    match op
    case InsertOp(r) => r.nlri == n
    case WithdrawOp(m) => m == n
    case ClearOp => true
  }

  lemma TouchedTail(ops: seq<Op>, n: Nlri)
    requires ops != []
    ensures Touched(ops, n) <==> Touches(ops[0], n) || Touched(ops[1..], n)
  {
    if Touched(ops, n) {
      var i :| 0 <= i < |ops| && Touches(ops[i], n);
      if i > 0 { assert Touches(ops[1..][i - 1], n); }
    }
    if Touched(ops[1..], n) {
      var i :| 0 <= i < |ops[1..]| && Touches(ops[1..][i], n);
      assert Touches(ops[i + 1], n);
    }
  }

  /**
   Whatever the peer re-announces (fresh), withdraws or clears afterwards, a prefix is
   stale exactly when it was stale before and has not been touched since.
   */
  lemma {:induction false} StaleUntilTouched(t: Table, ops: seq<Op>, n: Nlri)
    requires forall i :: 0 <= i < |ops| && ops[i].InsertOp? ==> !ops[i].route.stale
    ensures n in StalePrefixes(Run(t, ops)) <==> n in StalePrefixes(t) && !Touched(ops, n)
    decreases ops
  {
    if ops != [] {
      TouchedTail(ops, n);
      StaleUntilTouched(Step(t, ops[0]), ops[1..], n);
    }
  }

  /** Section 4.2 of RFC 4724: what a restart leaves stale is the snapshot less what was touched. */
  lemma StaleIsUntouchedSnapshot(t: Table, ops: seq<Op>)
    requires FiledByPrefix(t)
    requires forall i :: 0 <= i < |ops| && ops[i].InsertOp? ==> !ops[i].route.stale
    ensures forall n :: n in StalePrefixes(Run(AllStaled(t), ops)) <==> n in t && !Touched(ops, n)
    ensures FiledByPrefix(Run(AllStaled(t), ops))
  {
    forall n ensures n in StalePrefixes(Run(AllStaled(t), ops)) <==> n in t && !Touched(ops, n) {
      StaleUntilTouched(AllStaled(t), ops, n);
      assert n in StalePrefixes(AllStaled(t)) <==> n in t;
    }
    RunFiles(AllStaled(t), ops);
  }

  lemma {:induction false} RunFiles(t: Table, ops: seq<Op>)
    requires FiledByPrefix(t)
    ensures FiledByPrefix(Run(t, ops))
    decreases ops
  {
    if ops != [] { RunFiles(Step(t, ops[0]), ops[1..]); }
  }
}
