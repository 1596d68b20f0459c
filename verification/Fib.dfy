/**
 The forwarding-table writer: it records one pending operation per prefix, drains them in
 batches, and skips announcements without an IPv4 next hop.
 */
module Fib {
  import opened Types
  import opened BestPath
  import L = LocRib
  import R = LocRibRuns

  type Gateway = nat
  type Kernel = map<Nlri, Gateway>

  datatype Pending = Install(gateway: Gateway) | Remove

  function GatewayOf(route: Route): Option<Gateway> {
    match route.nextHop
    case Some(HopV4(g)) => Some(g)
    case _ => None
  }

  /** What a change asks to be recorded, if anything. */
  function PendingFor(c: L.Change): Option<Pending> {
    match c
    case Announced(_, route) => (match GatewayOf(route) case Some(g) => Some(Install(g)) case None => None)
    case Withdrawn(_) => Some(Remove)
    case Unchanged => None
  }

  function Record(pending: map<Nlri, Pending>, c: L.Change): map<Nlri, Pending> {
    if PendingFor(c).None? then pending else pending[c.nlri := PendingFor(c).value]
  }

  /** The kernel's table once everything pending has been written. */
  function Drained(kernel: Kernel, pending: map<Nlri, Pending>): Kernel {
    map n | n in kernel.Keys + pending.Keys && (n in pending ==> pending[n].Install?) ::
      if n in pending then pending[n].gateway else kernel[n]
  }

  /** The kernel's table if a change were written at once. */
  function Write(kernel: Kernel, c: L.Change): Kernel {
    match PendingFor(c)
    case Some(Install(g)) => kernel[c.nlri := g]
    case Some(Remove) => kernel - {c.nlri}
    case None => kernel
  }

  /** Recording a change and draining later is writing it at once after draining. */
  lemma RecordIsWrite(kernel: Kernel, pending: map<Nlri, Pending>, c: L.Change)
    ensures Drained(kernel, Record(pending, c)) == Write(Drained(kernel, pending), c)
  {
  }

  class FibManager {
    var pending: map<Nlri, Pending>
    /** The kernel's own table. */
    var kernel: Kernel

    constructor ()
      ensures pending == map[] && kernel == map[]
    {
      pending, kernel := map[], map[];
    }

    /** What the kernel will hold when the writer next catches up. */
    ghost function Settled(): Kernel
      reads this
    {
      Drained(kernel, pending)
    }

    method ApplyV4(change: L.Change)
      modifies this`pending
      ensures Settled() == Write(old(Settled()), change)
    {
      RecordIsWrite(kernel, pending, change);
      match change {
        case Announced(n, route) =>
          if route.nextHop.Some? && route.nextHop.value.HopV4? {
            pending := pending[n := Install(route.nextHop.value.v4)];
          }
        case Withdrawn(n) =>
          pending := pending[n := Remove];
        case Unchanged =>
      }
    }

    /** Writes a whole batch, in any order. */
    method ProcessBatch()
      modifies this
      ensures pending == map[] && kernel == old(Settled()) == Settled()
    {
      var batch := pending;
      pending := map[];
      var todo := batch.Keys;
      while todo != {}
        invariant todo <= batch.Keys && pending == map[]
        invariant Drained(kernel, map n | n in todo :: batch[n]) == old(Settled())
        decreases todo
      {
        var n :| n in todo;
        DrainOne(kernel, batch, todo, n);
        match batch[n] {
          case Install(g) => kernel := kernel[n := g];
          case Remove => kernel := kernel - {n};
        }
        todo := todo - {n};
      }
    }
  }

  lemma DrainOne(kernel: Kernel, batch: map<Nlri, Pending>, todo: set<Nlri>, n: Nlri)
    requires todo <= batch.Keys && n in todo
    ensures Drained(if batch[n].Install? then kernel[n := batch[n].gateway] else kernel - {n},
                    map m | m in todo - {n} :: batch[m])
         == Drained(kernel, map m | m in todo :: batch[m])
  {
  }

  // ---------- against the routing table ----------

  function GatewayAt(r: L.Rib, n: Nlri): Option<Gateway> {
    match L.RouteAt(r, n) case Some(route) => GatewayOf(route) case None => None
  }

  /** The gateways of the best routes that have one. */
  function Gateways(r: L.Rib): Kernel {
    map n | n in r.best && GatewayAt(r, n).Some? :: GatewayAt(r, n).value
  }

  function WriteAll(kernel: Kernel, cs: seq<L.Change>): Kernel
    decreases cs
  {
    if cs == [] then kernel else WriteAll(Write(kernel, cs[0]), cs[1..])
  }

  function PointAll(v: Option<Gateway>, cs: seq<L.Change>): Option<Gateway>
    decreases cs
  {
    if cs == [] then v
    else PointAll(match PendingFor(cs[0]) case Some(Install(g)) => Some(g) case Some(Remove) => None case None => v,
                  cs[1..])
  }

  lemma {:induction false} WriteAllAt(kernel: Kernel, cs: seq<L.Change>, n: Nlri)
    ensures L.Get(WriteAll(kernel, cs), n) == PointAll(L.Get(kernel, n), L.Naming(cs, n))
    decreases cs
  {
    if cs != [] {
      WriteAllAt(Write(kernel, cs[0]), cs[1..], n);
      var named := L.Naming(cs, n);
      if L.Names(cs[0], n) {
        assert named[0] == cs[0] && named[1..] == L.Naming(cs[1..], n);
      } else {
        assert named == L.Naming(cs[1..], n);
        assert L.Get(Write(kernel, cs[0]), n) == L.Get(kernel, n);
      }
    }
  }

  /**
   The event leaves the kernel with a gateway the table no longer has for `n`: the new
   best route has no IPv4 next hop, or the best route went without a notice.
   */
  ghost predicate Strands(r: L.Rib, e: R.Event, r': L.Rib, n: Nlri) {
    && GatewayAt(r, n).Some? && GatewayAt(r', n).None?
    && (L.RouteAt(r', n).Some? || R.LostAt(r, e, n))
  }

  ghost predicate StrandsNone(r: L.Rib, e: R.Event, r': L.Rib) {
    forall n :: !Strands(r, e, r', n)
  }

  lemma WrittenAt(r: L.Rib, e: R.Event, r': L.Rib, n: Nlri)
    requires R.Step(r, e, r')
    ensures L.Get(WriteAll(Gateways(r), e.changes), n)
         == if Strands(r, e, r', n) then GatewayAt(r, n) else GatewayAt(r', n)
  {
    R.StepNoticeRight(r, e, r', n);
    WriteAllAt(Gateways(r), e.changes, n);
    assert L.Get(Gateways(r), n) == GatewayAt(r, n);
    var cs := L.Naming(e.changes, n);
    if cs != [] { PointOne(GatewayAt(r, n), cs[0]); assert cs == [cs[0]]; }
  }

  lemma PointOne(v: Option<Gateway>, c: L.Change)
    ensures PointAll(v, [c]) ==
      match PendingFor(c) case Some(Install(g)) => Some(g) case Some(Remove) => None case None => v
  {
    assert [c][1..] == [];
  }

  /** One event's notices leave the kernel right if and only if it strands no gateway. */
  lemma StepWritesGateways(r: L.Rib, e: R.Event, r': L.Rib)
    requires R.Step(r, e, r')
    ensures WriteAll(Gateways(r), e.changes) == Gateways(r') <==> StrandsNone(r, e, r')
  {
    var a, b := WriteAll(Gateways(r), e.changes), Gateways(r');
    forall n ensures L.Get(a, n) == (if Strands(r, e, r', n) then GatewayAt(r, n) else GatewayAt(r', n))
                     && L.Get(b, n) == GatewayAt(r', n)
    {
      WrittenAt(r, e, r', n);
    }
    if StrandsNone(r, e, r') { L.SameEverywhere(a, b); }
    if a == b {
      forall n ensures !Strands(r, e, r', n) { assert L.Get(a, n) == L.Get(b, n); }
    }
  }

  // ---------- whole runs ----------

  function KernelAfter(kernel: Kernel, events: seq<R.Event>, k: nat): Kernel
    requires k <= |events|
  {
    if k == 0 then kernel else WriteAll(KernelAfter(kernel, events, k - 1), events[k - 1].changes)
  }

  ghost predicate KernelRight(states: seq<L.Rib>, events: seq<R.Event>, k: nat)
    requires |states| == |events| + 1 && k <= |events|
  {
    KernelAfter(Gateways(states[0]), events, k) == Gateways(states[k])
  }

  ghost predicate StrandsNothing(states: seq<L.Rib>, events: seq<R.Event>)
    requires |states| == |events| + 1
  {
    forall i :: 0 <= i < |events| ==> StrandsNone(states[i], events[i], states[i + 1])
  }

  /** At every point of a run the kernel holds the best routes' gateways, if and only if no event strands one. */
  lemma RunWritesGateways(states: seq<L.Rib>, events: seq<R.Event>)
    requires R.Run(states, events)
    ensures (forall k :: 0 <= k <= |events| ==> KernelRight(states, events, k)) <==> StrandsNothing(states, events)
  {
    if StrandsNothing(states, events) {
      forall k | 0 <= k <= |events| ensures KernelRight(states, events, k) {
        UnstrandedRun(states, events, k);
      }
    }
    if forall k :: 0 <= k <= |events| ==> KernelRight(states, events, k) {
      forall i | 0 <= i < |events| ensures StrandsNone(states[i], events[i], states[i + 1]) {
        assert KernelRight(states, events, i) && KernelRight(states, events, i + 1);
        assert R.Step(states[i], events[i], states[i + 1]);
        StepWritesGateways(states[i], events[i], states[i + 1]);
      }
    }
  }

  lemma {:induction false} UnstrandedRun(states: seq<L.Rib>, events: seq<R.Event>, k: nat)
    requires R.Run(states, events) && StrandsNothing(states, events) && k <= |events|
    ensures KernelRight(states, events, k)
  {
    if k > 0 {
      UnstrandedRun(states, events, k - 1);
      assert R.Step(states[k - 1], events[k - 1], states[k]);
      StepWritesGateways(states[k - 1], events[k - 1], states[k]);
    }
  }

  /** A best route without an IPv4 next hop replaces one that had it: announced, and the old gateway stays. */
  lemma StrandedGatewayExists(o: Oracle, peer: PeerId, first: Route, second: Route)
    requires Reachable(first, o) && Reachable(second, o) && first.nlri == second.nlri
    requires GatewayOf(first).Some? && GatewayOf(second).None?
    ensures var r, r' := R.Lone(peer, first), R.Lone(peer, second);
            var e := R.Event(R.InsertOp(peer, second), o, [L.Announced(second.nlri, second)]);
            && R.Step(r, e, r') && Strands(r, e, r', second.nlri)
            && WriteAll(Gateways(r), e.changes) == map[second.nlri := GatewayOf(first).value]
            && Gateways(r') == map[]
  {
    var n := second.nlri;
    var r, r' := R.Lone(peer, first), R.Lone(peer, second);
    var c := L.Announced(n, second);
    R.ReplaceAlone(peer, first, second, o);
    assert WriteAll(Gateways(r), [c]) == Gateways(r) by { assert [c][1..] == []; }
  }
}
