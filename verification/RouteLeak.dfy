/**
 Route-leak prevention with ONLY_TO_CUSTOMER (sections 5 and 6 of RFC 9234): the terms
 a session installs for its role, and what they guarantee along a chain of ASes.
 */
module RouteLeak {
  import opened Types
  import opened AsPaths
  import opened Policies
  import opened Outbound

  /** The role the other end of a session must hold. */
  function Complement(role: Role): Role {
    match role
    case Provider => Customer
    case Customer => Provider
    case RouteServer => RsClient
    case RsClient => RouteServer
    case Peer => Peer
  }

  predicate CompatibleWith(a: Role, b: Role) {
    match (a, b)
    case (Provider, Customer) => true
    case (Customer, Provider) => true
    case (RouteServer, RsClient) => true
    case (RsClient, RouteServer) => true
    case (Peer, Peer) => true
    case _ => false
  }

  lemma CompatibleIsComplement(a: Role, b: Role)
    ensures CompatibleWith(a, b) <==> b == Complement(a)
  {
  }

  function ImportTerms(role: Role, peerAsn: Asn): seq<Term> {
    [Term(OtcLeakCondition(role, peerAsn), RejectRoute)]
    + if role.Customer? || role.Peer? || role.RsClient? then [Term(AnyCondition, SetOtc(peerAsn))] else []
  }

  function ExportTerms(role: Role, localAsn: Asn): seq<Term> {
    (if role.Customer? || role.Peer? || role.RsClient? then [Term(OtcPropagationCondition, RejectRoute)] else [])
    + if role.Provider? || role.Peer? || role.RouteServer? then [Term(AnyCondition, SetOtc(localAsn))] else []
  }

  method InstallOtcImportTerm(policy: Policy, role: Role, peerAsn: Asn)
    modifies policy`terms
    ensures policy.terms == old(policy.terms) + ImportTerms(role, peerAsn)
  {
    policy.AddTerm(Term(OtcLeakCondition(role, peerAsn), RejectRoute));
    if role.Customer? || role.Peer? || role.RsClient? {
      policy.AddTerm(Term(AnyCondition, SetOtc(peerAsn)));
    }
  }

  method InstallOtcExportTerm(policy: Policy, role: Role, localAsn: Asn)
    modifies policy`terms
    ensures policy.terms == old(policy.terms) + ExportTerms(role, localAsn)
  {
    if role.Customer? || role.Peer? || role.RsClient? {
      policy.AddTerm(Term(OtcPropagationCondition, RejectRoute));
    }
    if role.Provider? || role.Peer? || role.RouteServer? {
      policy.AddTerm(Term(AnyCondition, SetOtc(localAsn)));
    }
  }

  /** One end of a session: whether it knows its role, and its further policy. */
  datatype End = End(participates: bool, more: seq<Term>, default: DefaultAction)

  /**
   A route handed from `sender`, which holds `role` and is the near end, to `receiver`.
   The receiver drops a route whose path already holds it, if it checks for loops.
   */
  datatype Hop = Hop(
    sender: Asn,
    receiver: Asn,
    role: Role,
    near: End,
    far: End,
    checksLoops: bool,
    address: Option<NextHop>)

  function Filter(otcTerms: seq<Term>, end: End, r: Route): Option<Route> {
    var terms := (if end.participates then otcTerms else []) + end.more;
    var (d, r') := EvalTerms(terms, r, end.default);
    if d == Accept then Some(r') else None
  }

  /** The route as the near end prepares it, with the sender in front of the path. */
  function Prepare(h: Hop, r: Route): Route {
    Prepared(r, External, Speaker(h.sender, h.sender, h.address, false))
  }

  /**
   The near end prepares and filters the route, and holds it back if a well-known community
   forbids an external peer; the far end checks for loops and filters.
   */
  function Transmit(h: Hop, r: Route): Option<Route> {
    var sent := Filter(ExportTerms(h.role, h.sender), h.near, Prepare(h, r));
    if sent.None? || IsExportSuppressed(sent.value.Communities(), External)
       || (h.checksLoops && Contains(sent.value.asPath, h.receiver)) then None
    else Filter(ImportTerms(Complement(h.role), h.sender), h.far, sent.value)
  }

  /** The route as it leaves the last hop, if every AS passed it on. */
  function Propagate(hops: seq<Hop>, r: Route): Option<Route>
    decreases hops
  {
    if hops == [] then Some(r)
    else
      var next := Transmit(hops[0], r);
      if next.None? then None else Propagate(hops[1..], next.value)
  }

  predicate Up(h: Hop) { h.role.Customer? || h.role.RsClient? }
  predicate Lateral(h: Hop) { h.role.Peer? }
  predicate Down(h: Hop) { h.role.Provider? || h.role.RouteServer? }

  /** At least one end applies the role's terms. */
  predicate Guarded(h: Hop) { h.near.participates || h.far.participates }

  /** From here on the route may only go down. */
  predicate Marks(h: Hop) { Guarded(h) && !Up(h) }

  /** Beyond its role terms an end adds nothing and accepts by default. */
  predicate Plain(end: End) { end.more == [] && end.default.DefaultAccept? }
  predicate PlainHop(h: Hop) { Plain(h.near) && Plain(h.far) }

  /** Beyond its role terms an end does anything but write ONLY_TO_CUSTOMER. */
  ghost predicate LeavesOtc(end: End) {
    forall i :: 0 <= i < |end.more| ==> KeepsOtc(end.more[i].action)
  }
  ghost predicate LeavesOtcHop(h: Hop) { LeavesOtc(h.near) && LeavesOtc(h.far) }

  /** No guarded hop after a marking hop goes up or sideways. */
  ghost predicate NoLeak(hops: seq<Hop>) {
    forall i, j :: 0 <= i < j < |hops| && Marks(hops[i]) && Guarded(hops[j]) ==> Down(hops[j])
  }

  /** The marker a route carries after `hops`: the sender on the first marking hop. */
  function MarkerAfter(hops: seq<Hop>): Option<Asn> {
    if hops == [] then None
    else if Marks(hops[0]) then Some(hops[0].sender)
    else MarkerAfter(hops[1..])
  }

  /** The receiver alone judges a lateral hop, by comparing the marker with the sender. */
  predicate JudgedByValue(h: Hop) {
    Lateral(h) && !h.near.participates && h.far.participates
  }

  /** A marked route gets past such a receiver when the sender is the AS that marked it. */
  predicate Excused(h: Hop, otc: Option<Asn>) {
    JudgedByValue(h) && otc == Some(h.sender)
  }

  /** A hop rejects a marked route it must not pass on. */
  predicate Blocks(h: Hop, otc: Option<Asn>) {
    otc.Some? && Guarded(h) && !Down(h) && !Excused(h, otc)
  }

  function MarkerBeyond(h: Hop, otc: Option<Asn>): Option<Asn> {
    if otc.None? && Marks(h) then Some(h.sender) else otc
  }

  /** The marker after `hops` of a route that set out with `otc`. */
  function MarkerFrom(otc: Option<Asn>, hops: seq<Hop>): Option<Asn> {
    if otc.Some? then otc else MarkerAfter(hops)
  }

  ghost predicate NoneBlocked(otc: Option<Asn>, hops: seq<Hop>) {
    forall j :: 0 <= j < |hops| ==> !Blocks(hops[j], MarkerFrom(otc, hops[..j]))
  }

  ghost predicate NoneExcused(hops: seq<Hop>) {
    forall j :: 0 <= j < |hops| ==> !Excused(hops[j], MarkerAfter(hops[..j]))
  }

  /** The receiver is on the path already, or is the sender itself. */
  predicate Loops(h: Hop, p: AsPath) {
    h.checksLoops && (h.receiver == h.sender || Contains(StripConfed(p), h.receiver))
  }

  /** Hop `j` of a chain on which a route set out with path `p` goes back to an AS it came through. */
  ghost predicate LoopAt(hops: seq<Hop>, p: AsPath, j: nat)
    requires j < |hops|
  {
    hops[j].checksLoops
    && (Contains(StripConfed(p), hops[j].receiver) || SentBefore(hops, j, hops[j].receiver))
  }

  ghost predicate SentBefore(hops: seq<Hop>, j: nat, x: Asn)
    requires j < |hops|
  {
    exists i :: 0 <= i <= j && hops[i].sender == x
  }

  ghost predicate NoneLooped(hops: seq<Hop>, p: AsPath) {
    forall j :: 0 <= j < |hops| ==> !LoopAt(hops, p, j)
  }

  /** Consecutive sessions of ASes that each differ from the next. */
  ghost predicate Linked(hops: seq<Hop>) {
    && (forall i :: 0 <= i < |hops| ==> hops[i].sender != hops[i].receiver)
    && (forall i :: 0 < i < |hops| ==> hops[i].sender == hops[i - 1].receiver)
  }

  /** Every AS that a later receiver identifies by value checked for loops itself. */
  ghost predicate JudgedCheckLoops(hops: seq<Hop>) {
    forall i :: 0 < i < |hops| && JudgedByValue(hops[i]) ==> hops[i - 1].checksLoops
  }

  /** A sender that a receiver identifies by value did not send on an earlier hop. */
  ghost predicate NoRepeatedSender(hops: seq<Hop>) {
    forall i, j :: 0 <= i < j < |hops| && JudgedByValue(hops[j]) ==> hops[i].sender != hops[j].sender
  }

  // ---------- one hop ----------

  lemma EvalOne(t: Term, more: seq<Term>, r: Route, default: DefaultAction)
    ensures EvalTerms([t] + more, r, default)
         == if !Matches(t.condition, r) then EvalTerms(more, r, default)
            else if Apply(t.action, r).0 != Next then Apply(t.action, r)
            else EvalTerms(more, Apply(t.action, r).1, default)
  {
    assert ([t] + more)[1..] == more;
  }

  /** What the egress terms do before the rest of the export policy runs. */
  lemma ExportEffect(role: Role, asn: Asn, more: seq<Term>, r: Route, default: DefaultAction)
    ensures EvalTerms(ExportTerms(role, asn) + more, r, default)
         == if r.Otc().Some? && !role.Provider? && !role.RouteServer? then (Reject, r)
            else if r.Otc().None? && !role.Customer? && !role.RsClient?
            then EvalTerms(more, r.SetOtc(Some(asn)), default)
            else EvalTerms(more, r, default)
  {
    var block, attach := Term(OtcPropagationCondition, RejectRoute), Term(AnyCondition, SetOtc(asn));
    EvalOne(attach, more, r, default);
    if role.Customer? || role.RsClient? {
      assert ExportTerms(role, asn) + more == [block] + more;
      EvalOne(block, more, r, default);
    } else if role.Peer? {
      assert ExportTerms(role, asn) + more == [block] + ([attach] + more);
      EvalOne(block, [attach] + more, r, default);
    } else {
      assert ExportTerms(role, asn) + more == [attach] + more;
    }
  }

  /** What the ingress terms do before the rest of the import policy runs. */
  lemma ImportEffect(role: Role, asn: Asn, more: seq<Term>, r: Route, default: DefaultAction)
    ensures EvalTerms(ImportTerms(role, asn) + more, r, default)
         == if Matches(OtcLeakCondition(role, asn), r) then (Reject, r)
            else if r.Otc().None? && !role.Provider? && !role.RouteServer?
            then EvalTerms(more, r.SetOtc(Some(asn)), default)
            else EvalTerms(more, r, default)
  {
    var leak, attach := Term(OtcLeakCondition(role, asn), RejectRoute), Term(AnyCondition, SetOtc(asn));
    EvalOne(attach, more, r, default);
    if role.Customer? || role.Peer? || role.RsClient? {
      assert ImportTerms(role, asn) + more == [leak] + ([attach] + more);
      EvalOne(leak, [attach] + more, r, default);
    } else {
      assert ImportTerms(role, asn) + more == [leak] + more;
      EvalOne(leak, more, r, default);
    }
  }

  lemma PreparePath(h: Hop, r: Route)
    ensures Prepare(h, r).asPath == Prepend(StripConfed(r.asPath), h.sender)
    ensures NoConfed(Prepare(h, r).asPath) && StripConfed(Prepare(h, r).asPath) == Prepare(h, r).asPath
    ensures Prepare(h, r).Otc() == r.Otc()
  {
    StripEffect(r.asPath);
    PrependEffect(StripConfed(r.asPath), h.sender);
    StripEffect(Prepare(h, r).asPath);
  }

  /**
   A plain hop passes a route on exactly when its communities allow it and the hop neither
   blocks nor loops, and adds its sender and marker only.
   */
  lemma PlainHopEffect(h: Hop, r: Route)
    requires PlainHop(h)
    ensures Transmit(h, r).Some? <==> CommunityAllows(r, External) && !Blocks(h, r.Otc()) && !Loops(h, r.asPath)
    ensures Transmit(h, r).Some? ==>
      var out := Transmit(h, r).value;
      && out.Otc() == MarkerBeyond(h, r.Otc()) && out.Communities() == r.Communities()
      && out.asPath == Prepend(StripConfed(r.asPath), h.sender)
      && (out == Prepare(h, r) || out == Prepare(h, r).SetOtc(Some(h.sender)))
  {
    var p := Prepare(h, r);
    PreparePath(h, r);
    PrependContains(StripConfed(r.asPath), h.sender, h.receiver);
    PlainNearEnd(h, p);
    SuppressedIffDisallowed(p, External);
    assert p.SetOtc(Some(h.sender)).Communities() == p.Communities() == r.Communities();
    var sent := Filter(ExportTerms(h.role, h.sender), h.near, p);
    if sent.Some? { PlainFarEnd(h, sent.value); }
  }

  lemma PlainNearEnd(h: Hop, p: Route)
    requires Plain(h.near)
    ensures Filter(ExportTerms(h.role, h.sender), h.near, p)
         == if h.near.participates && p.Otc().Some? && !Down(h) then None
            else if h.near.participates && p.Otc().None? && !Up(h) then Some(p.SetOtc(Some(h.sender)))
            else Some(p)
  {
    ExportEffect(h.role, h.sender, h.near.more, p, h.near.default);
    assert [] + h.near.more == h.near.more;
  }

  lemma PlainFarEnd(h: Hop, sent: Route)
    requires Plain(h.far)
    ensures Filter(ImportTerms(Complement(h.role), h.sender), h.far, sent)
         == if h.far.participates && sent.Otc().Some? && !Down(h) && !(Lateral(h) && sent.Otc() == Some(h.sender)) then None
            else if h.far.participates && sent.Otc().None? && !Up(h) then Some(sent.SetOtc(Some(h.sender)))
            else Some(sent)
  {
    ImportEffect(Complement(h.role), h.sender, h.far.more, sent, h.far.default);
    assert [] + h.far.more == h.far.more;
  }

  /** With further terms a hop may reject more, but never passes a route it must block. */
  lemma HopIsSafe(h: Hop, r: Route)
    requires LeavesOtcHop(h) && Transmit(h, r).Some?
    ensures !Blocks(h, r.Otc())
    ensures Transmit(h, r).value.Otc() == MarkerBeyond(h, r.Otc())
  {
    PreparePath(h, r);
    var sent := Filter(ExportTerms(h.role, h.sender), h.near, Prepare(h, r)).value;
    NearEndOtc(h, Prepare(h, r), sent);
    FarEndOtc(h, sent, Transmit(h, r).value);
  }

  lemma NearEndOtc(h: Hop, p: Route, sent: Route)
    requires LeavesOtc(h.near) && Filter(ExportTerms(h.role, h.sender), h.near, p) == Some(sent)
    ensures h.near.participates && p.Otc().Some? ==> Down(h)
    ensures sent.Otc() == if h.near.participates && p.Otc().None? && !Up(h) then Some(h.sender) else p.Otc()
  {
    FilterKeepsOtc(h.near, p);
    FilterKeepsOtc(h.near, p.SetOtc(Some(h.sender)));
    ExportEffect(h.role, h.sender, h.near.more, p, h.near.default);
    assert [] + h.near.more == h.near.more;
  }

  lemma FarEndOtc(h: Hop, sent: Route, out: Route)
    requires LeavesOtc(h.far) && Filter(ImportTerms(Complement(h.role), h.sender), h.far, sent) == Some(out)
    ensures h.far.participates && sent.Otc().Some? ==> Down(h) || (Lateral(h) && sent.Otc() == Some(h.sender))
    ensures out.Otc() == if h.far.participates && sent.Otc().None? && !Up(h) then Some(h.sender) else sent.Otc()
  {
    FilterKeepsOtc(h.far, sent);
    FilterKeepsOtc(h.far, sent.SetOtc(Some(h.sender)));
    ImportEffect(Complement(h.role), h.sender, h.far.more, sent, h.far.default);
    assert [] + h.far.more == h.far.more;
  }

  lemma FilterPath(otcTerms: seq<Term>, end: End, r: Route)
    requires Filter(otcTerms, end, r).Some?
    ensures NoConfed(r.asPath) ==> NoConfed(Filter(otcTerms, end, r).value.asPath)
    ensures forall x :: Contains(r.asPath, x) ==> Contains(Filter(otcTerms, end, r).value.asPath, x)
  {
    var terms := (if end.participates then otcTerms else []) + end.more;
    EvalFrame(terms, r, end.default);
    forall x | Contains(r.asPath, x) ensures Contains(EvalTerms(terms, r, end.default).1.asPath, x) {
      EvalKeepsAsn(terms, r, end.default, x);
    }
  }

  /** Whatever the policies do, a hop that passes a route on does not loop, and keeps every AS on the path. */
  lemma HopKeepsPath(h: Hop, r: Route)
    requires Transmit(h, r).Some?
    ensures !Loops(h, r.asPath)
    ensures var out := Transmit(h, r).value;
      forall x :: Contains(Prepend(StripConfed(r.asPath), h.sender), x) ==> Contains(StripConfed(out.asPath), x)
  {
    var p := Prepare(h, r);
    PreparePath(h, r);
    PrependContains(StripConfed(r.asPath), h.sender, h.receiver);
    var sent := Filter(ExportTerms(h.role, h.sender), h.near, p).value;
    FilterPath(ExportTerms(h.role, h.sender), h.near, p);
    FilterPath(ImportTerms(Complement(h.role), h.sender), h.far, sent);
    StripEffect(Transmit(h, r).value.asPath);
  }

  lemma FilterKeepsOtc(end: End, r: Route)
    requires LeavesOtc(end)
    ensures EvalTerms(end.more, r, end.default).1.Otc() == r.Otc()
  {
    TermsKeepOtc(end.more, r, end.default);
  }

  // ---------- chains ----------

  lemma MarkerTail(otc: Option<Asn>, hops: seq<Hop>, j: nat)
    requires 0 < j <= |hops|
    ensures MarkerFrom(otc, hops[..j]) == MarkerFrom(MarkerBeyond(hops[0], otc), hops[1..][..j - 1])
  {
    assert hops[..j][1..] == hops[1..][..j - 1];
  }

  lemma NoneBlockedTail(otc: Option<Asn>, hops: seq<Hop>)
    requires hops != []
    ensures NoneBlocked(otc, hops)
       <==> !Blocks(hops[0], otc) && NoneBlocked(MarkerBeyond(hops[0], otc), hops[1..])
  {
    var next, tail := MarkerBeyond(hops[0], otc), hops[1..];
    assert MarkerFrom(otc, hops[..0]) == otc;
    if NoneBlocked(otc, hops) {
      assert !Blocks(hops[0], MarkerFrom(otc, hops[..0]));
      forall j | 0 <= j < |tail| ensures !Blocks(tail[j], MarkerFrom(next, tail[..j])) {
        MarkerTail(otc, hops, j + 1);
        assert !Blocks(hops[j + 1], MarkerFrom(otc, hops[..j + 1]));
      }
    }
    if !Blocks(hops[0], otc) && NoneBlocked(next, tail) {
      forall j | 0 <= j < |hops| ensures !Blocks(hops[j], MarkerFrom(otc, hops[..j])) {
        if j > 0 {
          MarkerTail(otc, hops, j);
          assert !Blocks(tail[j - 1], MarkerFrom(next, tail[..j - 1]));
        }
      }
    }
  }

  /** The path after a first hop stands for that hop's sender. */
  lemma LoopTail(hops: seq<Hop>, p: AsPath, j: nat)
    requires j + 1 < |hops|
    ensures LoopAt(hops[1..], Prepend(StripConfed(p), hops[0].sender), j) <==> LoopAt(hops, p, j + 1)
  {
    var q, x := Prepend(StripConfed(p), hops[0].sender), hops[j + 1].receiver;
    StripEffect(p);
    PrependEffect(StripConfed(p), hops[0].sender);
    StripEffect(q);
    PrependContains(StripConfed(p), hops[0].sender, x);
    if SentBefore(hops[1..], j, x) {
      var i :| 0 <= i <= j && hops[1..][i].sender == x;
      assert hops[i + 1].sender == x;
    }
    if SentBefore(hops, j + 1, x) {
      var i :| 0 <= i <= j + 1 && hops[i].sender == x;
      if i > 0 { assert hops[1..][i - 1].sender == x; }
    }
  }

  lemma NoneLoopedTail(hops: seq<Hop>, p: AsPath)
    requires hops != []
    ensures NoneLooped(hops, p)
       <==> !Loops(hops[0], p) && NoneLooped(hops[1..], Prepend(StripConfed(p), hops[0].sender))
  {
    var q := Prepend(StripConfed(p), hops[0].sender);
    assert LoopAt(hops, p, 0) <==> Loops(hops[0], p) by {
      assert SentBefore(hops, 0, hops[0].receiver) <==> hops[0].sender == hops[0].receiver;
    }
    if NoneLooped(hops, p) {
      forall j | 0 <= j < |hops[1..]| ensures !LoopAt(hops[1..], q, j) { LoopTail(hops, p, j); }
    }
    if !Loops(hops[0], p) && NoneLooped(hops[1..], q) {
      forall j | 0 <= j < |hops| ensures !LoopAt(hops, p, j) {
        if j > 0 { LoopTail(hops, p, j - 1); }
      }
    }
  }

  lemma ShorterPathLoopsLess(hops: seq<Hop>, p: AsPath, q: AsPath)
    requires forall x :: Contains(StripConfed(p), x) ==> Contains(StripConfed(q), x)
    requires NoneLooped(hops, q)
    ensures NoneLooped(hops, p)
  {
    forall j | 0 <= j < |hops| ensures !LoopAt(hops, p, j) {
      assert !LoopAt(hops, q, j);
    }
  }

  /** No well-known community keeps the route from external peers, or it has none to go to. */
  predicate Exportable(r: Route, hops: seq<Hop>) {
    hops == [] || CommunityAllows(r, External)
  }

  /** Plain hops pass an exportable route on along the whole chain exactly when none blocks it and none loops. */
  lemma {:induction false} PlainChain(hops: seq<Hop>, r: Route)
    requires forall i :: 0 <= i < |hops| ==> PlainHop(hops[i])
    ensures Propagate(hops, r).Some?
       <==> Exportable(r, hops) && NoneBlocked(r.Otc(), hops) && NoneLooped(hops, r.asPath)
    ensures Propagate(hops, r).Some? ==> Propagate(hops, r).value.Otc() == MarkerFrom(r.Otc(), hops)
    decreases hops
  {
    if hops != [] {
      PlainHopEffect(hops[0], r);
      NoneBlockedTail(r.Otc(), hops);
      NoneLoopedTail(hops, r.asPath);
      if Transmit(hops[0], r).Some? {
        PlainChain(hops[1..], Transmit(hops[0], r).value);
      }
    }
  }

  /** Whatever else the hops do, a route that crosses the chain was blocked by none and looped nowhere. */
  lemma {:induction false} SafeChain(hops: seq<Hop>, r: Route)
    requires forall i :: 0 <= i < |hops| ==> LeavesOtcHop(hops[i])
    requires Propagate(hops, r).Some?
    ensures NoneBlocked(r.Otc(), hops) && NoneLooped(hops, r.asPath)
    ensures Propagate(hops, r).value.Otc() == MarkerFrom(r.Otc(), hops)
    decreases hops
  {
    if hops != [] {
      var out := Transmit(hops[0], r).value;
      HopIsSafe(hops[0], r);
      NoneBlockedTail(r.Otc(), hops);
      SafeChain(hops[1..], out);
      SafePath(hops, r, out);
    }
  }

  lemma SafePath(hops: seq<Hop>, r: Route, out: Route)
    requires hops != [] && Transmit(hops[0], r) == Some(out) && NoneLooped(hops[1..], out.asPath)
    ensures NoneLooped(hops, r.asPath)
  {
    var q := Prepend(StripConfed(r.asPath), hops[0].sender);
    HopKeepsPath(hops[0], r);
    PreparePath(hops[0], r);
    ShorterPathLoopsLess(hops[1..], q, out.asPath);
    NoneLoopedTail(hops, r.asPath);
  }

  // ---------- leaks ----------

  /** There is a marker exactly when some hop marks, and it is a marking sender. */
  lemma {:induction false} MarkerSource(hops: seq<Hop>)
    ensures MarkerAfter(hops).Some? <==> exists i :: 0 <= i < |hops| && Marks(hops[i])
    ensures MarkerAfter(hops).Some? ==>
      exists i :: 0 <= i < |hops| && Marks(hops[i]) && hops[i].sender == MarkerAfter(hops).value
  {
    if hops != [] {
      MarkerSource(hops[1..]);
      if exists i :: 0 <= i < |hops| && Marks(hops[i]) {
        var i :| 0 <= i < |hops| && Marks(hops[i]);
        if i > 0 { assert Marks(hops[1..][i - 1]); }
      }
      if !Marks(hops[0]) && MarkerAfter(hops).Some? {
        var i :| 0 <= i < |hops[1..]| && Marks(hops[1..][i]) && hops[1..][i].sender == MarkerAfter(hops).value;
        assert Marks(hops[i + 1]) && hops[i + 1].sender == MarkerAfter(hops).value;
      }
    }
  }

  lemma MarkedBefore(hops: seq<Hop>, j: nat)
    requires j <= |hops|
    ensures MarkerAfter(hops[..j]).Some? <==> exists i :: 0 <= i < j && Marks(hops[i])
  {
    MarkerSource(hops[..j]);
    if exists i :: 0 <= i < j && Marks(hops[i]) {
      var i :| 0 <= i < j && Marks(hops[i]);
      assert Marks(hops[..j][i]);
    }
    if exists i :: 0 <= i < |hops[..j]| && Marks(hops[..j][i]) {
      var i :| 0 <= i < |hops[..j]| && Marks(hops[..j][i]);
      assert Marks(hops[i]);
    }
  }

  lemma LeaklessIsUnblocked(hops: seq<Hop>)
    requires NoLeak(hops)
    ensures NoneBlocked(None, hops) && NoneExcused(hops)
  {
    forall j | 0 <= j < |hops| ensures !Blocks(hops[j], MarkerAfter(hops[..j])) && !Excused(hops[j], MarkerAfter(hops[..j])) {
      MarkedBefore(hops, j);
      if MarkerAfter(hops[..j]).Some? && Guarded(hops[j]) {
        var i :| 0 <= i < j && Marks(hops[i]);
        assert Down(hops[j]);
      }
    }
  }

  /** An unblocked chain leaks exactly when some hop was excused. */
  lemma UnblockedLeaksIffExcused(hops: seq<Hop>)
    requires NoneBlocked(None, hops)
    ensures NoLeak(hops) <==> NoneExcused(hops)
  {
    if NoLeak(hops) {
      LeaklessIsUnblocked(hops);
    }
    if NoneExcused(hops) {
      forall i, j | 0 <= i < j < |hops| && Marks(hops[i]) && Guarded(hops[j]) ensures Down(hops[j]) {
        MarkedBefore(hops, j);
        assert !Blocks(hops[j], MarkerFrom(None, hops[..j]));
        assert !Excused(hops[j], MarkerAfter(hops[..j]));
      }
    }
  }

  lemma DistinctSendersNotExcused(hops: seq<Hop>)
    requires NoRepeatedSender(hops)
    ensures NoneExcused(hops)
  {
    forall j | 0 <= j < |hops| ensures !Excused(hops[j], MarkerAfter(hops[..j])) {
      var front := hops[..j];
      MarkerSource(front);
      if MarkerAfter(front).Some? {
        var i :| 0 <= i < |front| && Marks(front[i]) && front[i].sender == MarkerAfter(front).value;
        assert hops[i].sender == MarkerAfter(front).value;
      }
    }
  }

  /**
   Where the ASes that are identified by value check for loops, a chain without a loop has
   no repeated sender among them: the AS would have met itself on the path.
   */
  lemma CheckedLoopsDistinct(hops: seq<Hop>, p: AsPath)
    requires Linked(hops) && NoneLooped(hops, p) && JudgedCheckLoops(hops)
    ensures NoRepeatedSender(hops)
  {
    forall i, j | 0 <= i < j < |hops| && JudgedByValue(hops[j]) ensures hops[i].sender != hops[j].sender {
      assert !LoopAt(hops, p, j - 1);
      assert hops[j].sender == hops[j - 1].receiver;
      assert !SentBefore(hops, j - 1, hops[j - 1].receiver);
    }
  }

  /**
   Partial deployment: an unmarked exportable route crosses the chain exactly when no hop
   blocks it and none loops, and then carries the sender of the first marking hop. A chain with
   no guarded up or lateral hop after a marking one is blocked nowhere; a chain that is
   crossed has none unless some receiver was taken in by the marker's value.
   */
  lemma ChainAcceptsExactly(hops: seq<Hop>, r: Route)
    requires forall i :: 0 <= i < |hops| ==> PlainHop(hops[i])
    requires r.Otc().None?
    ensures Propagate(hops, r).Some? <==> Exportable(r, hops) && NoneBlocked(None, hops) && NoneLooped(hops, r.asPath)
    ensures Propagate(hops, r).Some? ==> Propagate(hops, r).value.Otc() == MarkerAfter(hops)
    ensures Exportable(r, hops) && NoLeak(hops) && NoneLooped(hops, r.asPath) ==> Propagate(hops, r).Some?
    ensures Propagate(hops, r).Some? ==> (NoLeak(hops) <==> NoneExcused(hops))
  {
    PlainChain(hops, r);
    if NoLeak(hops) { LeaklessIsUnblocked(hops); }
    if NoneBlocked(None, hops) { UnblockedLeaksIffExcused(hops); }
  }

  /**
   The same safety with any further import and export policies that leave the marker alone.
   On linked sessions whose judged ASes check for loops, no chain that is crossed leaks.
   */
  lemma AcceptedLeaksIffExcused(hops: seq<Hop>, r: Route)
    requires forall i :: 0 <= i < |hops| ==> LeavesOtcHop(hops[i])
    requires r.Otc().None? && Propagate(hops, r).Some?
    ensures NoLeak(hops) <==> NoneExcused(hops)
    ensures NoRepeatedSender(hops) ==> NoLeak(hops)
    ensures Linked(hops) && JudgedCheckLoops(hops) ==> NoLeak(hops)
    ensures Propagate(hops, r).value.Otc() == MarkerAfter(hops)
  {
    SafeChain(hops, r);
    UnblockedLeaksIffExcused(hops);
    if Linked(hops) && JudgedCheckLoops(hops) { CheckedLoopsDistinct(hops, r.asPath); }
    if NoRepeatedSender(hops) { DistinctSendersNotExcused(hops); }
  }

  // ---------- full deployment ----------

  /** Up, then at most one lateral hop, then down. */
  ghost predicate ValleyFree(hops: seq<Hop>) {
    exists k, m :: IsSplit(hops, k, m)
  }

  ghost predicate IsSplit(hops: seq<Hop>, k: int, m: int) {
    && 0 <= k <= m <= k + 1 && m <= |hops|
    && (forall i :: 0 <= i < k ==> Up(hops[i]))
    && (forall i :: k <= i < m ==> Lateral(hops[i]))
    && (forall i :: m <= i < |hops| ==> Down(hops[i]))
  }

  lemma FirstNonUp(hops: seq<Hop>) returns (k: nat)
    ensures k <= |hops| && (forall i :: 0 <= i < k ==> Up(hops[i])) && (k < |hops| ==> !Up(hops[k]))
  {
    k := 0;
    while k < |hops| && Up(hops[k])
      invariant k <= |hops| && forall i :: 0 <= i < k ==> Up(hops[i])
    {
      k := k + 1;
    }
  }

  lemma NoLeakIsValleyFree(hops: seq<Hop>)
    requires forall i :: 0 <= i < |hops| ==> Guarded(hops[i])
    ensures NoLeak(hops) <==> ValleyFree(hops)
  {
    if NoLeak(hops) {
      var k := FirstNonUp(hops);
      var m := if k < |hops| && Lateral(hops[k]) then k + 1 else k;
      forall i | m <= i < |hops| ensures Down(hops[i]) {
        if i > k { assert Marks(hops[k]) && Guarded(hops[i]); }
      }
      assert IsSplit(hops, k, m);
    }
    if ValleyFree(hops) {
      var k, m :| IsSplit(hops, k, m);
    }
  }

  /**
   When both ends of every session know their complementary roles, an unmarked exportable
   route crosses the chain if and only if the chain is valley-free and nobody sees it again.
   */
  lemma AcceptedIffValleyFree(hops: seq<Hop>, r: Route)
    requires forall i :: 0 <= i < |hops| ==>
      PlainHop(hops[i]) && hops[i].near.participates && hops[i].far.participates
    requires r.Otc().None?
    ensures Propagate(hops, r).Some? <==> Exportable(r, hops) && ValleyFree(hops) && NoneLooped(hops, r.asPath)
  {
    ChainAcceptsExactly(hops, r);
    assert NoRepeatedSender(hops);
    DistinctSendersNotExcused(hops);
    NoLeakIsValleyFree(hops);
  }

  /** The chain A to B to C to A to D, on which A does not notice its own AS on the path. */
  function ReturningChain(a: Asn, b: Asn, c: Asn, d: Asn): seq<Hop> {
    var off, on := End(false, [], DefaultAccept), End(true, [], DefaultAccept);
    [Hop(a, b, Provider, on, on, true, None),
     Hop(b, c, Provider, on, on, true, None),
     Hop(c, a, Customer, off, off, false, None),
     Hop(a, d, Peer, off, on, true, None)]
  }

  /**
   Why the exception is there: the marked route comes back to the AS that marked it, which
   has no role and no loop check on that session, and then crosses sideways, because the
   receiver there goes by the marker's value alone. Every other AS checks for loops.
   */
  lemma RepeatedSenderLeaks(r: Route, a: Asn, b: Asn, c: Asn, d: Asn)
    requires r.Otc().None? && r.asPath == [] && r.Communities() == []
    requires a != b && a != c && a != d && b != c && b != d && c != d
    ensures var hops := ReturningChain(a, b, c, d);
      Linked(hops) && !NoLeak(hops) && Propagate(hops, r).Some?
  {
    var hops := ReturningChain(a, b, c, d);
    assert Marks(hops[0]) && Guarded(hops[3]) && !Down(hops[3]);
    ReturningMarkers(hops, a);
    forall j | 0 <= j < |hops| ensures !Blocks(hops[j], MarkerFrom(None, hops[..j])) {}
    forall j | 0 <= j < |hops| ensures !LoopAt(hops, [], j) {}
    PlainChain(hops, r);
  }

  lemma ReturningMarkers(hops: seq<Hop>, a: Asn)
    requires |hops| == 4 && Marks(hops[0]) && hops[0].sender == a
    ensures MarkerAfter(hops[..0]) == None
    ensures forall j :: 0 < j <= 4 ==> MarkerAfter(hops[..j]) == Some(a)
  {
  }
}
