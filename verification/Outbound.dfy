/**
 Sending a route: community suppression, the per-session rewriting of its attributes,
 and the split-horizon and confederation rules of the outbound table.
 */
module Outbound {
  import opened Types
  import opened AsPaths
  import opened Policies

  /** Well-known communities (RFC 1997) that forbid advertising to a peer of this type. */
  predicate IsExportSuppressed(communities: seq<Community>, peerType: PeerType) {
    exists i :: 0 <= i < |communities| &&
      var c := communities[i];
      || c == NO_ADVERTISE
      || (c == NO_EXPORT && peerType.External?)
      || (c == NO_EXPORT_SUBCONFED && (peerType.External? || peerType.ConfedMember?))
  }

  /** How this speaker presents itself on one session; an IPv6 speaker may lack an address. */
  datatype Speaker = Speaker(localAs: Asn, publicAs: Asn, address: Option<NextHop>, nextHopSelf: bool)

  /** The attributes a peer of this type must see. */
  function Prepared(r: Route, peerType: PeerType, s: Speaker): Route {
    r.(asPath := match peerType
                 case External => Prepend(StripConfed(r.asPath), s.publicAs)
                 case ConfedMember => PrependConfed(r.asPath, s.localAs)
                 case _ => r.asPath,
       nextHop := if s.address.Some? && (peerType.External? || s.nextHopSelf) then s.address else r.nextHop,
       localPref := if peerType.External? then None else r.localPref)
  }

  method PrepareOutbound(route: Route, peerType: PeerType, s: Speaker) returns (r: Route)
    ensures r == Prepared(route, peerType, s)
  {
    r := route;
    match peerType {
      case External =>
        r := r.(asPath := StripConfed(r.asPath));
        r := r.(asPath := Prepend(r.asPath, s.publicAs));
        if s.address.Some? {
          r := r.(nextHop := s.address);
        }
        r := r.(localPref := None);
      case ConfedMember =>
        r := r.(asPath := PrependConfed(r.asPath, s.localAs));
        if s.nextHopSelf && s.address.Some? {
          r := r.(nextHop := s.address);
        }
      case _ =>
        if s.nextHopSelf && s.address.Some? {
          r := r.(nextHop := s.address);
        }
    }
  }

  /** Internal split horizon: iBGP routes do not go to iBGP peers unless we reflect. */
  predicate SplitHorizon(peerType: PeerType, reflects: bool, r: Route) {
    !reflects && peerType.Internal? && r.peerType.Internal?
  }

  /** A route as the outbound table for a peer of this type keeps it. */
  function Stored(peerType: PeerType, r: Route): Route {
    if peerType.External? then r.(asPath := StripConfed(r.asPath)) else r
  }

  /** After preparation and any export policy, storing strips nothing more. */
  lemma StoredIsPrepared(r: Route, peerType: PeerType, s: Speaker, terms: seq<Term>, default: DefaultAction)
    ensures var out := EvalTerms(terms, Prepared(r, peerType, s), default).1;
            Stored(peerType, out) == out && out.nlri == r.nlri && out.peerType == r.peerType
  {
    var p := Prepared(r, peerType, s);
    EvalFrame(terms, p, default);
    StripEffect(r.asPath);
    PrependEffect(StripConfed(r.asPath), s.publicAs);
    StripEffect(EvalTerms(terms, p, default).1.asPath);
  }

  // ---------- relay chains ----------

  /** One session a route is relayed over, with an optional policy prepend. */
  datatype Relay = Relay(peerType: PeerType, speaker: Speaker, reflects: bool, asn: Asn, times: nat)

  /** The route as the receiver files it, or None when the sender holds it back. */
  function Send(h: Relay, r: Route): Option<Route> {
    var p := Prepared(r, h.peerType, h.speaker);
    var (_, out) := ApplySimple(PrependAsPath(h.asn, h.times), p);
    if IsExportSuppressed(out.Communities(), h.peerType) || SplitHorizon(h.peerType, h.reflects, out) then None
    else Some(Stored(h.peerType, out).(peerType := h.peerType))
  }

  function RelayAll(hops: seq<Relay>, r: Route): Option<Route>
    decreases hops
  {
    if hops == [] then Some(r)
    else
      var next := Send(hops[0], r);
      if next.None? then None else RelayAll(hops[1..], next.value)
  }

  predicate Carries(r: Route, c: Community) { c in r.Communities() }

  /** The hop respects the route's well-known communities. */
  predicate CommunityAllows(r: Route, peerType: PeerType) {
    && !Carries(r, NO_ADVERTISE)
    && (peerType.External? ==> !Carries(r, NO_EXPORT) && !Carries(r, NO_EXPORT_SUBCONFED))
    && (peerType.ConfedMember? ==> !Carries(r, NO_EXPORT_SUBCONFED))
  }

  /** The type of session the route arrived on before hop `i`. */
  function ArrivedOn(hops: seq<Relay>, r: Route, i: nat): PeerType
    requires i <= |hops|
  {
    if i == 0 then r.peerType else hops[i - 1].peerType
  }

  /** Path length added by the chain: one per external hop, plus policy prepends. */
  function Growth(hops: seq<Relay>): nat {
    if hops == [] then 0
    else (if hops[0].peerType.External? then 1 else 0) + hops[0].times + Growth(hops[1..])
  }

  lemma SuppressedIffDisallowed(r: Route, peerType: PeerType)
    ensures IsExportSuppressed(r.Communities(), peerType) <==> !CommunityAllows(r, peerType)
  {
    var cs := r.Communities();
    if !CommunityAllows(r, peerType) {
      var c := if NO_ADVERTISE in cs then NO_ADVERTISE
               else if NO_EXPORT_SUBCONFED in cs && (peerType.External? || peerType.ConfedMember?)
               then NO_EXPORT_SUBCONFED else NO_EXPORT;
      var i :| 0 <= i < |cs| && cs[i] == c;
    }
  }

  function PathBeforeStore(h: Relay, r: Route): AsPath {
    PrependTimes(Prepared(r, h.peerType, h.speaker).asPath, h.asn, h.times)
  }

  lemma PreparedPath(r: Route, peerType: PeerType, s: Speaker) returns (p: AsPath)
    ensures p == Prepared(r, peerType, s).asPath
    ensures PathLength(p) == PathLength(r.asPath) + if peerType.External? then 1 else 0
    ensures SegmentsFit(r.asPath) ==> SegmentsFit(p)
    ensures peerType.External? ==> NoConfed(p)
  {
    p := Prepared(r, peerType, s).asPath;
    match peerType {
      case External =>
        StripEffect(r.asPath);
        PrependEffect(StripConfed(r.asPath), s.publicAs);
      case ConfedMember => PrependConfedEffect(r.asPath, s.localAs);
      case _ =>
    }
  }

  lemma PathEffect(h: Relay, r: Route)
    ensures var p := PathBeforeStore(h, r);
      && PathLength(p) == PathLength(r.asPath) + (if h.peerType.External? then 1 else 0) + h.times
      && (SegmentsFit(r.asPath) ==> SegmentsFit(p))
      && (h.peerType.External? ==> NoConfed(p) && StripConfed(p) == p)
  {
    var p := PreparedPath(r, h.peerType, h.speaker);
    PrependTimesEffect(p, h.asn, h.times);
    StripEffect(PrependTimes(p, h.asn, h.times));
  }

  /** One hop: when it sends, and all it does to the route's path and communities. */
  lemma SendEffect(h: Relay, r: Route)
    ensures Send(h, r).Some? <==> CommunityAllows(r, h.peerType) && !SplitHorizon(h.peerType, h.reflects, r)
    ensures Send(h, r).Some? ==>
      var out := Send(h, r).value;
      && out.Communities() == r.Communities() && out.peerType == h.peerType && out.nlri == r.nlri
      && PathLength(out.asPath) == PathLength(r.asPath) + (if h.peerType.External? then 1 else 0) + h.times
      && (SegmentsFit(r.asPath) ==> SegmentsFit(out.asPath))
      && (h.peerType.External? ==> NoConfed(out.asPath))
      && (h.times == 0 ==> out.asPath == Prepared(r, h.peerType, h.speaker).asPath)
  {
    var out := Prepared(r, h.peerType, h.speaker).(asPath := PathBeforeStore(h, r));
    assert out.Communities() == r.Communities();
    SuppressedIffDisallowed(out, h.peerType);
    PathEffect(h, r);
  }

  /** Every hop is permitted by the route's communities and by internal split horizon. */
  ghost predicate Permitted(hops: seq<Relay>, r: Route) {
    forall i :: 0 <= i < |hops| ==>
      && CommunityAllows(r, hops[i].peerType)
      && (hops[i].peerType.Internal? && ArrivedOn(hops, r, i).Internal? ==> hops[i].reflects)
  }

  lemma PermittedTail(hops: seq<Relay>, r: Route, next: Route)
    requires hops != [] && next.Communities() == r.Communities() && next.peerType == hops[0].peerType
    ensures Permitted(hops, r) <==>
      && CommunityAllows(r, hops[0].peerType) && !SplitHorizon(hops[0].peerType, hops[0].reflects, r)
      && Permitted(hops[1..], next)
  {
    var tail := hops[1..];
    if Permitted(hops, r) {
      forall i | 0 <= i < |tail| ensures CommunityAllows(next, tail[i].peerType)
        && (tail[i].peerType.Internal? && ArrivedOn(tail, next, i).Internal? ==> tail[i].reflects)
      {
        assert tail[i] == hops[i + 1] && ArrivedOn(tail, next, i) == ArrivedOn(hops, r, i + 1);
      }
    }
    if CommunityAllows(r, hops[0].peerType) && !SplitHorizon(hops[0].peerType, hops[0].reflects, r)
       && Permitted(tail, next) {
      forall i | 0 <= i < |hops| ensures CommunityAllows(r, hops[i].peerType)
        && (hops[i].peerType.Internal? && ArrivedOn(hops, r, i).Internal? ==> hops[i].reflects)
      {
        if i > 0 { assert hops[i] == tail[i - 1] && ArrivedOn(tail, next, i - 1) == ArrivedOn(hops, r, i); }
      }
    }
  }

  /**
   A route crosses a chain of sessions exactly when every hop is permitted; it then
   has its communities intact and a path longer by the external hops and the prepends.
   */
  lemma {:induction false} RelayedIffPermitted(hops: seq<Relay>, r: Route)
    ensures RelayAll(hops, r).Some? <==> Permitted(hops, r)
    ensures RelayAll(hops, r).Some? ==>
      var out := RelayAll(hops, r).value;
      && out.Communities() == r.Communities()
      && PathLength(out.asPath) == PathLength(r.asPath) + Growth(hops)
      && (SegmentsFit(r.asPath) ==> SegmentsFit(out.asPath))
    decreases hops
  {
    if hops != [] {
      SendEffect(hops[0], r);
      if Send(hops[0], r).Some? {
        var next := Send(hops[0], r).value;
        PermittedTail(hops, r, next);
        RelayedIffPermitted(hops[1..], next);
      } else {
        assert !Permitted(hops, r) by { assert ArrivedOn(hops, r, 0) == r.peerType; }
      }
    }
  }

  /** Inside one AS or confederation, with no policy prepends. */
  predicate IsInside(h: Relay) {
    !h.peerType.External? && h.times == 0
  }

  lemma {:induction false} InsideHidesNothingPublic(hops: seq<Relay>, r: Route)
    requires forall i :: 0 <= i < |hops| ==> IsInside(hops[i])
    requires RelayAll(hops, r).Some?
    ensures StripConfed(RelayAll(hops, r).value.asPath) == StripConfed(r.asPath)
    decreases hops
  {
    if hops != [] {
      SendEffect(hops[0], r);
      PrependConfedEffect(r.asPath, hops[0].speaker.localAs);
      InsideHidesNothingPublic(hops[1..], Send(hops[0], r).value);
    }
  }

  /**
   Section 4.1 of RFC 5065: however far a route was relayed inside the confederation,
   an external peer sees the path it would have seen from the first member, with one
   public AS added and no confederation segment.
   */
  lemma ConfederationIsInvisible(hops: seq<Relay>, exit: Relay, r: Route)
    requires forall i :: 0 <= i < |hops| ==> IsInside(hops[i])
    requires exit.peerType.External? && exit.times == 0
    requires RelayAll(hops, r).Some? && Send(exit, RelayAll(hops, r).value).Some? && Send(exit, r).Some?
    ensures var far, near := Send(exit, RelayAll(hops, r).value).value, Send(exit, r).value;
            && far.asPath == near.asPath == Prepend(StripConfed(r.asPath), exit.speaker.publicAs)
            && NoConfed(far.asPath)
            && NeighboringAs(far.asPath) == Some(exit.speaker.publicAs)
            && PathLength(far.asPath) == PathLength(r.asPath) + 1
  {
    var inner := RelayAll(hops, r).value;
    InsideHidesNothingPublic(hops, r);
    SendEffect(exit, inner);
    SendEffect(exit, r);
    PrependEffect(StripConfed(r.asPath), exit.speaker.publicAs);
    StripEffect(r.asPath);
  }
}
