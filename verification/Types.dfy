/**
 The values that travel through the routing core: prefixes, peers, AS paths and
 routes. Numeric attributes are compared and copied, never computed with, so the
 fixed-width integers of the implementation are natural numbers here.
 */
module Types {

  datatype Option<+T> = None | Some(value: T)

  type Asn = nat
  type Community = nat
  type LargeCommunity = (nat, nat, nat)

  datatype Nlri = Nlri(addr: nat, len: nat)

  /** A peer is its IP address; every IPv4 address sorts before every IPv6 one. */
  datatype PeerId = PeerV4(v4: nat) | PeerV6(v6: nat)

  datatype NextHop = HopV4(v4: nat) | HopV6(v6: nat)

  datatype Origin = Igp | Egp | Incomplete

  /** How a route was learned, or the kind of session it is sent on. */
  datatype PeerType = Internal | External | Local | ConfedMember

  /** Our role on one eBGP session (section 4 of RFC 9234). */
  datatype Role = Provider | RouteServer | RsClient | Customer | Peer

  const NO_EXPORT: Community := 0xFFFF_FF01
  const NO_ADVERTISE: Community := 0xFFFF_FF02
  const NO_EXPORT_SUBCONFED: Community := 0xFFFF_FF03
  const DEFAULT_LOCAL_PREF: nat := 100

  datatype Segment =
    | Sequence(asns: seq<Asn>)
    | Set(asns: seq<Asn>)
    | ConfedSequence(asns: seq<Asn>)
    | ConfedSet(asns: seq<Asn>)

  type AsPath = seq<Segment>

  /** Attributes most routes lack; `other` stands for the ones nothing here reads. */
  datatype RareAttrs = RareAttrs(
    communities: seq<Community>,
    largeCommunities: seq<LargeCommunity>,
    otc: Option<Asn>,
    other: nat)

  const NO_RARE := RareAttrs([], [], None, 0)

  datatype Route = Route(
    nlri: Nlri,
    origin: Origin,
    asPath: AsPath,
    nextHop: Option<NextHop>,
    localPref: Option<nat>,
    med: Option<nat>,
    peerType: PeerType,
    receivedAt: nat,
    peerBgpId: Option<nat>,
    rare: Option<RareAttrs>,
    stale: bool)
  {
    function RareOrDefault(): RareAttrs {
      if rare.Some? then rare.value else NO_RARE
    }

    function Communities(): seq<Community> {
      RareOrDefault().communities
    }

    function Otc(): Option<Asn> {
      RareOrDefault().otc
    }

    /** Writing an empty list never allocates the rare attributes. */
    function SetCommunities(cs: seq<Community>): Route {
      if cs == [] && rare.None? then this
      else this.(rare := Some(RareOrDefault().(communities := cs)))
    }

    function SetLargeCommunities(cs: seq<LargeCommunity>): Route {
      if cs == [] && rare.None? then this
      else this.(rare := Some(RareOrDefault().(largeCommunities := cs)))
    }

    function SetOtc(value: Option<Asn>): Route {
      if value.None? && rare.None? then this
      else this.(rare := Some(RareOrDefault().(otc := value)))
    }
  }
}
