/**
 Sending a buffer of decisions: withdrawals first, then announcements grouped by their path
 attributes in the order in which the groups were opened. The order in which the decisions
 were taken is lost, and this module says exactly when that matters.
 */
module Flush {
  import opened Types
  import opened Bytes
  import A = AdjRibOut

  /** The path attributes of an announcement as a four-byte peer sees them. */
  datatype Attrs = Attrs(
    origin: Origin,
    asPath: AsPath,
    nextHop: Option<nat>,
    localPref: Option<nat>,
    med: Option<nat>,
    communities: seq<Community>,
    largeCommunities: seq<LargeCommunity>,
    otc: Option<Asn>,
    other: nat)

  function AttributesOf(r: Route, peerType: PeerType): Attrs {
    var rare := r.RareOrDefault();
    Attrs(r.origin, r.asPath,
          match r.nextHop case Some(HopV4(h)) => Some(h) case _ => None,
          r.localPref,
          if peerType.External? then None else r.med,
          rare.communities, rare.largeCommunities, rare.otc, rare.other)
  }

  /** What the far end holds: it sees attributes, never our routes. */
  type Remote = map<Nlri, Attrs>

  function At(m: Remote, n: Nlri): Option<Attrs> {
    if n in m then Some(m[n]) else None
  }

  predicate Names(d: A.PrefixDecision, n: Nlri) {
    match d
    case Announce(r) => r.nlri == n
    case WithdrawPrefix(m) => m == n
    case NoChange => false
  }

  predicate Announces(d: A.PrefixDecision, a: Attrs, peerType: PeerType) {
    d.Announce? && AttributesOf(d.route, peerType) == a
  }

  // ---------- what is sent ----------

  function Withdrawn(ds: seq<A.PrefixDecision>): seq<Nlri> {
    if ds == [] then []
    else
      var d := ds[|ds| - 1];
      Withdrawn(ds[..|ds| - 1]) + if d.WithdrawPrefix? then [d.nlri] else []
  }

  /** The attribute sets announced, in the order of their first announcement. */
  function Keys(ds: seq<A.PrefixDecision>, peerType: PeerType): seq<Attrs> {
    if ds == [] then []
    else
      var d, ks := ds[|ds| - 1], Keys(ds[..|ds| - 1], peerType);
      if d.Announce? && AttributesOf(d.route, peerType) !in ks then ks + [AttributesOf(d.route, peerType)] else ks
  }

  /** The prefixes announced with one attribute set, in order. */
  function NlrisOf(ds: seq<A.PrefixDecision>, a: Attrs, peerType: PeerType): seq<Nlri> {
    if ds == [] then []
    else
      var d := ds[|ds| - 1];
      NlrisOf(ds[..|ds| - 1], a, peerType) + if Announces(d, a, peerType) then [d.route.nlri] else []
  }

  type Group = (Attrs, seq<Nlri>)

  function Groups(ds: seq<A.PrefixDecision>, peerType: PeerType): (gs: seq<Group>)
    ensures |gs| == |Keys(ds, peerType)|
    ensures forall i :: 0 <= i < |gs| ==> gs[i] == (Keys(ds, peerType)[i], NlrisOf(ds, Keys(ds, peerType)[i], peerType))
  {
    var ks := Keys(ds, peerType);
    seq(|ks|, i requires 0 <= i < |ks| => (ks[i], NlrisOf(ds, ks[i], peerType)))
  }

  function RemoveAll(m: Remote, ns: seq<Nlri>): Remote {
    m - (set n | n in ns)
  }

  function SetAll(m: Remote, ns: seq<Nlri>, a: Attrs): Remote {
    map n | n in m.Keys + (set x | x in ns) :: if n in ns then a else m[n]
  }

  function SetGroups(m: Remote, gs: seq<Group>): Remote
    decreases gs
  {
    if gs == [] then m else SetGroups(SetAll(m, gs[0].1, gs[0].0), gs[1..])
  }

  /** The far end's table after a flush of `ds`. */
  function Deliver(m: Remote, ds: seq<A.PrefixDecision>, peerType: PeerType): Remote {
    SetGroups(RemoveAll(m, Withdrawn(ds)), Groups(ds, peerType))
  }

  // ---------- the messages ----------

  datatype Message = Message(withdrawn: seq<Nlri>, attrs: Option<Attrs>, announced: seq<Nlri>)

  function ReceiveMessage(m: Remote, msg: Message): Remote {
    var kept := RemoveAll(m, msg.withdrawn);
    if msg.attrs.Some? then SetAll(kept, msg.announced, msg.attrs.value) else kept
  }

  function ReceiveMessages(m: Remote, msgs: seq<Message>): Remote
    decreases msgs
  {
    if msgs == [] then m else ReceiveMessages(ReceiveMessage(m, msgs[0]), msgs[1..])
  }

  lemma {:induction false} ReceiveAppend(m: Remote, a: seq<Message>, b: seq<Message>)
    ensures ReceiveMessages(m, a + b) == ReceiveMessages(ReceiveMessages(m, a), b)
    decreases a
  {
    if a == [] {
      assert a + b == b;
    } else {
      assert (a + b)[0] == a[0] && (a + b)[1..] == a[1..] + b;
      ReceiveAppend(ReceiveMessage(m, a[0]), a[1..], b);
    }
  }

  function Concat(bs: seq<seq<Nlri>>): seq<Nlri> {
    if bs == [] then [] else bs[0] + Concat(bs[1..])
  }

  lemma {:induction false} ConcatSnoc(bs: seq<seq<Nlri>>, b: seq<Nlri>)
    ensures Concat(bs + [b]) == Concat(bs) + b
  {
    if bs == [] {
      assert bs + [b] == [b] && [b][1..] == [];
    } else {
      assert (bs + [b])[0] == bs[0] && (bs + [b])[1..] == bs[1..] + [b];
      ConcatSnoc(bs[1..], b);
    }
  }

  const UPDATE_OVERHEAD: nat := 23

  function NlriSize(n: Nlri): nat { 1 + OctetsFor(n.len) }

  function Size(ns: seq<Nlri>, each: Nlri -> nat): nat {
    if ns == [] then 0 else Size(ns[..|ns| - 1], each) + each(ns[|ns| - 1])
  }

  /** Cuts a list into messages: non-empty runs, within the limit unless a prefix alone exceeds it. */
  ghost predicate Packed(bs: seq<seq<Nlri>>, ns: seq<Nlri>, each: Nlri -> nat, base: nat, maxLen: nat) {
    && Concat(bs) == ns
    && forall i :: 0 <= i < |bs| ==> Fits(bs[i], each, base, maxLen)
  }

  predicate Fits(b: seq<Nlri>, each: Nlri -> nat, base: nat, maxLen: nat) {
    b != [] && (|b| == 1 || base + Size(b, each) <= maxLen)
  }

  lemma PackedSnoc(bs: seq<seq<Nlri>>, done: seq<Nlri>, batch: seq<Nlri>, each: Nlri -> nat,
                   base: nat, maxLen: nat)
    requires Packed(bs, done, each, base, maxLen) && Fits(batch, each, base, maxLen)
    ensures Packed(bs + [batch], done + batch, each, base, maxLen)
  {
    ConcatSnoc(bs, batch);
    var more := bs + [batch];
    forall i | 0 <= i < |more| ensures Fits(more[i], each, base, maxLen) {
      if i < |bs| { assert more[i] == bs[i]; }
    }
  }

  method Pack(ns: seq<Nlri>, each: Nlri -> nat, base: nat, maxLen: nat) returns (bs: seq<seq<Nlri>>)
    ensures Packed(bs, ns, each, base, maxLen)
  {
    bs := [];
    var batch: seq<Nlri>, size := [], base;
    ghost var done: seq<Nlri> := [];
    for i := 0 to |ns|
      invariant Packing(bs, done, batch, ns[..i], each, base, maxLen) && size == base + Size(batch, each)
    {
      assert ns[..i + 1] == ns[..i] + [ns[i]];
      var n := ns[i];
      PackStep(bs, done, batch, ns[..i], n, each, base, maxLen);
      if batch != [] && size + each(n) > maxLen {
        bs, done := bs + [batch], done + batch;
        batch, size := [n], base + each(n);
      } else {
        batch, size := batch + [n], size + each(n);
      }
    }
    assert ns[..|ns|] == ns;
    if batch != [] {
      PackedSnoc(bs, done, batch, each, base, maxLen);
      bs := bs + [batch];
    }
  }

  /** The batches closed so far hold `done`, and `batch` the rest of `ns`. */
  ghost predicate Packing(bs: seq<seq<Nlri>>, done: seq<Nlri>, batch: seq<Nlri>, ns: seq<Nlri>, each: Nlri -> nat,
                          base: nat, maxLen: nat) {
    && Packed(bs, done, each, base, maxLen) && done + batch == ns
    && (batch == [] || Fits(batch, each, base, maxLen))
  }

  lemma PackStep(bs: seq<seq<Nlri>>, done: seq<Nlri>, batch: seq<Nlri>, ns: seq<Nlri>, n: Nlri, each: Nlri -> nat,
                 base: nat, maxLen: nat)
    requires Packing(bs, done, batch, ns, each, base, maxLen)
    ensures Size([n], each) == each(n) && Size(batch + [n], each) == Size(batch, each) + each(n)
    ensures if batch != [] && base + Size(batch, each) + each(n) > maxLen
            then Packing(bs + [batch], done + batch, [n], ns + [n], each, base, maxLen)
            else Packing(bs, done, batch + [n], ns + [n], each, base, maxLen)
  {
    SizeSnoc(batch, n, each);
    SizeSnoc([], n, each);
    assert [] + [n] == [n];
    if batch != [] && base + Size(batch, each) + each(n) > maxLen {
      PackedSnoc(bs, done, batch, each, base, maxLen);
    } else {
      Associate(done, batch, [n]);
    }
  }

  lemma SizeSnoc(ns: seq<Nlri>, n: Nlri, each: Nlri -> nat)
    ensures Size(ns + [n], each) == Size(ns, each) + each(n)
  {
    assert (ns + [n])[..|ns|] == ns;
  }

  function WithdrawMessages(bs: seq<seq<Nlri>>): (msgs: seq<Message>)
    ensures |msgs| == |bs| && forall i :: 0 <= i < |bs| ==> msgs[i] == Message(bs[i], None, [])
  {
    seq(|bs|, i requires 0 <= i < |bs| => Message(bs[i], None, []))
  }

  function AnnounceMessages(bs: seq<seq<Nlri>>, a: Attrs): (msgs: seq<Message>)
    ensures |msgs| == |bs| && forall i :: 0 <= i < |bs| ==> msgs[i] == Message([], Some(a), bs[i])
  {
    seq(|bs|, i requires 0 <= i < |bs| => Message([], Some(a), bs[i]))
  }

  /** However the withdrawals are cut, their effect is that of the whole list. */
  lemma {:induction false} WithdrawMessagesEffect(m: Remote, bs: seq<seq<Nlri>>)
    ensures ReceiveMessages(m, WithdrawMessages(bs)) == RemoveAll(m, Concat(bs))
    decreases bs
  {
    if bs != [] {
      assert WithdrawMessages(bs)[1..] == WithdrawMessages(bs[1..]);
      WithdrawMessagesEffect(RemoveAll(m, bs[0]), bs[1..]);
      assert RemoveAll(RemoveAll(m, bs[0]), Concat(bs[1..])) == RemoveAll(m, Concat(bs));
    } else {
      assert m - {} == m;
    }
  }

  lemma SetAllTwice(m: Remote, x: seq<Nlri>, y: seq<Nlri>, a: Attrs)
    ensures SetAll(SetAll(m, x, a), y, a) == SetAll(m, x + y, a)
  {
    var once, twice := SetAll(m, x + y, a), SetAll(SetAll(m, x, a), y, a);
    assert once.Keys == twice.Keys;
  }

  lemma {:induction false} AnnounceMessagesEffect(m: Remote, bs: seq<seq<Nlri>>, a: Attrs)
    ensures ReceiveMessages(m, AnnounceMessages(bs, a)) == SetAll(m, Concat(bs), a)
    decreases bs
  {
    if bs != [] {
      var m' := SetAll(m, bs[0], a);
      assert AnnounceMessages(bs, a)[1..] == AnnounceMessages(bs[1..], a);
      assert RemoveAll(m, []) == m;
      AnnounceMessagesEffect(m', bs[1..], a);
      SetAllTwice(m, bs[0], Concat(bs[1..]), a);
    } else {
      assert SetAll(m, [], a) == m;
    }
  }

  /** The decision added to the groups: to the one with its attributes, or to a new last one. */
  function AddToGroups(gs: seq<Group>, d: A.PrefixDecision, peerType: PeerType): seq<Group>
    requires d.Announce?
  {
    var a := AttributesOf(d.route, peerType);
    if exists k :: 0 <= k < |gs| && gs[k].0 == a then
      seq(|gs|, k requires 0 <= k < |gs| => if gs[k].0 == a then (a, gs[k].1 + [d.route.nlri]) else gs[k])
    else gs + [(a, [d.route.nlri])]
  }

  lemma {:induction false} UnannouncedIsEmpty(ds: seq<A.PrefixDecision>, a: Attrs, peerType: PeerType)
    requires a !in Keys(ds, peerType)
    ensures NlrisOf(ds, a, peerType) == []
    decreases |ds|
  {
    if ds != [] { UnannouncedIsEmpty(ds[..|ds| - 1], a, peerType); }
  }

  lemma GroupsStep(ds: seq<A.PrefixDecision>, d: A.PrefixDecision, peerType: PeerType)
    ensures Groups(ds + [d], peerType) == if d.Announce? then AddToGroups(Groups(ds, peerType), d, peerType) else Groups(ds, peerType)
    ensures Withdrawn(ds + [d]) == Withdrawn(ds) + if d.WithdrawPrefix? then [d.nlri] else []
  {
    var more, gs := ds + [d], Groups(ds, peerType);
    assert more[..|more| - 1] == ds;
    if !d.Announce? {
      forall k | 0 <= k < |gs| ensures Groups(more, peerType)[k] == gs[k] {
        NlrisStep(ds, d, Keys(more, peerType)[k], peerType);
      }
    } else if AttributesOf(d.route, peerType) in Keys(ds, peerType) {
      GroupExtended(ds, d, peerType);
    } else {
      GroupOpened(ds, d, peerType);
    }
  }

  lemma GroupExtended(ds: seq<A.PrefixDecision>, d: A.PrefixDecision, peerType: PeerType)
    requires d.Announce? && AttributesOf(d.route, peerType) in Keys(ds, peerType)
    ensures Groups(ds + [d], peerType) == AddToGroups(Groups(ds, peerType), d, peerType)
  {
    var a, gs := AttributesOf(d.route, peerType), Groups(ds, peerType);
    var out, sum := Groups(ds + [d], peerType), AddToGroups(gs, d, peerType);
    assert (ds + [d])[..|ds|] == ds;
    GroupFound(ds, a, peerType);
    assert Keys(ds + [d], peerType) == Keys(ds, peerType);
    forall k | 0 <= k < |gs| ensures out[k] == sum[k] {
      NlrisStep(ds, d, Keys(ds, peerType)[k], peerType);
      assert gs[k].0 == Keys(ds, peerType)[k];
      assert sum[k] == if gs[k].0 == a then (a, gs[k].1 + [d.route.nlri]) else gs[k];
    }
  }

  lemma GroupOpened(ds: seq<A.PrefixDecision>, d: A.PrefixDecision, peerType: PeerType)
    requires d.Announce? && AttributesOf(d.route, peerType) !in Keys(ds, peerType)
    ensures Groups(ds + [d], peerType) == AddToGroups(Groups(ds, peerType), d, peerType)
  {
    var a, gs := AttributesOf(d.route, peerType), Groups(ds, peerType);
    var out := Groups(ds + [d], peerType);
    assert (ds + [d])[..|ds|] == ds;
    GroupFound(ds, a, peerType);
    UnannouncedIsEmpty(ds, a, peerType);
    assert Keys(ds + [d], peerType) == Keys(ds, peerType) + [a];
    NlrisStep(ds, d, a, peerType);
    assert NlrisOf(ds + [d], a, peerType) == [] + [d.route.nlri] == [d.route.nlri];
    assert out[|gs|] == (a, [d.route.nlri]);
    forall k | 0 <= k < |gs| ensures out[k] == gs[k] {
      NlrisStep(ds, d, Keys(ds, peerType)[k], peerType);
      assert Keys(ds, peerType)[k] in Keys(ds, peerType);
    }
  }

  lemma GroupFound(ds: seq<A.PrefixDecision>, a: Attrs, peerType: PeerType)
    ensures (exists k :: 0 <= k < |Groups(ds, peerType)| && Groups(ds, peerType)[k].0 == a) <==> a in Keys(ds, peerType)
  {
    if a in Keys(ds, peerType) {
      var k :| 0 <= k < |Keys(ds, peerType)| && Keys(ds, peerType)[k] == a;
      assert Groups(ds, peerType)[k].0 == a;
    }
  }

  lemma NlrisStep(ds: seq<A.PrefixDecision>, d: A.PrefixDecision, b: Attrs, peerType: PeerType)
    ensures NlrisOf(ds + [d], b, peerType)
         == if Announces(d, b, peerType) then NlrisOf(ds, b, peerType) + [d.route.nlri] else NlrisOf(ds, b, peerType)
  {
    assert (ds + [d])[..|ds|] == ds;
    assert NlrisOf(ds, b, peerType) + [] == NlrisOf(ds, b, peerType);
  }

  /** Sorts a buffer into withdrawals and groups of announcements. */
  method Sort(ds: seq<A.PrefixDecision>, peerType: PeerType) returns (withdrawals: seq<Nlri>, groups: seq<Group>)
    ensures withdrawals == Withdrawn(ds) && groups == Groups(ds, peerType)
  {
    withdrawals, groups := [], [];
    for i := 0 to |ds|
      invariant withdrawals == Withdrawn(ds[..i]) && groups == Groups(ds[..i], peerType)
    {
      GroupsStep(ds[..i], ds[i], peerType);
      assert ds[..i] + [ds[i]] == ds[..i + 1];
      match ds[i] {
        case WithdrawPrefix(n) => withdrawals := withdrawals + [n];
        case Announce(r) => groups := AddToGroups(groups, ds[i], peerType);
        case NoChange =>
      }
    }
    assert ds[..|ds|] == ds;
  }

  /** Sends a buffer: what the far end makes of the messages is the delivery of the whole. */
  method FlushUpdates(ds: seq<A.PrefixDecision>, peerType: PeerType, maxLen: nat, attrLen: Attrs -> nat,
                      ghost m: Remote)
    returns (msgs: seq<Message>)
    ensures ReceiveMessages(m, msgs) == Deliver(m, ds, peerType)
  {
    var withdrawals, groups := Sort(ds, peerType);
    var bs := Pack(withdrawals, NlriSize, UPDATE_OVERHEAD, maxLen);
    msgs := WithdrawMessages(bs);
    WithdrawMessagesEffect(m, bs);
    assert groups[0..] == groups;
    for i := 0 to |groups|
      invariant SetGroups(ReceiveMessages(m, msgs), groups[i..]) == Deliver(m, ds, peerType)
    {
      var a := groups[i].0;
      bs := Pack(groups[i].1, NlriSize, UPDATE_OVERHEAD + attrLen(a), maxLen);
      assert groups[i..][0] == groups[i] && groups[i..][1..] == groups[i + 1..];
      AnnounceMessagesEffect(ReceiveMessages(m, msgs), bs, a);
      ReceiveAppend(m, msgs, AnnounceMessages(bs, a));
      msgs := msgs + AnnounceMessages(bs, a);
    }
  }

  // ---------- one prefix ----------

  function GroupsAt(v: Option<Attrs>, gs: seq<Group>, n: Nlri): Option<Attrs>
    decreases gs
  {
    if gs == [] then v else GroupsAt(if n in gs[0].1 then Some(gs[0].0) else v, gs[1..], n)
  }

  lemma {:induction false} SetGroupsAt(m: Remote, gs: seq<Group>, n: Nlri)
    ensures At(SetGroups(m, gs), n) == GroupsAt(At(m, n), gs, n)
    decreases gs
  {
    if gs != [] { SetGroupsAt(SetAll(m, gs[0].1, gs[0].0), gs[1..], n); }
  }

  /** What a flush leaves the far end with for one prefix. */
  function DeliverAt(v: Option<Attrs>, ds: seq<A.PrefixDecision>, n: Nlri, peerType: PeerType): Option<Attrs> {
    GroupsAt(if n in Withdrawn(ds) then None else v, Groups(ds, peerType), n)
  }

  lemma DeliverIsPointwise(m: Remote, ds: seq<A.PrefixDecision>, n: Nlri, peerType: PeerType)
    ensures At(Deliver(m, ds, peerType), n) == DeliverAt(At(m, n), ds, n, peerType)
  {
    SetGroupsAt(RemoveAll(m, Withdrawn(ds)), Groups(ds, peerType), n);
  }

  function Naming(ds: seq<A.PrefixDecision>, n: Nlri): seq<A.PrefixDecision> {
    if ds == [] then [] else (if Names(ds[0], n) then [ds[0]] else []) + Naming(ds[1..], n)
  }

  lemma {:induction false} NamingAppend(a: seq<A.PrefixDecision>, b: seq<A.PrefixDecision>, n: Nlri)
    ensures Naming(a + b, n) == Naming(a, n) + Naming(b, n)
  {
    if a == [] {
      assert a + b == b;
    } else {
      assert (a + b)[0] == a[0] && (a + b)[1..] == a[1..] + b;
      NamingAppend(a[1..], b, n);
    }
  }

  lemma {:induction false} NamingMembers(ds: seq<A.PrefixDecision>, n: Nlri, d: A.PrefixDecision)
    ensures d in Naming(ds, n) <==> d in ds && Names(d, n)
  {
    if ds != [] { NamingMembers(ds[1..], n, d); }
  }

  function ValueOf(d: A.PrefixDecision, peerType: PeerType): Option<Attrs> {
    if d.Announce? then Some(AttributesOf(d.route, peerType)) else None
  }

  /** What the decisions, applied in the order they were taken, leave the far end with for one prefix. */
  function InOrderAt(v: Option<Attrs>, ds: seq<A.PrefixDecision>, n: Nlri, peerType: PeerType): Option<Attrs> {
    var named := Naming(ds, n);
    if named == [] then v else ValueOf(named[|named| - 1], peerType)
  }

  lemma InOrderAppend(v: Option<Attrs>, a: seq<A.PrefixDecision>, b: seq<A.PrefixDecision>, n: Nlri, peerType: PeerType)
    ensures InOrderAt(v, a + b, n, peerType) == InOrderAt(InOrderAt(v, a, n, peerType), b, n, peerType)
  {
    NamingAppend(a, b, n);
  }

  // ---------- when the order is lost ----------

  /** The position of the first announcement with these attributes, of whatever prefix. */
  function FirstOf(ds: seq<A.PrefixDecision>, a: Attrs, peerType: PeerType): nat {
    if ds == [] then 0 else if Announces(ds[0], a, peerType) then 0 else 1 + FirstOf(ds[1..], a, peerType)
  }

  /**
   The order of the decisions about `n` survives the flush: the last one is a withdrawal
   and none announces it, or the last one is an announcement whose attribute group was
   opened no earlier than that of any other announcement of `n`.
   */
  ghost predicate Harmless(ds: seq<A.PrefixDecision>, n: Nlri, peerType: PeerType) {
    var named := Naming(ds, n);
    named != [] ==>
      match named[|named| - 1]
      case Announce(last) =>
        forall d :: d in named && d.Announce? ==>
          FirstOf(ds, AttributesOf(d.route, peerType), peerType) <= FirstOf(ds, AttributesOf(last, peerType), peerType)
      case _ => forall d :: d in named ==> !d.Announce?
  }

  lemma {:induction false} FirstOfSnoc(ds: seq<A.PrefixDecision>, d: A.PrefixDecision, a: Attrs, peerType: PeerType)
    ensures FirstOf(ds, a, peerType) <= |ds|
    ensures FirstOf(ds + [d], a, peerType)
         == if FirstOf(ds, a, peerType) < |ds| then FirstOf(ds, a, peerType)
            else if Announces(d, a, peerType) then |ds| else |ds| + 1
  {
    if ds == [] {
      assert ds + [d] == [d] && [d][1..] == [];
    } else {
      assert (ds + [d])[0] == ds[0] && (ds + [d])[1..] == ds[1..] + [d];
      FirstOfSnoc(ds[1..], d, a, peerType);
    }
  }

  /** An attribute set is a key exactly when it was announced, and the keys are in order of first announcement. */
  lemma {:induction false} KeysOrdered(ds: seq<A.PrefixDecision>, peerType: PeerType)
    ensures forall a :: a in Keys(ds, peerType) <==> FirstOf(ds, a, peerType) < |ds|
    ensures forall i, j :: 0 <= i < j < |Keys(ds, peerType)| ==>
              FirstOf(ds, Keys(ds, peerType)[i], peerType) < FirstOf(ds, Keys(ds, peerType)[j], peerType)
    decreases |ds|
  {
    if ds != [] {
      var front, d := ds[..|ds| - 1], ds[|ds| - 1];
      assert ds == front + [d];
      KeysOrdered(front, peerType);
      forall a ensures FirstOf(ds, a, peerType)
        == if FirstOf(front, a, peerType) < |front| then FirstOf(front, a, peerType)
           else if Announces(d, a, peerType) then |front| else |ds|
      {
        FirstOfSnoc(front, d, a, peerType);
      }
    }
  }

  lemma {:induction false} NlrisOfMembers(ds: seq<A.PrefixDecision>, a: Attrs, peerType: PeerType, n: Nlri)
    ensures n in NlrisOf(ds, a, peerType) <==> exists d :: d in ds && Announces(d, a, peerType) && d.route.nlri == n
    decreases |ds|
  {
    if ds != [] {
      var front, d := ds[..|ds| - 1], ds[|ds| - 1];
      assert ds == front + [d];
      NlrisOfMembers(front, a, peerType, n);
    }
  }

  lemma {:induction false} WithdrawnMembers(ds: seq<A.PrefixDecision>, n: Nlri)
    ensures n in Withdrawn(ds) <==> A.WithdrawPrefix(n) in ds
    decreases |ds|
  {
    if ds != [] {
      assert ds == ds[..|ds| - 1] + [ds[|ds| - 1]];
      WithdrawnMembers(ds[..|ds| - 1], n);
    }
  }

  /** The last group that holds the prefix decides. */
  lemma {:induction false} LastGroupDecides(v: Option<Attrs>, gs: seq<Group>, n: Nlri)
    ensures (forall i :: 0 <= i < |gs| ==> n !in gs[i].1) ==> GroupsAt(v, gs, n) == v
    ensures forall k :: 0 <= k < |gs| && n in gs[k].1 && (forall i :: k < i < |gs| ==> n !in gs[i].1) ==>
              GroupsAt(v, gs, n) == Some(gs[k].0)
    decreases gs
  {
    if gs != [] {
      LastGroupDecides(if n in gs[0].1 then Some(gs[0].0) else v, gs[1..], n);
      forall k | 0 <= k < |gs| && n in gs[k].1 && (forall i :: k < i < |gs| ==> n !in gs[i].1)
        ensures GroupsAt(v, gs, n) == Some(gs[k].0)
      {
        if k > 0 { assert gs[1..][k - 1] == gs[k]; }
      }
    }
  }

  /** The announcement of `n` whose group was opened last is what arrives. */
  lemma LatestGroupArrives(v: Option<Attrs>, ds: seq<A.PrefixDecision>, n: Nlri, peerType: PeerType, d: A.PrefixDecision)
    requires d in Naming(ds, n) && d.Announce?
    requires forall e :: e in Naming(ds, n) && e.Announce? ==>
      FirstOf(ds, AttributesOf(e.route, peerType), peerType) <= FirstOf(ds, AttributesOf(d.route, peerType), peerType)
    ensures DeliverAt(v, ds, n, peerType) == Some(AttributesOf(d.route, peerType))
  {
    var gs, ks, a := Groups(ds, peerType), Keys(ds, peerType), AttributesOf(d.route, peerType);
    KeysOrdered(ds, peerType);
    NamingMembers(ds, n, d);
    AnnouncedHasKey(ds, d, peerType);
    var k :| 0 <= k < |ks| && ks[k] == a;
    NlrisOfMembers(ds, a, peerType, n);
    forall i | k < i < |gs| ensures n !in gs[i].1 {
      NlrisOfMembers(ds, ks[i], peerType, n);
      if n in gs[i].1 {
        var e :| e in ds && Announces(e, ks[i], peerType) && e.route.nlri == n;
        NamingMembers(ds, n, e);
      }
    }
    LastGroupDecides(if n in Withdrawn(ds) then None else v, gs, n);
  }

  lemma AnnouncedHasKey(ds: seq<A.PrefixDecision>, d: A.PrefixDecision, peerType: PeerType)
    requires d in ds && d.Announce?
    ensures AttributesOf(d.route, peerType) in Keys(ds, peerType)
  {
    KeysOrdered(ds, peerType);
    FirstIsEarly(ds, d, peerType);
  }

  lemma {:induction false} FirstIsEarly(ds: seq<A.PrefixDecision>, d: A.PrefixDecision, peerType: PeerType)
    requires d in ds && d.Announce?
    ensures FirstOf(ds, AttributesOf(d.route, peerType), peerType) < |ds|
  {
    if d != ds[0] { FirstIsEarly(ds[1..], d, peerType); }
  }

  /** Some announcement of `n` has the latest-opened group. */
  lemma LatestExists(ds: seq<A.PrefixDecision>, named: seq<A.PrefixDecision>, peerType: PeerType) returns (d: A.PrefixDecision)
    requires exists e :: e in named && e.Announce?
    ensures d in named && d.Announce?
    ensures forall e :: e in named && e.Announce? ==>
      FirstOf(ds, AttributesOf(e.route, peerType), peerType) <= FirstOf(ds, AttributesOf(d.route, peerType), peerType)
  {
    d :| d in named && d.Announce?;
    for i := 0 to |named|
      invariant d in named && d.Announce?
      invariant forall e :: e in named[..i] && e.Announce? ==>
        FirstOf(ds, AttributesOf(e.route, peerType), peerType) <= FirstOf(ds, AttributesOf(d.route, peerType), peerType)
    {
      var e := named[i];
      if e.Announce? && FirstOf(ds, AttributesOf(e.route, peerType), peerType) > FirstOf(ds, AttributesOf(d.route, peerType), peerType) {
        d := e;
      }
    }
    assert named[..|named|] == named;
  }

  /** Attribute sets opened at the same position are the same. */
  lemma {:induction false} FirstIsInjective(ds: seq<A.PrefixDecision>, a: Attrs, b: Attrs, peerType: PeerType)
    requires FirstOf(ds, a, peerType) == FirstOf(ds, b, peerType) < |ds|
    ensures a == b
  {
    if !Announces(ds[0], a, peerType) { FirstIsInjective(ds[1..], a, b, peerType); }
  }

  lemma NoAnnouncementArrives(v: Option<Attrs>, ds: seq<A.PrefixDecision>, n: Nlri, peerType: PeerType)
    requires forall d :: d in Naming(ds, n) ==> !d.Announce?
    ensures DeliverAt(v, ds, n, peerType) == if Naming(ds, n) == [] then v else None
  {
    var gs, ks := Groups(ds, peerType), Keys(ds, peerType);
    forall i | 0 <= i < |gs| ensures n !in gs[i].1 {
      NlrisOfMembers(ds, ks[i], peerType, n);
      if n in gs[i].1 {
        var e :| e in ds && Announces(e, ks[i], peerType) && e.route.nlri == n;
        NamingMembers(ds, n, e);
      }
    }
    LastGroupDecides(if n in Withdrawn(ds) then None else v, gs, n);
    WithdrawnMembers(ds, n);
    NamingMembers(ds, n, A.WithdrawPrefix(n));
    if Naming(ds, n) != [] {
      var d := Naming(ds, n)[0];
      NamingMembers(ds, n, d);
      assert d == A.WithdrawPrefix(n);
    }
  }

  /**
   A flush leaves the far end with what the decisions in their own order would have left,
   for a prefix, if and only if the order of the decisions about it survives.
   */
  lemma OrderSurvivesIff(v: Option<Attrs>, ds: seq<A.PrefixDecision>, n: Nlri, peerType: PeerType)
    ensures DeliverAt(v, ds, n, peerType) == InOrderAt(v, ds, n, peerType) <==> Harmless(ds, n, peerType)
  {
    var named := Naming(ds, n);
    if exists e :: e in named && e.Announce? {
      var d := LatestExists(ds, named, peerType);
      LatestGroupArrives(v, ds, n, peerType, d);
      var last := named[|named| - 1];
      if last.Announce? && AttributesOf(last.route, peerType) != AttributesOf(d.route, peerType) {
        NamingMembers(ds, n, d);
        FirstIsEarly(ds, d, peerType);
        if FirstOf(ds, AttributesOf(last.route, peerType), peerType) == FirstOf(ds, AttributesOf(d.route, peerType), peerType) {
          FirstIsInjective(ds, AttributesOf(last.route, peerType), AttributesOf(d.route, peerType), peerType);
        }
      }
    } else {
      NoAnnouncementArrives(v, ds, n, peerType);
      if named != [] { NamingMembers(ds, n, named[|named| - 1]); }
    }
  }

  /** A prefix decided on at most once is safe. */
  lemma OnceIsHarmless(ds: seq<A.PrefixDecision>, n: Nlri, peerType: PeerType)
    requires |Naming(ds, n)| <= 1
    ensures Harmless(ds, n, peerType)
  {
  }

  // ---------- inputs that lose the order ----------

  /** An announcement and its withdrawal in one buffer: the far end keeps the route. */
  lemma BurstKeepsWithdrawnRoute(r: Route, peerType: PeerType)
    ensures var ds := [A.Announce(r), A.WithdrawPrefix(r.nlri)];
      && DeliverAt(None, ds, r.nlri, peerType) == Some(AttributesOf(r, peerType))
      && InOrderAt(None, ds, r.nlri, peerType) == None
  {
    var ds := [A.Announce(r), A.WithdrawPrefix(r.nlri)];
    assert ds[1..] == [A.WithdrawPrefix(r.nlri)] && ds[1..][1..] == [];
    assert Naming(ds[1..], r.nlri) == [A.WithdrawPrefix(r.nlri)];
    assert Naming(ds, r.nlri) == [A.Announce(r), A.WithdrawPrefix(r.nlri)];
    LatestGroupArrives(None, ds, r.nlri, peerType, A.Announce(r));
  }

  /** Another prefix opened the newer attributes first: the far end ends up with the older ones. */
  lemma OlderGroupWins(other: Route, older: Route, newer: Route, peerType: PeerType)
    requires other.nlri != older.nlri == newer.nlri
    requires AttributesOf(other, peerType) == AttributesOf(newer, peerType) != AttributesOf(older, peerType)
    ensures var ds := [A.Announce(other), A.Announce(older), A.Announce(newer)];
      && DeliverAt(None, ds, older.nlri, peerType) == Some(AttributesOf(older, peerType))
      && InOrderAt(None, ds, older.nlri, peerType) == Some(AttributesOf(newer, peerType))
  {
    var ds, n := [A.Announce(other), A.Announce(older), A.Announce(newer)], older.nlri;
    assert ds[1..] == [A.Announce(older), A.Announce(newer)] && ds[1..][1..] == [A.Announce(newer)];
    assert ds[1..][1..][1..] == [];
    assert Naming([A.Announce(newer)], n) == [A.Announce(newer)];
    assert Naming(ds[1..], n) == [A.Announce(older), A.Announce(newer)];
    assert Naming(ds, n) == [A.Announce(older), A.Announce(newer)];
    assert FirstOf(ds, AttributesOf(newer, peerType), peerType) == 0;
    LatestGroupArrives(None, ds, n, peerType, A.Announce(older));
  }
}
