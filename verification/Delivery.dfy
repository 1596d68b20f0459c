/** From the dump to the peer: what the written bytes amount to at the other end. */
module Delivery {
  import opened Types
  import opened Bytes
  import opened Mrt
  import opened Batching
  import opened Wire
  import opened Speaker

  /** The entries a receiver reads out of one message. */
  function ReceivedFrom(msg: seq<byte>): multiset<RibEntry> {
    match DecodeUpdate(msg)
    case None => multiset{}
    case Some((attrs, ds)) => EntriesFor(attrs, ds)
  }

  function ReceivedAll(msgs: seq<seq<byte>>): multiset<RibEntry> {
    if msgs == [] then multiset{} else ReceivedFrom(msgs[0]) + ReceivedAll(msgs[1..])
  }

  /** The entries a list of messages was made from. */
  function LogEntries(log: seq<Write>): multiset<RibEntry> {
    if log == [] then multiset{}
    else (if log[0].Update? then EntriesFor(log[0].attrs, log[0].ds) else multiset{}) + LogEntries(log[1..])
  }

  lemma {:induction false} LogEntriesAppend(a: seq<Write>, b: seq<Write>)
    ensures LogEntries(a + b) == LogEntries(a) + LogEntries(b)
    decreases a
  {
    if a == [] {
      assert a + b == b;
    } else {
      assert (a + b)[0] == a[0] && (a + b)[1..] == a[1..] + b;
      LogEntriesAppend(a[1..], b);
    }
  }

  lemma PauseIsEmpty(count: nat)
    ensures LogEntries(Pause(count)) == multiset{}
  {
    assert [KeepAlive][1..] == [];
  }

  lemma UpdateEntries(attrs: Attrs, b: Batch)
    ensures LogEntries([Update(attrs, b)]) == EntriesFor(attrs, b)
  {
    assert [Update(attrs, b)][1..] == [];
  }

  lemma {:induction false} GroupWritesEntries(attrs: Attrs, bs: seq<Batch>, count: nat)
    ensures LogEntries(GroupWrites(attrs, bs, count)) == EntriesFor(attrs, Concat(bs))
    decreases bs
  {
    if bs == [] {
      assert Tagged(attrs, []) == [];
    } else {
      UpdateEntries(attrs, bs[0]);
      TaggedAppend(attrs, bs[0], Concat(bs[1..]));
      if |bs| == 1 {
        assert Concat(bs[1..]) == [] && bs[0] + [] == bs[0];
      } else {
        var head, tail := [Update(attrs, bs[0])] + Pause(count + 1), GroupWrites(attrs, bs[1..], count + 1);
        GroupWritesEntries(attrs, bs[1..], count + 1);
        PauseIsEmpty(count + 1);
        LogEntriesAppend([Update(attrs, bs[0])], Pause(count + 1));
        LogEntriesAppend(head, tail);
      }
    }
  }

  lemma {:induction false} AllWritesEntries(order: seq<Attrs>, g: Groups, count: nat)
    ensures LogEntries(AllWrites(order, g, count)) == GroupedEntries(order, g)
    decreases order
  {
    if order != [] {
      var here, next := FirstGroup(order, g, count);
      LogEntriesAppend(here, AllWrites(order[1..], g, next));
      AllWritesEntries(order[1..], g, next);
    }
  }

  lemma FirstGroup(order: seq<Attrs>, g: Groups, count: nat) returns (here: seq<Write>, next: nat)
    requires order != []
    ensures AllWrites(order, g, count) == here + AllWrites(order[1..], g, next)
    ensures LogEntries(here) == EntriesFor(order[0], Find(g, order[0]))
  {
    here := OneGroup(order[0], Find(g, order[0]), count);
    next := count + |BatchesOf(order[0], Find(g, order[0]))|;
  }

  lemma OneGroup(a: Attrs, ds: seq<Dest>, count: nat) returns (here: seq<Write>)
    ensures here == GroupWrites(a, BatchesOf(a, ds), count)
    ensures LogEntries(here) == EntriesFor(a, ds)
  {
    here := GroupWrites(a, BatchesOf(a, ds), count);
    GreedyPacks([], ds, Room(a));
    assert [] + ds == ds;
    GroupWritesEntries(a, BatchesOf(a, ds), count);
  }

  // ---------- which messages there are ----------

  /** The UPDATEs of a group are its batches, in order. */
  lemma {:induction false} GroupUpdates(attrs: Attrs, bs: seq<Batch>, count: nat, w: Write)
    requires w.Update?
    ensures w in GroupWrites(attrs, bs, count) <==> w.attrs == attrs && w.ds in bs
    decreases bs
  {
    if bs != [] {
      assert bs == [bs[0]] + bs[1..];
      if |bs| > 1 { GroupUpdates(attrs, bs[1..], count + 1, w); }
    }
  }

  lemma {:induction false} AllUpdates(order: seq<Attrs>, g: Groups, count: nat, w: Write)
    requires w.Update?
    ensures w in AllWrites(order, g, count) <==> w.attrs in order && w.ds in BatchesOf(w.attrs, Find(g, w.attrs))
    decreases order
  {
    if order != [] {
      var bs := BatchesOf(order[0], Find(g, order[0]));
      GroupUpdates(order[0], bs, count, w);
      AllUpdates(order[1..], g, count + |bs|, w);
      assert order == [order[0]] + order[1..];
    }
  }

  /** A group's prefixes are those of the entries with its attributes. */
  lemma {:induction false} GroupMembers(entries: seq<RibEntry>, a: Attrs, d: Dest)
    ensures d in Find(GroupByAttrs(entries), a) <==> RibEntry(d.octets, d.len, a) in entries
    decreases |entries|
  {
    if entries != [] {
      var front, e := entries[..|entries| - 1], entries[|entries| - 1];
      assert entries == front + [e];
      GroupMembers(front, a, d);
    }
  }

  lemma BatchMember(a: Attrs, ds: seq<Dest>, b: Batch)
    requires b in BatchesOf(a, ds)
    ensures Packed(b, Room(a)) && forall d :: d in b ==> d in ds
  {
    GreedyPacks([], ds, Room(a));
    assert [] + ds == ds;
    var i :| 0 <= i < |BatchesOf(a, ds)| && BatchesOf(a, ds)[i] == b;
    ConcatHas(BatchesOf(a, ds), i);
  }

  // ---------- message size ----------

  /** The prefix and its attributes fit one message of at most 4096 bytes. */
  predicate FitsAlone(attrs: Attrs, d: Dest) {
    |attrs| + NlriSize(d) <= MAX_MSG_LEN - UPDATE_OVERHEAD
  }

  lemma PackedSize(attrs: Attrs, b: Batch)
    requires Packed(b, Room(attrs))
    requires forall d :: d in b ==> FitsAlone(attrs, d)
    ensures UpdateSize(attrs, b) <= MAX_MSG_LEN
  {
    assert FitsAlone(attrs, b[0]);
    if |b| == 1 { SingleSize(b); }
  }

  lemma SingleSize(b: Batch)
    requires |b| == 1
    ensures BatchSize(b) == NlriSize(b[0])
  {
    assert b[1..] == [] && BatchSize([]) == 0;
  }

  /**
   Every UPDATE of a replay is within 4096 bytes if and only if each entry's attributes
   leave room for its own prefix; the budget check never refuses the first of a batch.
   */
  lemma MessagesFitIffEntriesFit(entries: seq<RibEntry>, order: seq<Attrs>)
    requires IsOrder(order, GroupByAttrs(entries).Keys)
    ensures (forall w :: w in AllWrites(order, GroupByAttrs(entries), 0) && w.Update? ==>
               UpdateSize(w.attrs, w.ds) <= MAX_MSG_LEN)
       <==> (forall e :: e in entries ==> FitsAlone(e.attrs, DestOf(e)))
  {
    var g := GroupByAttrs(entries);
    var all := AllWrites(order, g, 0);
    if forall e :: e in entries ==> FitsAlone(e.attrs, DestOf(e)) {
      forall w | w in all && w.Update? ensures UpdateSize(w.attrs, w.ds) <= MAX_MSG_LEN {
        AllUpdates(order, g, 0, w);
        BatchMember(w.attrs, Find(g, w.attrs), w.ds);
        forall d | d in w.ds ensures FitsAlone(w.attrs, d) {
          GroupMembers(entries, w.attrs, d);
          assert DestOf(RibEntry(d.octets, d.len, w.attrs)) == d;
        }
        PackedSize(w.attrs, w.ds);
      }
    }
    if forall w :: w in all && w.Update? ==> UpdateSize(w.attrs, w.ds) <= MAX_MSG_LEN {
      forall e | e in entries ensures FitsAlone(e.attrs, DestOf(e)) {
        var w := UpdateCarrying(entries, order, e);
        MemberSize(w.ds, DestOf(e));
      }
    }
  }

  /** Each entry travels in some UPDATE with its own attributes. */
  lemma UpdateCarrying(entries: seq<RibEntry>, order: seq<Attrs>, e: RibEntry) returns (w: Write)
    requires IsOrder(order, GroupByAttrs(entries).Keys) && e in entries
    ensures w in AllWrites(order, GroupByAttrs(entries), 0) && w.Update?
    ensures w.attrs == e.attrs && DestOf(e) in w.ds
  {
    var g := GroupByAttrs(entries);
    var ds := Find(g, e.attrs);
    GroupMembers(entries, e.attrs, DestOf(e));
    GreedyPacks([], ds, Room(e.attrs));
    assert [] + ds == ds;
    var i := ConcatFrom(BatchesOf(e.attrs, ds), DestOf(e));
    w := Update(e.attrs, BatchesOf(e.attrs, ds)[i]);
    AttrsAreKeys(entries);
    AllUpdates(order, g, 0, w);
  }

  // ---------- end to end ----------

  /** An UPDATE for this entry alone keeps its sixteen-bit length field exact. */
  predicate LengthFits(e: RibEntry) {
    UPDATE_OVERHEAD + |e.attrs| + NlriSize(DestOf(e)) < 65536
  }

  ghost predicate Deliverable(w: Write) {
    w.Update? ==> AllCanonicalDests(w.ds) && UpdateSize(w.attrs, w.ds) < 65536
  }

  lemma CanonicalDests(ds: seq<Dest>)
    requires AllCanonicalDests(ds)
    ensures AllEncodable(ds)
  {
  }

  lemma WriteArrives(w: Write)
    requires Deliverable(w)
    ensures Sendable(w) && Framed(BytesOf(w))
    ensures ReceivedFrom(BytesOf(w)) == if w.Update? then EntriesFor(w.attrs, w.ds) else multiset{}
  {
    if w.Update? {
      CanonicalDests(w.ds);
      UpdateRoundTrip(w.attrs, w.ds);
      LengthField(w.attrs, w.ds);
    } else {
      assert KEEPALIVE[16] == 0 && KEEPALIVE[17] == 19;
    }
  }

  lemma {:induction false} LogArrives(log: seq<Write>, sent: seq<seq<byte>>)
    requires |sent| == |log|
    requires forall i :: 0 <= i < |log| ==> Deliverable(log[i]) && Sendable(log[i]) && sent[i] == BytesOf(log[i])
    ensures ReceivedAll(sent) == LogEntries(log)
    ensures forall i :: 0 <= i < |sent| ==> Framed(sent[i])
    decreases log
  {
    if log != [] {
      WriteArrives(log[0]);
      LogArrives(log[1..], sent[1..]);
      assert sent == [sent[0]] + sent[1..];
    }
  }

  lemma WriteMembers(entries: seq<RibEntry>, order: seq<Attrs>, w: Write, i: nat)
    requires w in AllWrites(order, GroupByAttrs(entries), 0) && w.Update? && i < |w.ds|
    ensures RibEntry(w.ds[i].octets, w.ds[i].len, w.attrs) in entries
  {
    var g := GroupByAttrs(entries);
    AllUpdates(order, g, 0, w);
    BatchMember(w.attrs, Find(g, w.attrs), w.ds);
    GroupMembers(entries, w.attrs, w.ds[i]);
  }

  lemma WriteFits(entries: seq<RibEntry>, order: seq<Attrs>, w: Write)
    requires forall e :: e in entries ==> LengthFits(e)
    requires w in AllWrites(order, GroupByAttrs(entries), 0) && w.Update?
    ensures UpdateSize(w.attrs, w.ds) < 65536
  {
    AllUpdates(order, GroupByAttrs(entries), 0, w);
    BatchMember(w.attrs, Find(GroupByAttrs(entries), w.attrs), w.ds);
    WriteMembers(entries, order, w, 0);
    assert LengthFits(RibEntry(w.ds[0].octets, w.ds[0].len, w.attrs));
    MemberSize(w.ds, w.ds[0]);
    if |w.ds| == 1 { SingleSize(w.ds); }
  }

  lemma WriteCanonical(entries: seq<RibEntry>, order: seq<Attrs>, w: Write)
    requires forall e :: e in entries ==> Canonical(e)
    requires w in AllWrites(order, GroupByAttrs(entries), 0) && w.Update?
    ensures AllCanonicalDests(w.ds)
  {
    forall i | 0 <= i < |w.ds| ensures CanonicalDest(w.ds[i]) {
      WriteMembers(entries, order, w, i);
      assert Canonical(RibEntry(w.ds[i].octets, w.ds[i].len, w.attrs));
    }
  }

  /** `sent` are the bytes of a replay of `entries`. */
  ghost predicate IsReplay(entries: seq<RibEntry>, order: seq<Attrs>, sent: seq<seq<byte>>) {
    && IsOrder(order, GroupByAttrs(entries).Keys)
    && var log := AllWrites(order, GroupByAttrs(entries), 0);
       |sent| == |log| && forall i :: 0 <= i < |log| ==> Sendable(log[i]) && sent[i] == BytesOf(log[i])
  }

  lemma FittingReplayArrives(entries: seq<RibEntry>, order: seq<Attrs>, sent: seq<seq<byte>>)
    requires IsReplay(entries, order, sent)
    requires forall e :: e in entries ==> Canonical(e) && LengthFits(e)
    ensures Split(Join(sent)) == Some(sent) && ReceivedAll(sent) == multiset(entries)
  {
    var g := GroupByAttrs(entries);
    var log := AllWrites(order, g, 0);
    forall i | 0 <= i < |log| ensures Deliverable(log[i]) {
      if log[i].Update? {
        WriteCanonical(entries, order, log[i]);
        WriteFits(entries, order, log[i]);
      }
    }
    LogArrives(log, sent);
    StreamSplits(sent);
    AllWritesEntries(order, g, 0);
    TotalIsEntries(order, entries);
  }

  lemma WriteLength(w: Write)
    requires Sendable(w)
    ensures |BytesOf(w)| >= 19
  {
    if w.KeepAlive? { assert |KEEPALIVE| == 19; }
  }

  lemma SplittingReplayFits(entries: seq<RibEntry>, order: seq<Attrs>, sent: seq<seq<byte>>, e: RibEntry)
    requires IsReplay(entries, order, sent) && Split(Join(sent)) == Some(sent) && e in entries
    ensures LengthFits(e)
  {
    var log := AllWrites(order, GroupByAttrs(entries), 0);
    forall i | 0 <= i < |sent| ensures |sent[i]| >= 19 { WriteLength(log[i]); }
    SplitOnlyIfFramed(sent);
    var w := UpdateCarrying(entries, order, e);
    var i :| 0 <= i < |log| && log[i] == w;
    assert Framed(sent[i]);
    LengthField(w.attrs, w.ds);
    MemberSize(w.ds, DestOf(e));
  }

  /**
   End to end: the byte stream, cut by its length fields, is the messages written, and
   decoding them gives back the dump's entries each exactly as often as it occurred, if
   and only if every entry's own UPDATE would fit its sixteen-bit length field.
   */
  lemma ReplayDeliversDump(data: seq<byte>, order: seq<Attrs>, sent: seq<seq<byte>>)
    requires ParseStream(data).Parsed? && IsReplay(ParseStream(data).entries, order, sent)
    ensures Split(Join(sent)) == Some(sent) && ReceivedAll(sent) == multiset(ParseStream(data).entries)
       <==> forall e :: e in ParseStream(data).entries ==> LengthFits(e)
  {
    var entries := ParseStream(data).entries;
    ParsedIsCanonical(data);
    if forall e :: e in entries ==> LengthFits(e) {
      FittingReplayArrives(entries, order, sent);
    }
    if Split(Join(sent)) == Some(sent) {
      forall e | e in entries ensures LengthFits(e) {
        SplittingReplayFits(entries, order, sent, e);
      }
    }
  }

  lemma ParsedIsEncodable(data: seq<byte>)
    requires ParseStream(data).Parsed?
    ensures EntriesEncodable(ParseStream(data).entries)
  {
    ParsedIsCanonical(data);
    var entries := ParseStream(data).entries;
    forall i | 0 <= i < |entries| ensures Encodable(DestOf(entries[i])) {
      assert Canonical(entries[i]);
    }
  }

  /** Announces entries on a fresh session and returns the bytes written. */
  method AnnounceAll(entries: seq<RibEntry>) returns (sent: seq<seq<byte>>, ghost order: seq<Attrs>)
    requires EntriesEncodable(entries)
    ensures IsReplay(entries, order, sent)
  {
    var speaker := new BgpSpeaker();
    var result;
    result, order := speaker.Announce(entries);
    sent := speaker.sent;
    assert speaker.log == AllWrites(order, GroupByAttrs(entries), 0);
  }

  /** Parses a dump and replays it. */
  method ReplayDump(data: seq<byte>) returns (parsed: ParseResult, sent: seq<seq<byte>>, ghost order: seq<Attrs>)
    ensures parsed == ParseStream(data)
    ensures if parsed.Parsed? then IsReplay(parsed.entries, order, sent) else sent == []
    ensures parsed.Parsed? && (forall e :: e in parsed.entries ==> LengthFits(e)) ==>
              Split(Join(sent)) == Some(sent) && ReceivedAll(sent) == multiset(parsed.entries)
  {
    parsed := Parse(data);
    if parsed.Parsed? {
      ParsedIsEncodable(data);
      sent, order := AnnounceAll(parsed.entries);
      ReplayDeliversDump(data, order, sent);
    } else {
      sent, order := [], [];
    }
  }

  // ---------- keepalives ----------

  /**
   A KEEPALIVE goes out only between two UPDATEs of one attribute set, when the count
   so far is a multiple of fifty; the last UPDATE of a set never triggers one.
   */
  lemma {:induction false} KeepaliveIff(attrs: Attrs, bs: seq<Batch>, count: nat)
    ensures KeepAlive in GroupWrites(attrs, bs, count)
       <==> exists n :: count < n < count + |bs| && KeepaliveDue(n)
    decreases bs
  {
    if |bs| > 1 {
      KeepaliveIff(attrs, bs[1..], count + 1);
      assert KeepAlive in Pause(count + 1) <==> KeepaliveDue(count + 1);
    }
  }

  lemma FirstSingle(order: seq<Attrs>, g: Groups, count: nat) returns (here: seq<Write>, next: nat)
    requires order != [] && |BatchesOf(order[0], Find(g, order[0]))| <= 1
    ensures AllWrites(order, g, count) == here + AllWrites(order[1..], g, next) && KeepAlive !in here
  {
    var bs := BatchesOf(order[0], Find(g, order[0]));
    here, next := GroupWrites(order[0], bs, count), count + |bs|;
  }

  /** However many UPDATEs a replay sends, one per attribute set means no KEEPALIVE at all. */
  lemma {:induction false} NoKeepaliveForSingles(order: seq<Attrs>, g: Groups, count: nat)
    requires forall a :: a in order ==> |BatchesOf(a, Find(g, a))| <= 1
    ensures KeepAlive !in AllWrites(order, g, count)
    decreases order
  {
    if order != [] {
      var here, next := FirstSingle(order, g, count);
      NoKeepaliveForSingles(order[1..], g, next);
    }
  }

  /** The numbers of the UPDATEs that a KEEPALIVE follows at once, when `count` UPDATEs came before. */
  function Followed(log: seq<Write>, count: nat): set<nat>
    decreases log
  {
    if log == [] then {}
    else if log[0].KeepAlive? then Followed(log[1..], count)
    else (if |log| > 1 && log[1].KeepAlive? then {count + 1} else {}) + Followed(log[1..], count + 1)
  }

  function Keepalives(log: seq<Write>): nat {
    if log == [] then 0 else (if log[0].KeepAlive? then 1 else 0) + Keepalives(log[1..])
  }

  function Updates(log: seq<Write>): nat {
    if log == [] then 0 else (if log[0].Update? then 1 else 0) + Updates(log[1..])
  }

  /** Every KEEPALIVE comes right after an UPDATE. */
  predicate Spaced(log: seq<Write>) {
    log == [] || (log[0].Update? && if |log| > 1 && log[1].KeepAlive? then Spaced(log[2..]) else Spaced(log[1..]))
  }

  lemma {:induction false} FollowedAbove(log: seq<Write>, count: nat, n: nat)
    requires n in Followed(log, count)
    ensures n > count
    decreases log
  {
    if log[0].KeepAlive? { FollowedAbove(log[1..], count, n); }
    else if n != count + 1 { FollowedAbove(log[1..], count + 1, n); }
  }

  /** The numbered UPDATEs account for every KEEPALIVE. */
  lemma {:induction false} FollowedCounts(log: seq<Write>, count: nat)
    requires Spaced(log)
    ensures |Followed(log, count)| == Keepalives(log)
    decreases log
  {
    if log != [] {
      if |log| > 1 && log[1].KeepAlive? {
        assert log[1..][0] == log[1] && log[1..][1..] == log[2..];
        var rest := Followed(log[2..], count + 1);
        FollowedCounts(log[2..], count + 1);
        assert count + 1 !in rest by {
          if count + 1 in rest { FollowedAbove(log[2..], count + 1, count + 1); }
        }
        assert Followed(log, count) == {count + 1} + rest;
      } else {
        FollowedCounts(log[1..], count + 1);
        assert Followed(log, count) == Followed(log[1..], count + 1);
      }
    }
  }

  /** Two logs one after the other, the second not starting with a KEEPALIVE. */
  lemma {:induction false} FollowedAppend(a: seq<Write>, b: seq<Write>, count: nat)
    requires b == [] || b[0].Update?
    ensures Followed(a + b, count) == Followed(a, count) + Followed(b, count + Updates(a))
    decreases a
  {
    if a == [] {
      assert a + b == b;
    } else {
      var ab := a + b;
      assert ab[0] == a[0] && ab[1..] == a[1..] + b;
      assert |a| > 1 ==> ab[1] == a[1];
      FollowedAppend(a[1..], b, if a[0].KeepAlive? then count else count + 1);
    }
  }

  lemma {:induction false} SpacedAppend(a: seq<Write>, b: seq<Write>)
    requires Spaced(a) && Spaced(b)
    ensures Spaced(a + b)
    decreases a
  {
    if a == [] {
      assert a + b == b;
    } else {
      var ab := a + b;
      assert ab[0] == a[0] && ab[1..] == a[1..] + b;
      if |a| > 1 && a[1].KeepAlive? {
        assert ab[1] == a[1] && ab[2..] == a[2..] + b;
        SpacedAppend(a[2..], b);
      } else {
        SpacedAppend(a[1..], b);
      }
    }
  }

  /** One attribute set: exactly the due UPDATEs before its last are followed by a KEEPALIVE. */
  lemma {:induction false} GroupFollowed(attrs: Attrs, bs: seq<Batch>, count: nat, n: nat)
    ensures n in Followed(GroupWrites(attrs, bs, count), count) <==> count < n < count + |bs| && KeepaliveDue(n)
    decreases bs
  {
    if |bs| == 1 {
      assert [Update(attrs, bs[0])][1..] == [];
    } else if |bs| > 1 {
      var u, tail := Update(attrs, bs[0]), GroupWrites(attrs, bs[1..], count + 1);
      GroupFollowed(attrs, bs[1..], count + 1, n);
      GroupSpaced(attrs, bs[1..], count + 1);
      FollowedFirst(u, Pause(count + 1), tail, count);
    }
  }

  lemma FollowedFirst(u: Write, pause: seq<Write>, tail: seq<Write>, count: nat)
    requires u.Update? && (pause == [] || pause == [KeepAlive]) && (tail == [] || tail[0].Update?)
    ensures Followed([u] + pause + tail, count)
         == (if pause == [] then {} else {count + 1}) + Followed(tail, count + 1)
  {
    var all := [u] + pause + tail;
    if pause == [] {
      assert all[1..] == tail;
    } else {
      assert all[1..][0] == KeepAlive && all[1..][1..] == tail;
    }
  }

  lemma {:induction false} GroupSpaced(attrs: Attrs, bs: seq<Batch>, count: nat)
    ensures var log := GroupWrites(attrs, bs, count);
      Updates(log) == |bs| && Spaced(log) && (log == [] || log[0].Update?)
    decreases bs
  {
    if |bs| == 1 {
      assert [Update(attrs, bs[0])][1..] == [];
    } else if |bs| > 1 {
      GroupSpaced(attrs, bs[1..], count + 1);
      SpacedFirst(Update(attrs, bs[0]), Pause(count + 1), GroupWrites(attrs, bs[1..], count + 1));
    }
  }

  lemma SpacedFirst(u: Write, pause: seq<Write>, tail: seq<Write>)
    requires u.Update? && (pause == [] || pause == [KeepAlive]) && (tail == [] || tail[0].Update?) && Spaced(tail)
    ensures Spaced([u] + pause + tail) && Updates([u] + pause + tail) == 1 + Updates(tail)
  {
    var all := [u] + pause + tail;
    if pause == [] {
      assert all[1..] == tail;
    } else {
      assert all[1..][0] == KeepAlive && all[1..][1..] == tail && all[2..] == tail;
    }
  }

  /** The attribute sets in the order of a replay, each with its batches. */
  type Plan = seq<(Attrs, seq<Batch>)>

  function PlanOf(order: seq<Attrs>, g: Groups): Plan {
    if order == [] then [] else [(order[0], BatchesOf(order[0], Find(g, order[0])))] + PlanOf(order[1..], g)
  }

  function PlanWrites(plan: Plan, count: nat): seq<Write>
    decreases plan
  {
    if plan == [] then []
    else GroupWrites(plan[0].0, plan[0].1, count) + PlanWrites(plan[1..], count + |plan[0].1|)
  }

  function PlanTotal(plan: Plan): nat {
    if plan == [] then 0 else |plan[0].1| + PlanTotal(plan[1..])
  }

  lemma {:induction false} ReplayFollowsPlan(order: seq<Attrs>, g: Groups, count: nat)
    ensures AllWrites(order, g, count) == PlanWrites(PlanOf(order, g), count)
    ensures TotalBatches(order, g) == PlanTotal(PlanOf(order, g))
    decreases order
  {
    if order != [] {
      var bs := BatchesOf(order[0], Find(g, order[0]));
      ReplayFollowsPlan(order[1..], g, count + |bs|);
      assert PlanOf(order, g)[0] == (order[0], bs) && PlanOf(order, g)[1..] == PlanOf(order[1..], g);
    }
  }

  /** The numbers of the attribute sets' last UPDATEs. */
  function LastNumbers(plan: Plan, count: nat): set<nat>
    decreases plan
  {
    if plan == [] then {}
    else
      var k := |plan[0].1|;
      (if k > 0 then {count + k} else {}) + LastNumbers(plan[1..], count + k)
  }

  lemma {:induction false} LastNumbersRange(plan: Plan, count: nat, n: nat)
    requires n in LastNumbers(plan, count)
    ensures count < n <= count + PlanTotal(plan)
    decreases plan
  {
    var k := |plan[0].1|;
    if !(k > 0 && n == count + k) { LastNumbersRange(plan[1..], count + k, n); }
  }

  lemma {:induction false} PlanSpaced(plan: Plan, count: nat)
    ensures Spaced(PlanWrites(plan, count))
    decreases plan
  {
    if plan != [] {
      var k := |plan[0].1|;
      GroupSpaced(plan[0].0, plan[0].1, count);
      PlanSpaced(plan[1..], count + k);
      SpacedAppend(GroupWrites(plan[0].0, plan[0].1, count), PlanWrites(plan[1..], count + k));
    }
  }

  /**
   A KEEPALIVE follows exactly those UPDATEs whose number is a multiple of fifty and that
   are not the last of their attribute set.
   */
  lemma {:induction false} PlanFollowed(plan: Plan, count: nat, n: nat)
    ensures n in Followed(PlanWrites(plan, count), count)
       <==> count < n <= count + PlanTotal(plan) && KeepaliveDue(n) && n !in LastNumbers(plan, count)
    decreases plan
  {
    if plan != [] {
      var here, k := FirstOfPlan(plan, count, n);
      PlanSpaced(plan[1..], count + k);
      FollowedAppend(here, PlanWrites(plan[1..], count + k), count);
      PlanFollowed(plan[1..], count + k, n);
      if n in LastNumbers(plan[1..], count + k) { LastNumbersRange(plan[1..], count + k, n); }
    }
  }

  /** The first attribute set's writes. */
  lemma FirstOfPlan(plan: Plan, count: nat, n: nat) returns (here: seq<Write>, k: nat)
    requires plan != []
    ensures PlanWrites(plan, count) == here + PlanWrites(plan[1..], count + k) && k == |plan[0].1|
    ensures n in Followed(here, count) <==> count < n < count + k && KeepaliveDue(n)
    ensures Updates(here) == k
  {
    here, k := GroupWrites(plan[0].0, plan[0].1, count), |plan[0].1|;
    GroupFollowed(plan[0].0, plan[0].1, count, n);
    GroupSpaced(plan[0].0, plan[0].1, count);
  }

  /** Where the KEEPALIVEs of a whole replay are, and that there are no others. */
  lemma KeepalivesExactly(order: seq<Attrs>, g: Groups, n: nat)
    ensures var log := AllWrites(order, g, 0);
      && (n in Followed(log, 0)
          <==> 0 < n <= TotalBatches(order, g) && KeepaliveDue(n) && n !in LastNumbers(PlanOf(order, g), 0))
      && Keepalives(log) == |Followed(log, 0)|
  {
    var plan := PlanOf(order, g);
    ReplayFollowsPlan(order, g, 0);
    PlanFollowed(plan, 0, n);
    PlanSpaced(plan, 0);
    FollowedCounts(PlanWrites(plan, 0), 0);
  }

  /**
   A KEEPALIVE follows every fiftieth UPDATE of a replay if and only if no attribute set's
   last UPDATE has a number that is a multiple of fifty.
   */
  lemma CadenceIff(order: seq<Attrs>, g: Groups)
    ensures (forall n :: 0 < n <= TotalBatches(order, g) && KeepaliveDue(n) ==> n in Followed(AllWrites(order, g, 0), 0))
       <==> (forall n :: n in LastNumbers(PlanOf(order, g), 0) ==> !KeepaliveDue(n))
  {
    var log, last := AllWrites(order, g, 0), LastNumbers(PlanOf(order, g), 0);
    forall n: nat ensures n in Followed(log, 0) <==> 0 < n <= TotalBatches(order, g) && KeepaliveDue(n) && n !in last {
      KeepalivesExactly(order, g, n);
    }
    forall n: nat | n in last ensures 0 < n <= TotalBatches(order, g) {
      ReplayFollowsPlan(order, g, 0);
      LastNumbersRange(PlanOf(order, g), 0, n);
    }
  }

  // ---------- inputs that miss the bounds ----------

  predicate DistinctAttrs(es: seq<RibEntry>) {
    forall i, j :: 0 <= i < j < |es| ==> es[i].attrs != es[j].attrs
  }

  function AttrsOf(es: seq<RibEntry>): (order: seq<Attrs>)
    ensures |order| == |es| && forall i :: 0 <= i < |es| ==> order[i] == es[i].attrs
  {
    seq(|es|, i requires 0 <= i < |es| => es[i].attrs)
  }

  lemma NoneYet(es: seq<RibEntry>, a: Attrs)
    requires forall i :: 0 <= i < |es| ==> es[i].attrs != a
    ensures Find(GroupByAttrs(es), a) == []
  {
    var ds := Find(GroupByAttrs(es), a);
    if ds != [] {
      GroupMembers(es, a, ds[0]);
      assert false;
    }
  }

  lemma {:induction false} GroupOfOne(es: seq<RibEntry>, i: nat)
    requires DistinctAttrs(es) && i < |es|
    ensures Find(GroupByAttrs(es), es[i].attrs) == [DestOf(es[i])]
    decreases |es|
  {
    var front := es[..|es| - 1];
    if i == |es| - 1 {
      NoneYet(front, es[i].attrs);
    } else {
      GroupOfOne(front, i);
    }
  }

  lemma OneBatch(a: Attrs, d: Dest)
    ensures BatchesOf(a, [d]) == [[d]]
  {
    assert [d][1..] == [] && [] + [d] == [d];
    assert GreedyFrom([d], [], Room(a)) == [[d]];
  }

  lemma {:induction false} SinglesTotal(order: seq<Attrs>, g: Groups)
    requires forall a :: a in order ==> |BatchesOf(a, Find(g, a))| == 1
    ensures TotalBatches(order, g) == |order|
  {
    if order != [] { SinglesTotal(order[1..], g); }
  }

  lemma AttrsInOrder(es: seq<RibEntry>)
    requires DistinctAttrs(es)
    ensures IsOrder(AttrsOf(es), GroupByAttrs(es).Keys)
  {
    AttrsAreKeys(es);
    forall a ensures a in AttrsOf(es) <==> a in GroupByAttrs(es).Keys {
      if a in AttrsOf(es) {
        var i :| 0 <= i < |es| && AttrsOf(es)[i] == a;
        assert es[i] in es;
      }
    }
  }

  /** A dump whose entries all differ in their attributes is replayed without one KEEPALIVE. */
  lemma DistinctAttrsNeverPause(es: seq<RibEntry>)
    requires DistinctAttrs(es)
    ensures IsOrder(AttrsOf(es), GroupByAttrs(es).Keys)
    ensures TotalBatches(AttrsOf(es), GroupByAttrs(es)) == |es|
    ensures KeepAlive !in AllWrites(AttrsOf(es), GroupByAttrs(es), 0)
  {
    var order, g := AttrsOf(es), GroupByAttrs(es);
    AttrsInOrder(es);
    forall a | a in order ensures |BatchesOf(a, Find(g, a))| == 1 {
      var i :| 0 <= i < |es| && order[i] == a;
      GroupOfOne(es, i);
      OneBatch(a, DestOf(es[i]));
    }
    SinglesTotal(order, g);
    NoKeepaliveForSingles(order, g, 0);
  }

  /** The default route `n` times, the attributes of the `i`-th being the one byte `i`. */
  function Numbered(n: nat): (es: seq<RibEntry>)
    requires n <= 256
    ensures |es| == n && forall i :: 0 <= i < n ==> es[i] == RibEntry(Zeros(4), 0, [i])
  {
    seq(n, i requires 0 <= i < n => RibEntry(Zeros(4), 0, [i]))
  }

  lemma NumberedDiffer(n: nat)
    requires n <= 256
    ensures DistinctAttrs(Numbered(n))
  {
    var es := Numbered(n);
    forall i, j | 0 <= i < j < n ensures es[i].attrs != es[j].attrs {
      assert es[i].attrs[0] == i && es[j].attrs[0] == j;
    }
  }

  /** Fifty UPDATEs, the last of them due for a KEEPALIVE, and none is sent. */
  lemma CadenceMissed() returns (es: seq<RibEntry>)
    ensures es == Numbered(50) && IsOrder(AttrsOf(es), GroupByAttrs(es).Keys)
    ensures TotalBatches(AttrsOf(es), GroupByAttrs(es)) == 50 && KeepaliveDue(50)
    ensures KeepAlive !in AllWrites(AttrsOf(es), GroupByAttrs(es), 0)
  {
    es := Numbered(50);
    NumberedDiffer(50);
    DistinctAttrsNeverPause(es);
  }

  /** One entry with 4073 bytes of attributes, for the default route, is sent in 4097 bytes. */
  lemma OversizedUpdate()
    ensures var e := RibEntry(Zeros(4), 0, Zeros(4073));
      && Canonical(e) && IsOrder([e.attrs], GroupByAttrs([e]).Keys)
      && AllWrites([e.attrs], GroupByAttrs([e]), 0) == [Update(e.attrs, [DestOf(e)])]
      && UpdateSize(e.attrs, [DestOf(e)]) == MAX_MSG_LEN + 1
  {
    var e := RibEntry(Zeros(4), 0, Zeros(4073));
    var g := GroupByAttrs([e]);
    assert AttrsOf([e]) == [e.attrs];
    AttrsInOrder([e]);
    GroupOfOne([e], 0);
    OneBatch(e.attrs, DestOf(e));
    assert AllWrites([], g, 1) == [] && [e.attrs][1..] == [];
    SingleSize([DestOf(e)]);
  }
}
