/**
 Replaying a dump: prefixes grouped by attributes, packed into UPDATE messages and
 written to the peer, with a KEEPALIVE now and then.
 */
module Speaker {
  import opened Types
  import opened Bytes
  import opened Mrt
  import opened Batching
  import opened Wire

  const KEEPALIVE_EVERY := 50

  type Attrs = seq<byte>
  type Groups = map<Attrs, seq<Dest>>

  function DestOf(e: RibEntry): Dest { Dest(e.prefix, e.prefixLen) }

  function Find(g: Groups, a: Attrs): seq<Dest> {
    if a in g then g[a] else []
  }

  function AddTo(g: Groups, e: RibEntry): Groups {
    g[e.attrs := Find(g, e.attrs) + [DestOf(e)]]
  }

  function GroupByAttrs(entries: seq<RibEntry>): Groups {
    if entries == [] then map[]
    else AddTo(GroupByAttrs(entries[..|entries| - 1]), entries[|entries| - 1])
  }

  /** Bytes left for prefixes beside these attributes; never negative. */
  function Room(attrs: Attrs): nat {
    if |attrs| > MAX_MSG_LEN - UPDATE_OVERHEAD then 0 else MAX_MSG_LEN - UPDATE_OVERHEAD - |attrs|
  }

  function BatchesOf(attrs: Attrs, ds: seq<Dest>): seq<Batch> {
    Greedy(ds, Room(attrs))
  }

  /** One message handed to the connection. */
  datatype Write = Update(attrs: Attrs, ds: seq<Dest>) | KeepAlive

  predicate KeepaliveDue(count: nat) { count % KEEPALIVE_EVERY == 0 }

  /** What follows the `count`-th UPDATE when another one for the same attributes is due. */
  function Pause(count: nat): seq<Write> {
    if KeepaliveDue(count) then [KeepAlive] else []
  }

  /** The writes for one attribute set when `count` UPDATEs went out before it. */
  function GroupWrites(attrs: Attrs, bs: seq<Batch>, count: nat): seq<Write>
    decreases bs
  {
    if bs == [] then []
    else if |bs| == 1 then [Update(attrs, bs[0])]
    else [Update(attrs, bs[0])] + Pause(count + 1) + GroupWrites(attrs, bs[1..], count + 1)
  }

  /** The writes for the attribute sets in `order`. */
  function AllWrites(order: seq<Attrs>, g: Groups, count: nat): seq<Write>
    decreases order
  {
    if order == [] then []
    else
      var bs := BatchesOf(order[0], Find(g, order[0]));
      GroupWrites(order[0], bs, count) + AllWrites(order[1..], g, count + |bs|)
  }

  function TotalBatches(order: seq<Attrs>, g: Groups): nat {
    if order == [] then 0
    else |BatchesOf(order[0], Find(g, order[0]))| + TotalBatches(order[1..], g)
  }

  function TotalDests(order: seq<Attrs>, g: Groups): nat {
    if order == [] then 0 else |Find(g, order[0])| + TotalDests(order[1..], g)
  }

  /** `order` walks `keys`, each once. */
  ghost predicate IsOrder(order: seq<Attrs>, keys: set<Attrs>) {
    && (forall i, j :: 0 <= i < j < |order| ==> order[i] != order[j])
    && (forall a :: a in order <==> a in keys)
  }

  ghost predicate Sendable(w: Write) { w.Update? ==> AllEncodable(w.ds) }

  ghost function BytesOf(w: Write): seq<byte>
    requires Sendable(w)
  {
    match w
    case Update(attrs, ds) => UpdateMessage(attrs, ds)
    case KeepAlive => KEEPALIVE
  }

  ghost predicate GroupsEncodable(g: Groups) {
    forall a :: a in g ==> AllEncodable(g[a])
  }

  ghost predicate EntriesEncodable(entries: seq<RibEntry>) {
    forall i :: 0 <= i < |entries| ==> Encodable(DestOf(entries[i]))
  }

  lemma OrderStep(order: seq<Attrs>, keys: set<Attrs>, todo: set<Attrs>, a: Attrs)
    requires IsOrder(order, keys - todo) && a in todo && todo <= keys
    ensures IsOrder(order + [a], keys - (todo - {a}))
  {
  }

  // ---------- the sender ----------

  method Collect(entries: seq<RibEntry>) returns (groups: Groups)
    ensures groups == GroupByAttrs(entries)
  {
    groups := map[];
    for i := 0 to |entries|
      invariant groups == GroupByAttrs(entries[..i])
    {
      var e := entries[i];
      assert entries[..i + 1][..i] == entries[..i];
      groups := groups[e.attrs := Find(groups, e.attrs) + [DestOf(e)]];
    }
    assert entries[..|entries|] == entries;
  }

  lemma {:induction false} GroupsAreEncodable(entries: seq<RibEntry>)
    requires EntriesEncodable(entries)
    ensures GroupsEncodable(GroupByAttrs(entries))
    decreases |entries|
  {
    if entries != [] { GroupsAreEncodable(entries[..|entries| - 1]); }
  }

  method CollectEncodable(entries: seq<RibEntry>) returns (groups: Groups)
    requires EntriesEncodable(entries)
    ensures groups == GroupByAttrs(entries) && GroupsEncodable(groups)
  {
    groups := Collect(entries);
    GroupsAreEncodable(entries);
  }

  datatype AnnounceResult = AnnounceResult(prefixesSent: nat, updatesSent: nat, uniqueAttrSets: nat)

  class BgpSpeaker {
    /** The bytes written to the peer, one element per write. */
    var sent: seq<seq<byte>>
    /** The messages those bytes are. */
    ghost var log: seq<Write>

    ghost predicate Valid()
      reads this
    {
      && |sent| == |log|
      && forall i :: 0 <= i < |log| ==> Sendable(log[i]) && sent[i] == BytesOf(log[i])
    }

    constructor ()
      ensures Valid() && log == []
    {
      sent, log := [], [];
    }

    method SendUpdate(attrs: Attrs, ds: seq<Dest>)
      requires Valid() && AllEncodable(ds)
      modifies this
      ensures Valid() && log == old(log) + [Update(attrs, ds)]
    {
      var msg := WriteUpdate(attrs, ds);
      sent, log := sent + [msg], log + [Update(attrs, ds)];
    }

    method SendKeepalive()
      requires Valid()
      modifies this
      ensures Valid() && log == old(log) + [KeepAlive]
    {
      sent, log := sent + [KEEPALIVE], log + [KeepAlive];
    }

    /** Sends a full batch, and a KEEPALIVE when `count` UPDATEs have now gone out. */
    method Flush(attrs: Attrs, batch: Batch, count: nat)
      requires Valid() && AllEncodable(batch)
      modifies this
      ensures Valid() && log == old(log) + ([Update(attrs, batch)] + Pause(count))
    {
      SendUpdate(attrs, batch);
      if count % KEEPALIVE_EVERY == 0 {
        SendKeepalive();
      }
    }

    /** Packs one attribute set's prefixes greedily and sends them. */
    method SendGroup(attrs: Attrs, ds: seq<Dest>, count: nat) returns (updates: nat, prefixes: nat)
      requires Valid() && AllEncodable(ds)
      modifies this
      ensures Valid() && log == old(log) + GroupWrites(attrs, BatchesOf(attrs, ds), count)
      ensures updates == |BatchesOf(attrs, ds)| && prefixes == |ds|
    {
      var room := Room(attrs);
      var batch: Batch := [];
      var batchBytes := 0;
      updates, prefixes := 0, 0;
      ghost var total := |BatchesOf(attrs, ds)|;
      ghost var all := log + GroupWrites(attrs, BatchesOf(attrs, ds), count);
      assert ds[0..] == ds;
      for i := 0 to |ds|
        invariant Valid()
        invariant batchBytes == BatchSize(batch) && AllEncodable(batch)
        invariant prefixes + |batch| == i && (batch == [] ==> i == 0)
        invariant Packing(log, attrs, batch, ds[i..], room, count, updates, all, total)
      {
        var d := ds[i];
        var size := NlriSize(d);
        assert ds[i..][0] == d && ds[i..][1..] == ds[i + 1..];
        PackStep(log, attrs, batch, ds[i..], room, count, updates, all, total);
        SizeOfGrown(batch, d);
        if batch != [] && batchBytes + size > room {
          Flush(attrs, batch, count + updates + 1);
          updates, prefixes := updates + 1, prefixes + |batch|;
          batch, batchBytes := [d], size;
        } else {
          batch, batchBytes := batch + [d], batchBytes + size;
        }
      }
      PackEnd(log, attrs, batch, room, count, updates, all, total);
      if batch != [] {
        SendUpdate(attrs, batch);
        updates, prefixes := updates + 1, prefixes + |batch|;
      }
    }

    /** Announces every entry; `order` is the order in which the attribute sets were walked. */
    method Announce(entries: seq<RibEntry>) returns (result: AnnounceResult, ghost order: seq<Attrs>)
      requires Valid() && EntriesEncodable(entries)
      modifies this
      ensures Valid()
      ensures IsOrder(order, GroupByAttrs(entries).Keys)
      ensures log == old(log) + AllWrites(order, GroupByAttrs(entries), 0)
      ensures result.prefixesSent == |entries|
      ensures result.updatesSent == TotalBatches(order, GroupByAttrs(entries))
      ensures result.uniqueAttrSets == |GroupByAttrs(entries)|
    {
      var groups := CollectEncodable(entries);
      var prefixes, updates := 0, 0;
      var todo := groups.Keys;
      order := [];
      while todo != {}
        invariant Valid() && todo <= groups.Keys
        invariant IsOrder(order, groups.Keys - todo)
        invariant log == old(log) + AllWrites(order, groups, 0)
        invariant updates == TotalBatches(order, groups) && prefixes == TotalDests(order, groups)
        decreases todo
      {
        var attrs :| attrs in todo;
        var u, p := SendGroup(attrs, groups[attrs], updates);
        AllWritesAppend(order, attrs, groups, 0);
        TotalsAppend(order, attrs, groups);
        Associate(old(log), AllWrites(order, groups, 0),
                  GroupWrites(attrs, BatchesOf(attrs, groups[attrs]), updates));
        OrderStep(order, groups.Keys, todo, attrs);
        todo, order := todo - {attrs}, order + [attrs];
        updates, prefixes := updates + u, prefixes + p;
      }
      assert groups.Keys - todo == groups.Keys;
      TotalIsEntries(order, entries);
      result := AnnounceResult(prefixes, updates, |groups|);
    }
  }

  /**
   With `open` being filled and `ds` to come: what was written, followed by the batches
   still to be sent, makes up `all`, and their number with the UPDATEs sent is `total`.
   */
  ghost predicate Packing(log: seq<Write>, attrs: Attrs, open: Batch, ds: seq<Dest>, room: nat,
                          count: nat, updates: nat, all: seq<Write>, total: nat) {
    && log + GroupWrites(attrs, GreedyFrom(open, ds, room), count + updates) == all
    && updates + |GreedyFrom(open, ds, room)| == total
  }

  lemma SizeOfGrown(batch: Batch, d: Dest)
    ensures BatchSize([d]) == NlriSize(d) && BatchSize(batch + [d]) == BatchSize(batch) + NlriSize(d)
  {
    BatchSizeAppend(batch, [d]);
    assert [d][1..] == [];
  }

  /** One turn of the packing loop: close a batch that has no room for the next prefix, or extend it. */
  lemma PackStep(log: seq<Write>, attrs: Attrs, open: Batch, ds: seq<Dest>, room: nat,
                 count: nat, updates: nat, all: seq<Write>, total: nat)
    requires ds != [] && Packing(log, attrs, open, ds, room, count, updates, all, total)
    ensures if open != [] && BatchSize(open) + NlriSize(ds[0]) > room
            then Packing(log + ([Update(attrs, open)] + Pause(count + updates + 1)), attrs, [ds[0]], ds[1..], room,
                         count, updates + 1, all, total)
            else Packing(log, attrs, open + [ds[0]], ds[1..], room, count, updates, all, total)
  {
    if open != [] && BatchSize(open) + NlriSize(ds[0]) > room {
      var later := GreedyFrom([ds[0]], ds[1..], room);
      GreedyCount([ds[0]], ds[1..], room);
      var bs := [open] + later;
      assert GreedyFrom(open, ds, room) == bs && bs[1..] == later;
      Associate(log, [Update(attrs, open)] + Pause(count + updates + 1),
                GroupWrites(attrs, later, count + updates + 1));
    }
  }

  lemma PackEnd(log: seq<Write>, attrs: Attrs, open: Batch, room: nat,
                count: nat, updates: nat, all: seq<Write>, total: nat)
    requires Packing(log, attrs, open, [], room, count, updates, all, total)
    ensures if open == [] then log == all && updates == total
            else log + [Update(attrs, open)] == all && updates + 1 == total
  {
  }

  lemma {:induction false} TotalsAppend(order: seq<Attrs>, a: Attrs, g: Groups)
    ensures TotalBatches(order + [a], g) == TotalBatches(order, g) + |BatchesOf(a, Find(g, a))|
    ensures TotalDests(order + [a], g) == TotalDests(order, g) + |Find(g, a)|
    decreases order
  {
    var longer := order + [a];
    if order == [] {
      assert longer == [a] && longer[1..] == [];
    } else {
      assert longer[0] == order[0] && longer[1..] == order[1..] + [a];
      TotalsAppend(order[1..], a, g);
    }
  }

  lemma {:induction false} AllWritesAppend(order: seq<Attrs>, a: Attrs, g: Groups, count: nat)
    ensures AllWrites(order + [a], g, count)
         == AllWrites(order, g, count) + GroupWrites(a, BatchesOf(a, Find(g, a)), count + TotalBatches(order, g))
    decreases order
  {
    var longer := order + [a];
    if order == [] {
      assert longer == [a] && longer[1..] == [];
      assert AllWrites(longer, g, count) == GroupWrites(a, BatchesOf(a, Find(g, a)), count) + [];
    } else {
      assert longer[0] == order[0] && longer[1..] == order[1..] + [a];
      var bs := BatchesOf(order[0], Find(g, order[0]));
      AllWritesAppend(order[1..], a, g, count + |bs|);
      Associate(GroupWrites(order[0], bs, count), AllWrites(order[1..], g, count + |bs|),
                GroupWrites(a, BatchesOf(a, Find(g, a)), count + TotalBatches(order, g)));
    }
  }

  // ---------- every entry is delivered once ----------

  /** Prefixes with their attributes put back. */
  function Tagged(attrs: Attrs, ds: seq<Dest>): (es: seq<RibEntry>)
    ensures |es| == |ds| && forall i :: 0 <= i < |ds| ==> es[i] == RibEntry(ds[i].octets, ds[i].len, attrs)
  {
    seq(|ds|, i requires 0 <= i < |ds| => RibEntry(ds[i].octets, ds[i].len, attrs))
  }

  function EntriesFor(attrs: Attrs, ds: seq<Dest>): multiset<RibEntry> {
    multiset(Tagged(attrs, ds))
  }

  lemma TaggedAppend(attrs: Attrs, a: seq<Dest>, b: seq<Dest>)
    ensures Tagged(attrs, a + b) == Tagged(attrs, a) + Tagged(attrs, b)
  {
  }

  function GroupedEntries(order: seq<Attrs>, g: Groups): multiset<RibEntry> {
    if order == [] then multiset{}
    else EntriesFor(order[0], Find(g, order[0])) + GroupedEntries(order[1..], g)
  }

  lemma AddedHere(g: Groups, e: RibEntry)
    ensures EntriesFor(e.attrs, Find(AddTo(g, e), e.attrs)) == EntriesFor(e.attrs, Find(g, e.attrs)) + multiset{e}
    ensures |Find(AddTo(g, e), e.attrs)| == |Find(g, e.attrs)| + 1
  {
    TaggedAppend(e.attrs, Find(g, e.attrs), [DestOf(e)]);
    assert Tagged(e.attrs, [DestOf(e)]) == [e];
  }

  lemma {:induction false} AddedElsewhere(order: seq<Attrs>, g: Groups, e: RibEntry)
    requires e.attrs !in order
    ensures GroupedEntries(order, AddTo(g, e)) == GroupedEntries(order, g)
    ensures TotalDests(order, AddTo(g, e)) == TotalDests(order, g)
    decreases order
  {
    if order != [] { AddedElsewhere(order[1..], g, e); }
  }

  lemma {:induction false} AddedEntry(order: seq<Attrs>, g: Groups, e: RibEntry)
    requires forall i, j :: 0 <= i < j < |order| ==> order[i] != order[j]
    requires e.attrs in order
    ensures GroupedEntries(order, AddTo(g, e)) == GroupedEntries(order, g) + multiset{e}
    ensures TotalDests(order, AddTo(g, e)) == TotalDests(order, g) + 1
    decreases order
  {
    if e.attrs == order[0] {
      AddedHere(g, e);
      AddedElsewhere(order[1..], g, e);
    } else {
      AddedEntry(order[1..], g, e);
      assert Find(AddTo(g, e), order[0]) == Find(g, order[0]);
    }
  }

  lemma {:induction false} EmptyGroups(order: seq<Attrs>)
    ensures GroupedEntries(order, map[]) == multiset{} && TotalDests(order, map[]) == 0
  {
    if order != [] {
      EmptyGroups(order[1..]);
      assert Tagged(order[0], []) == [];
    }
  }

  /** Grouping loses and duplicates nothing. */
  lemma {:induction false} GroupingKeepsEntries(order: seq<Attrs>, entries: seq<RibEntry>)
    requires forall i, j :: 0 <= i < j < |order| ==> order[i] != order[j]
    requires forall e :: e in entries ==> e.attrs in order
    ensures GroupedEntries(order, GroupByAttrs(entries)) == multiset(entries)
    ensures TotalDests(order, GroupByAttrs(entries)) == |entries|
    decreases |entries|
  {
    if entries == [] {
      EmptyGroups(order);
    } else {
      var front, e := entries[..|entries| - 1], entries[|entries| - 1];
      assert entries == front + [e];
      GroupingKeepsEntries(order, front);
      AddedEntry(order, GroupByAttrs(front), e);
    }
  }

  lemma {:induction false} AttrsAreKeys(entries: seq<RibEntry>)
    ensures forall e :: e in entries ==> e.attrs in GroupByAttrs(entries)
    decreases |entries|
  {
    if entries != [] {
      assert entries == entries[..|entries| - 1] + [entries[|entries| - 1]];
      AttrsAreKeys(entries[..|entries| - 1]);
    }
  }

  lemma TotalIsEntries(order: seq<Attrs>, entries: seq<RibEntry>)
    requires IsOrder(order, GroupByAttrs(entries).Keys)
    ensures TotalDests(order, GroupByAttrs(entries)) == |entries|
    ensures GroupedEntries(order, GroupByAttrs(entries)) == multiset(entries)
  {
    AttrsAreKeys(entries);
    GroupingKeepsEntries(order, entries);
  }
}
