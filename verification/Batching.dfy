/**
 Packing one attribute set's prefixes into UPDATE messages: the greedy loop's
 batches, and why no other way of cutting the list needs fewer.
 */
module Batching {
  import opened Bytes

  /** An IPv4 prefix: its four octets and its length in bits. */
  datatype Dest = Dest(octets: seq<byte>, len: nat)

  type Batch = seq<Dest>

  function NlriSize(d: Dest): nat { 1 + OctetsFor(d.len) }

  function BatchSize(b: Batch): nat {
    if b == [] then 0 else NlriSize(b[0]) + BatchSize(b[1..])
  }

  lemma {:induction false} BatchSizeAppend(a: Batch, b: Batch)
    ensures BatchSize(a + b) == BatchSize(a) + BatchSize(b)
  {
    if a == [] {
      assert a + b == b;
    } else {
      assert (a + b)[0] == a[0] && (a + b)[1..] == a[1..] + b;
      BatchSizeAppend(a[1..], b);
    }
  }

  function Concat(bs: seq<Batch>): Batch {
    if bs == [] then [] else bs[0] + Concat(bs[1..])
  }

  /** The batches still to be sent with `open` being filled and `ds` to come. */
  function GreedyFrom(open: Batch, ds: seq<Dest>, room: nat): seq<Batch>
    decreases ds
  {
    if ds == [] then (if open == [] then [] else [open])
    else if open != [] && BatchSize(open) + NlriSize(ds[0]) > room
    then [open] + GreedyFrom([ds[0]], ds[1..], room)
    else GreedyFrom(open + [ds[0]], ds[1..], room)
  }

  function Greedy(ds: seq<Dest>, room: nat): seq<Batch> {
    GreedyFrom([], ds, room)
  }

  /** A batch respects the budget, unless a single prefix is already too large. */
  predicate Packed(b: Batch, room: nat) {
    b != [] && (BatchSize(b) <= room || |b| == 1)
  }

  /** The batches keep every prefix in order, and overrun the budget only by a lone prefix. */
  lemma {:induction false} GreedyPacks(open: Batch, ds: seq<Dest>, room: nat)
    requires open == [] || Packed(open, room)
    ensures Concat(GreedyFrom(open, ds, room)) == open + ds
    ensures forall i :: 0 <= i < |GreedyFrom(open, ds, room)| ==> Packed(GreedyFrom(open, ds, room)[i], room)
    decreases ds
  {
    if ds == [] {
      assert open + ds == open;
      if open != [] { assert Concat([open]) == open + Concat([]); }
    } else {
      var d, rest := ds[0], ds[1..];
      assert ds == [d] + rest;
      BatchSizeAppend(open, [d]);
      assert BatchSize([d]) == NlriSize(d) by { assert [d][1..] == []; }
      if open != [] && BatchSize(open) + NlriSize(d) > room {
        GreedyPacks([d], rest, room);
        var out := GreedyFrom([d], rest, room);
        assert ([open] + out)[1..] == out;
      } else {
        GreedyPacks(open + [d], rest, room);
        assert open + [d] + rest == open + ds;
      }
    }
  }

  // ---------- fewest batches ----------

  ghost predicate EachFits(ds: seq<Dest>, room: nat) {
    forall i :: 0 <= i < |ds| ==> NlriSize(ds[i]) <= room
  }

  /** How many further batches the loop opens when `used` bytes of the current one are taken. */
  function Reopened(used: nat, ds: seq<Dest>, room: nat): nat
    decreases ds
  {
    if ds == [] then 0
    else if used + NlriSize(ds[0]) > room then 1 + Reopened(NlriSize(ds[0]), ds[1..], room)
    else Reopened(used + NlriSize(ds[0]), ds[1..], room)
  }

  lemma {:induction false} GreedyCount(open: Batch, ds: seq<Dest>, room: nat)
    requires open != []
    ensures |GreedyFrom(open, ds, room)| == 1 + Reopened(BatchSize(open), ds, room)
    decreases ds
  {
    if ds != [] {
      BatchSizeAppend(open, [ds[0]]);
      assert BatchSize([ds[0]]) == NlriSize(ds[0]) by { assert [ds[0]][1..] == []; }
      if BatchSize(open) + NlriSize(ds[0]) > room {
        GreedyCount([ds[0]], ds[1..], room);
      } else {
        GreedyCount(open + [ds[0]], ds[1..], room);
      }
    }
  }

  /** A fuller batch never helps, and costs at most one more. */
  lemma {:induction false} ReopenedBounds(a: nat, b: nat, ds: seq<Dest>, room: nat)
    ensures a <= b ==> Reopened(a, ds, room) <= Reopened(b, ds, room)
    ensures Reopened(b, ds, room) <= 1 + Reopened(a, ds, room)
    decreases ds
  {
    if ds != [] {
      var s, rest := NlriSize(ds[0]), ds[1..];
      ReopenedBounds(a + s, b + s, rest, room);
      ReopenedBounds(s, a + s, rest, room);
      ReopenedBounds(a + s, s, rest, room);
      ReopenedBounds(s, b + s, rest, room);
    }
  }

  /** A run that fits is absorbed without opening a batch. */
  lemma {:induction false} ReopenedAbsorbs(used: nat, run: Batch, rest: seq<Dest>, room: nat)
    requires used + BatchSize(run) <= room
    ensures Reopened(used, run + rest, room) == Reopened(used + BatchSize(run), rest, room)
    decreases run
  {
    if run == [] {
      assert run + rest == rest;
    } else {
      assert (run + rest)[0] == run[0] && (run + rest)[1..] == run[1..] + rest;
      ReopenedAbsorbs(used + NlriSize(run[0]), run[1..], rest, room);
    }
  }

  /** `bs` cuts `ds` into non-empty in-order runs within the budget. */
  ghost predicate IsCut(bs: seq<Batch>, ds: seq<Dest>, room: nat) {
    Concat(bs) == ds && forall i :: 0 <= i < |bs| ==> bs[i] != [] && BatchSize(bs[i]) <= room
  }

  lemma {:induction false} AnyCutReopens(bs: seq<Batch>, ds: seq<Dest>, room: nat)
    requires IsCut(bs, ds, room) && ds != []
    ensures 1 + Reopened(0, ds, room) <= |bs|
    decreases bs
  {
    var run, tail := bs[0], bs[1..];
    var rest := Concat(tail);
    ReopenedAbsorbs(0, run, rest, room);
    if rest == [] {
      assert run + rest == run;
    } else {
      assert IsCut(tail, rest, room);
      AnyCutReopens(tail, rest, room);
      ReopenedBounds(0, BatchSize(run), rest, room);
    }
  }

  /** When any cut within the budget exists, the greedy one is within it too, and none has fewer runs. */
  lemma GreedyIsFewest(ds: seq<Dest>, room: nat, bs: seq<Batch>)
    requires IsCut(bs, ds, room)
    ensures IsCut(Greedy(ds, room), ds, room)
    ensures |Greedy(ds, room)| <= |bs|
  {
    var out := Greedy(ds, room);
    CutFits(bs, ds, room);
    GreedyPacks([], ds, room);
    assert [] + ds == ds;
    forall i | 0 <= i < |out| ensures BatchSize(out[i]) <= room {
      if |out[i]| == 1 {
        ConcatHas(out, i);
        assert out[i][0] in ds;
        assert out[i][1..] == [];
      }
    }
    if ds != [] {
      assert [] + [ds[0]] == [ds[0]];
      GreedyCount([ds[0]], ds[1..], room);
      assert BatchSize([ds[0]]) == NlriSize(ds[0]) by { assert [ds[0]][1..] == []; }
      AnyCutReopens(bs, ds, room);
    }
  }

  /** Whatever some cut fits, fits on its own. */
  lemma CutFits(bs: seq<Batch>, ds: seq<Dest>, room: nat)
    requires IsCut(bs, ds, room)
    ensures EachFits(ds, room)
  {
    forall i | 0 <= i < |ds| ensures NlriSize(ds[i]) <= room {
      var j := ConcatFrom(bs, ds[i]);
      MemberSize(bs[j], ds[i]);
    }
  }

  lemma {:induction false} MemberSize(b: Batch, d: Dest)
    requires d in b
    ensures NlriSize(d) <= BatchSize(b)
  {
    if d != b[0] { MemberSize(b[1..], d); }
  }

  lemma {:induction false} ConcatHas(bs: seq<Batch>, i: nat)
    requires i < |bs|
    ensures forall d :: d in bs[i] ==> d in Concat(bs)
  {
    if i > 0 {
      ConcatHas(bs[1..], i - 1);
      assert bs[1..][i - 1] == bs[i];
    }
  }

  lemma {:induction false} ConcatFrom(bs: seq<Batch>, d: Dest) returns (i: nat)
    requires d in Concat(bs)
    ensures i < |bs| && d in bs[i]
    decreases bs
  {
    if d in bs[0] {
      i := 0;
    } else {
      var j := ConcatFrom(bs[1..], d);
      i := j + 1;
    }
  }
}
