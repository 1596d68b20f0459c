/** UPDATE framing (sections 4.1 and 4.3 of RFC 4271) and its inverse. */
module Wire {
  import opened Types
  import opened Bytes
  import opened Batching

  const MARKER: seq<byte> := [255, 255, 255, 255, 255, 255, 255, 255, 255, 255, 255, 255, 255, 255, 255, 255]
  const KEEPALIVE: seq<byte> := MARKER + [0, 19, 4]
  const UPDATE_OVERHEAD := 23
  const MAX_MSG_LEN := 4096

  predicate Encodable(d: Dest) { |d.octets| == 4 && d.len <= 32 }

  ghost predicate AllEncodable(ds: seq<Dest>) {
    forall i :: 0 <= i < |ds| ==> Encodable(ds[i])
  }

  /** No bit set beyond the significant octets, so none is lost on the wire. */
  ghost predicate CanonicalDest(d: Dest) {
    Encodable(d) && forall i :: OctetsFor(d.len) <= i < 4 ==> d.octets[i] == 0
  }

  ghost predicate AllCanonicalDests(ds: seq<Dest>) {
    forall i :: 0 <= i < |ds| ==> CanonicalDest(ds[i])
  }

  function EncodeNlri(d: Dest): (bs: seq<byte>)
    requires Encodable(d)
    ensures |bs| == NlriSize(d)
  {
    [d.len] + d.octets[..OctetsFor(d.len)]
  }

  ghost function EncodeNlris(ds: seq<Dest>): (bs: seq<byte>)
    requires AllEncodable(ds)
    ensures |bs| == BatchSize(ds)
  {
    if ds == [] then [] else EncodeNlri(ds[0]) + EncodeNlris(ds[1..])
  }

  method WriteNlris(ds: seq<Dest>) returns (out: seq<byte>)
    requires AllEncodable(ds)
    ensures out == EncodeNlris(ds)
  {
    out := [];
    for i := 0 to |ds|
      invariant out + EncodeNlris(ds[i..]) == EncodeNlris(ds)
    {
      var byteCount := OctetsFor(ds[i].len);
      ghost var before, tail := out, EncodeNlris(ds[i + 1..]);
      assert ds[i..][0] == ds[i] && ds[i..][1..] == ds[i + 1..];
      assert EncodeNlris(ds[i..]) == EncodeNlri(ds[i]) + tail;
      out := out + [ds[i].len];
      out := out + ds[i].octets[..byteCount];
      assert out == before + EncodeNlri(ds[i]);
      Associate(before, EncodeNlri(ds[i]), tail);
    }
  }

  /** The prefixes of an NLRI field, or None when it is malformed. */
  function DecodeNlris(bs: seq<byte>): Option<seq<Dest>>
    decreases |bs|
  {
    if bs == [] then Some([])
    else
      var k := OctetsFor(bs[0]);
      if bs[0] > 32 || 1 + k > |bs| then None
      else
        var rest := DecodeNlris(bs[1 + k..]);
        if rest.None? then None
        else Some([Dest(bs[1..1 + k] + Zeros(4 - k), bs[0])] + rest.value)
  }

  lemma NlriLayout(len: byte, octets: seq<byte>, rest: seq<byte>)
    ensures var bs := [len] + octets + rest;
      bs[0] == len && bs[1..1 + |octets|] == octets && bs[1 + |octets|..] == rest
  {
  }

  lemma DecodeFirst(d: Dest, rest: seq<byte>)
    requires CanonicalDest(d)
    ensures DecodeNlris(EncodeNlri(d) + rest)
         == if DecodeNlris(rest).None? then None else Some([d] + DecodeNlris(rest).value)
  {
    var k := OctetsFor(d.len);
    NlriLayout(d.len, d.octets[..k], rest);
    PadOctets(d);
  }

  lemma PadOctets(d: Dest)
    requires CanonicalDest(d)
    ensures d.octets[..OctetsFor(d.len)] + Zeros(4 - OctetsFor(d.len)) == d.octets
  {
  }

  lemma {:induction false} NlriRoundTrip(ds: seq<Dest>)
    requires AllCanonicalDests(ds)
    ensures DecodeNlris(EncodeNlris(ds)) == Some(ds)
  {
    if ds != [] {
      NlriRoundTrip(ds[1..]);
      DecodeFirst(ds[0], EncodeNlris(ds[1..]));
      assert [ds[0]] + ds[1..] == ds;
    }
  }

  function UpdateSize(attrs: seq<byte>, ds: seq<Dest>): nat {
    UPDATE_OVERHEAD + |attrs| + BatchSize(ds)
  }

  /** Both length fields are cast to sixteen bits, whatever the true lengths. */
  ghost function UpdateMessage(attrs: seq<byte>, ds: seq<Dest>): (msg: seq<byte>)
    requires AllEncodable(ds)
    ensures |msg| == UpdateSize(attrs, ds)
  {
    MARKER + Put16(UpdateSize(attrs, ds)) + [2, 0, 0] + Put16(|attrs|) + attrs + EncodeNlris(ds)
  }

  method WriteUpdate(attrs: seq<byte>, ds: seq<Dest>) returns (msg: seq<byte>)
    requires AllEncodable(ds)
    ensures msg == UpdateMessage(attrs, ds)
  {
    var nlris := WriteNlris(ds);
    var total := 19 + 2 + 2 + |attrs| + |nlris|;
    assert total == UpdateSize(attrs, ds);
    msg := MARKER;
    msg := msg + Put16(total);
    msg := msg + [2, 0, 0];
    msg := msg + Put16(|attrs|);
    msg := msg + attrs;
    msg := msg + nlris;
  }

  /** A complete UPDATE that withdraws nothing. */
  predicate IsUpdate(msg: seq<byte>) {
    && |msg| >= UPDATE_OVERHEAD && msg[..16] == MARKER && U16(msg[16], msg[17]) == |msg|
    && msg[18] == 2 && msg[19] == 0 && msg[20] == 0
    && UPDATE_OVERHEAD + U16(msg[21], msg[22]) <= |msg|
  }

  /** The attributes and prefixes of such an UPDATE. */
  function DecodeUpdate(msg: seq<byte>): Option<(seq<byte>, seq<Dest>)> {
    if !IsUpdate(msg) then None
    else
      var end := UPDATE_OVERHEAD + U16(msg[21], msg[22]);
      match DecodeNlris(msg[end..])
      case None => None
      case Some(ds) => Some((msg[UPDATE_OVERHEAD..end], ds))
  }

  lemma UpdateLayout(len: seq<byte>, attrLen: seq<byte>, attrs: seq<byte>, nlris: seq<byte>)
    requires |len| == 2 && |attrLen| == 2
    ensures var msg := MARKER + len + [2, 0, 0] + attrLen + attrs + nlris;
      && |msg| == UPDATE_OVERHEAD + |attrs| + |nlris| && msg[..16] == MARKER
      && msg[16] == len[0] && msg[17] == len[1] && msg[18] == 2 && msg[19] == 0 && msg[20] == 0
      && msg[21] == attrLen[0] && msg[22] == attrLen[1]
      && msg[UPDATE_OVERHEAD..UPDATE_OVERHEAD + |attrs|] == attrs
      && msg[UPDATE_OVERHEAD + |attrs|..] == nlris
  {
  }

  lemma UpdateFields(attrs: seq<byte>, ds: seq<Dest>)
    requires AllEncodable(ds)
    ensures var msg, n := UpdateMessage(attrs, ds), UpdateSize(attrs, ds);
      && msg[..16] == MARKER && msg[16] == Put16(n)[0] && msg[17] == Put16(n)[1]
      && msg[18] == 2 && msg[19] == 0 && msg[20] == 0
      && msg[21] == Put16(|attrs|)[0] && msg[22] == Put16(|attrs|)[1]
      && msg[UPDATE_OVERHEAD..UPDATE_OVERHEAD + |attrs|] == attrs
      && msg[UPDATE_OVERHEAD + |attrs|..] == EncodeNlris(ds)
  {
    UpdateLayout(Put16(UpdateSize(attrs, ds)), Put16(|attrs|), attrs, EncodeNlris(ds));
  }

  /** The length field holds the true size exactly when that fits sixteen bits. */
  lemma LengthField(attrs: seq<byte>, ds: seq<Dest>)
    requires AllEncodable(ds)
    ensures var msg := UpdateMessage(attrs, ds);
            U16(msg[16], msg[17]) == |msg| <==> UpdateSize(attrs, ds) < 65536
  {
    var msg, n := UpdateMessage(attrs, ds), UpdateSize(attrs, ds);
    UpdateFields(attrs, ds);
    Field16(n, msg[16], msg[17]);
  }

  lemma DecodeLaidOut(msg: seq<byte>, attrs: seq<byte>, ds: seq<Dest>)
    requires IsUpdate(msg) && U16(msg[21], msg[22]) == |attrs|
    requires msg[UPDATE_OVERHEAD..UPDATE_OVERHEAD + |attrs|] == attrs
    requires DecodeNlris(msg[UPDATE_OVERHEAD + |attrs|..]) == Some(ds)
    ensures DecodeUpdate(msg) == Some((attrs, ds))
  {
  }

  /** An UPDATE that fits its length field decodes to what was put in. */
  lemma UpdateRoundTrip(attrs: seq<byte>, ds: seq<Dest>)
    requires AllCanonicalDests(ds) && UpdateSize(attrs, ds) < 65536
    ensures DecodeUpdate(UpdateMessage(attrs, ds)) == Some((attrs, ds))
  {
    var msg := UpdateMessage(attrs, ds);
    LengthField(attrs, ds);
    UpdateFields(attrs, ds);
    Field16(|attrs|, msg[21], msg[22]);
    NlriRoundTrip(ds);
    DecodeLaidOut(msg, attrs, ds);
  }

  // ---------- the byte stream ----------

  /** The length field of a message says where it ends. */
  ghost predicate Framed(msg: seq<byte>) {
    |msg| >= 19 && U16(msg[16], msg[17]) == |msg|
  }

  ghost function Join(msgs: seq<seq<byte>>): seq<byte> {
    if msgs == [] then [] else msgs[0] + Join(msgs[1..])
  }

  /** What a receiver that goes by the length fields reads. */
  ghost function Split(stream: seq<byte>): Option<seq<seq<byte>>>
    decreases |stream|
  {
    if stream == [] then Some([])
    else if |stream| < 19 then None
    else
      var n := U16(stream[16], stream[17]);
      if n < 19 || n > |stream| then None
      else
        var rest := Split(stream[n..]);
        if rest.None? then None else Some([stream[..n]] + rest.value)
  }

  /** The stream of framed messages splits back into exactly those messages. */
  lemma {:induction false} StreamSplits(msgs: seq<seq<byte>>)
    requires forall i :: 0 <= i < |msgs| ==> Framed(msgs[i])
    ensures Split(Join(msgs)) == Some(msgs)
  {
    if msgs != [] {
      var m, rest := msgs[0], Join(msgs[1..]);
      StreamSplits(msgs[1..]);
      var stream := m + rest;
      assert stream[16] == m[16] && stream[17] == m[17];
      assert stream[..|m|] == m && stream[|m|..] == rest;
      assert [m] + msgs[1..] == msgs;
    }
  }

  /** Only framed messages do: a truncated length field cuts the stream elsewhere. */
  lemma {:induction false} SplitOnlyIfFramed(msgs: seq<seq<byte>>)
    requires forall i :: 0 <= i < |msgs| ==> |msgs[i]| >= 19
    requires Split(Join(msgs)) == Some(msgs)
    ensures forall i :: 0 <= i < |msgs| ==> Framed(msgs[i])
  {
    if msgs != [] {
      var m, rest := msgs[0], Join(msgs[1..]);
      var stream := m + rest;
      assert stream[16] == m[16] && stream[17] == m[17];
      var n := U16(m[16], m[17]);
      assert msgs[0] == stream[..n] && msgs[1..] == Split(stream[n..]).value;
      assert stream[n..] == rest;
      SplitOnlyIfFramed(msgs[1..]);
      assert msgs == [m] + msgs[1..];
    }
  }
}
