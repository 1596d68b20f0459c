/**
 Reading an MRT TABLE_DUMP_V2 dump (RFC 6396): the record loop and the cursor parser
 for one RIB_IPV4_UNICAST record.
 */
module Mrt {
  import opened Bytes

  const TABLE_DUMP_V2 := 13
  const RIB_IPV4_UNICAST := 2
  const HEADER_LEN := 12

  datatype RibEntry = RibEntry(prefix: seq<byte>, prefixLen: nat, attrs: seq<byte>)

  /** A record body holds an entry, holds none worth keeping, or stops the program. */
  datatype BodyResult = Entry(entry: RibEntry) | NoEntry | Crash

  datatype ParseResult = Parsed(entries: seq<RibEntry>) | TruncatedBody | Crashed

  /** Four octets, nothing set beyond the significant ones, and lengths that fit their fields. */
  ghost predicate Canonical(e: RibEntry) {
    && |e.prefix| == 4 && e.prefixLen <= 32 && |e.attrs| < 65536
    && forall i :: OctetsFor(e.prefixLen) <= i < 4 ==> e.prefix[i] == 0
  }

  /** A prefix length above 32 whose octets are all there overruns the four-byte address. */
  predicate Overruns(body: seq<byte>) {
    |body| >= 5 && body[4] > 32 && 5 + OctetsFor(body[4]) <= |body|
  }

  /** The first RIB entry, read after a prefix that ends at `pos`. */
  function ParseFirstEntry(body: seq<byte>, pos: nat, prefix: seq<byte>, prefixLen: nat): BodyResult
    requires pos <= |body|
  {
    if pos + 2 > |body| || U16(body[pos], body[pos + 1]) == 0 || pos + 10 > |body| then NoEntry
    else
      var attrLen := U16(body[pos + 8], body[pos + 9]);
      if pos + 10 + attrLen > |body| then NoEntry
      else Entry(RibEntry(prefix, prefixLen, body[pos + 10..pos + 10 + attrLen]))
  }

  function ParseBody(body: seq<byte>): BodyResult {
    if |body| < 5 then NoEntry
    else
      var k := OctetsFor(body[4]);
      if 5 + k > |body| then NoEntry
      else if k > 4 then Crash
      else ParseFirstEntry(body, 5 + k, body[5..5 + k] + Zeros(4 - k), body[4])
  }

  function ParseRecord(mrtType: nat, subtype: nat, body: seq<byte>): BodyResult {
    if mrtType == TABLE_DUMP_V2 && subtype == RIB_IPV4_UNICAST then ParseBody(body) else NoEntry
  }

  /** `before`, then whatever the rest of the stream gives. */
  function Then(before: seq<RibEntry>, rest: ParseResult): ParseResult {
    match rest
    case Parsed(es) => Parsed(before + es)
    case _ => rest
  }

  function After(r: BodyResult, rest: ParseResult): ParseResult {
    match r
    case Entry(e) => Then([e], rest)
    case NoEntry => rest
    case Crash => Crashed
  }

  function BodyLen(data: seq<byte>): nat
    requires |data| >= HEADER_LEN
  {
    U32(data[8], data[9], data[10], data[11])
  }

  /** A short header ends the stream quietly; a short body is an error. */
  function ParseStream(data: seq<byte>): ParseResult
    decreases |data|
  {
    if |data| < HEADER_LEN then Parsed([])
    else
      var end := HEADER_LEN + BodyLen(data);
      if end > |data| then TruncatedBody
      else After(ParseRecord(U16(data[4], data[5]), U16(data[6], data[7]), data[HEADER_LEN..end]),
                 ParseStream(data[end..]))
  }

  // ---------- the parser ----------

  method ParseRibIpv4(body: seq<byte>) returns (r: BodyResult)
    ensures r == ParseBody(body)
  {
    var pos := 4;
    if pos >= |body| {
      return NoEntry;
    }
    var prefixLen := body[pos];
    pos := pos + 1;
    var prefixBytes := OctetsFor(prefixLen);
    if pos + prefixBytes > |body| {
      return NoEntry;
    }
    if prefixBytes > 4 {
      return Crash;
    }
    var addr := new byte[4](_ => 0);
    for i := 0 to prefixBytes
      invariant forall j :: 0 <= j < 4 ==> addr[j] == if j < i then body[5 + j] else 0
    {
      addr[i] := body[pos + i];
    }
    assert addr[..] == body[5..5 + prefixBytes] + Zeros(4 - prefixBytes);
    pos := pos + prefixBytes;
    if pos + 2 > |body| {
      return NoEntry;
    }
    var entryCount := U16(body[pos], body[pos + 1]);
    pos := pos + 2;
    if entryCount == 0 {
      return NoEntry;
    }
    if pos + 8 > |body| {
      return NoEntry;
    }
    pos := pos + 6;
    var attrLen := U16(body[pos], body[pos + 1]);
    pos := pos + 2;
    if pos + attrLen > |body| {
      return NoEntry;
    }
    r := Entry(RibEntry(addr[..], prefixLen, body[pos..pos + attrLen]));
  }

  /** The entries read so far, and the stream from `pos` on, give the result. */
  ghost predicate Continues(data: seq<byte>, entries: seq<RibEntry>, pos: nat) {
    pos <= |data| && ParseStream(data) == Then(entries, ParseStream(data[pos..]))
  }

  lemma StepAt(data: seq<byte>, pos: nat, body: seq<byte>, next: nat)
    requires next == pos + HEADER_LEN + |body| <= |data|
    requires U32(data[pos + 8], data[pos + 9], data[pos + 10], data[pos + 11]) == |body|
    requires body == data[pos + HEADER_LEN..next]
    ensures ParseStream(data[pos..])
         == After(ParseRecord(U16(data[pos + 4], data[pos + 5]), U16(data[pos + 6], data[pos + 7]), body),
                  ParseStream(data[next..]))
  {
    var rest := data[pos..];
    assert rest[HEADER_LEN..] == body + data[next..];
    StreamStep(rest, U16(data[pos + 4], data[pos + 5]), U16(data[pos + 6], data[pos + 7]), body, data[next..]);
  }

  /** What one framed record at `pos` does to the result. */
  lemma RecordAt(data: seq<byte>, entries: seq<RibEntry>, pos: nat, h: Header, body: seq<byte>, r: BodyResult)
    requires Continues(data, entries, pos) && pos + HEADER_LEN + |body| <= |data|
    requires HeaderAt(data, pos, h) && h.bodyLen == |body| && r == ParseRecord(h.mrtType, h.subtype, body)
    requires body == data[pos + HEADER_LEN..pos + HEADER_LEN + |body|]
    ensures var next := pos + HEADER_LEN + |body|;
      && (r.Crash? ==> ParseStream(data) == Crashed)
      && (r.NoEntry? ==> Continues(data, entries, next))
      && (r.Entry? ==> Continues(data, entries + [r.entry], next))
  {
    var next := pos + HEADER_LEN + |body|;
    StepAt(data, pos, body, next);
    if r.Entry? { ThenThen(entries, [r.entry], ParseStream(data[next..])); }
  }

  datatype Header = Header(mrtType: nat, subtype: nat, bodyLen: nat)

  ghost predicate HeaderAt(data: seq<byte>, pos: nat, h: Header)
    requires pos + HEADER_LEN <= |data|
  {
    && h.mrtType == U16(data[pos + 4], data[pos + 5])
    && h.subtype == U16(data[pos + 6], data[pos + 7])
    && h.bodyLen == U32(data[pos + 8], data[pos + 9], data[pos + 10], data[pos + 11])
  }

  method ReadHeader(data: seq<byte>, pos: nat) returns (h: Header)
    requires pos + HEADER_LEN <= |data|
    ensures HeaderAt(data, pos, h)
  {
    var header := data[pos..pos + HEADER_LEN];
    h := Header(U16(header[4], header[5]), U16(header[6], header[7]),
                U32(header[8], header[9], header[10], header[11]));
  }

  method ParseIfRib(h: Header, body: seq<byte>) returns (r: BodyResult)
    ensures r == ParseRecord(h.mrtType, h.subtype, body)
  {
    if h.mrtType == TABLE_DUMP_V2 && h.subtype == RIB_IPV4_UNICAST {
      r := ParseRibIpv4(body);
    } else {
      r := NoEntry;
    }
  }

  lemma TruncatedAt(data: seq<byte>, entries: seq<RibEntry>, pos: nat, h: Header)
    requires Continues(data, entries, pos) && pos + HEADER_LEN <= |data|
    requires HeaderAt(data, pos, h) && pos + HEADER_LEN + h.bodyLen > |data|
    ensures ParseStream(data) == TruncatedBody
  {
    assert BodyLen(data[pos..]) == h.bodyLen;
  }

  method Parse(data: seq<byte>) returns (r: ParseResult)
    ensures r == ParseStream(data)
  {
    var entries: seq<RibEntry> := [];
    var pos := 0;
    assert data[0..] == data;
    while pos + HEADER_LEN <= |data|
      invariant Continues(data, entries, pos)
      decreases |data| - pos
    {
      var h := ReadHeader(data, pos);
      var end := pos + HEADER_LEN + h.bodyLen;
      if end > |data| {
        TruncatedAt(data, entries, pos, h);
        return TruncatedBody;
      }
      var body := data[pos + HEADER_LEN..end];
      var parsed := ParseIfRib(h, body);
      RecordAt(data, entries, pos, h, body, parsed);
      pos := end;
      if parsed.Crash? {
        return Crashed;
      }
      if parsed.Entry? {
        entries := entries + [parsed.entry];
      }
    }
    r := Parsed(entries);
  }

  lemma ThenThen(a: seq<RibEntry>, b: seq<RibEntry>, rest: ParseResult)
    ensures Then(a, Then(b, rest)) == Then(a + b, rest)
  {
    if rest.Parsed? { assert a + (b + rest.entries) == a + b + rest.entries; }
  }

  // ---------- what it accepts ----------

  /** Every entry the parser yields is canonical, so it can be sent as it is. */
  lemma ParsedBodyIsCanonical(body: seq<byte>)
    ensures ParseBody(body).Entry? ==> Canonical(ParseBody(body).entry)
    ensures ParseBody(body).Crash? <==> Overruns(body)
  {
  }

  ghost predicate AllCanonical(r: ParseResult) {
    r.Parsed? ==> forall e :: e in r.entries ==> Canonical(e)
  }

  lemma AfterIsCanonical(r: BodyResult, rest: ParseResult)
    requires r.Entry? ==> Canonical(r.entry)
    requires AllCanonical(rest)
    ensures AllCanonical(After(r, rest))
  {
  }

  /** One turn of the record loop. */
  lemma StreamStep(data: seq<byte>, mrtType: nat, subtype: nat, body: seq<byte>, rest: seq<byte>)
    requires |data| >= HEADER_LEN && BodyLen(data) == |body|
    requires data[HEADER_LEN..] == body + rest
    requires mrtType == U16(data[4], data[5]) && subtype == U16(data[6], data[7])
    ensures ParseStream(data) == After(ParseRecord(mrtType, subtype, body), ParseStream(rest))
  {
    var end := HEADER_LEN + |body|;
    assert data[HEADER_LEN..end] == data[HEADER_LEN..][..|body|] == body;
    assert data[end..] == data[HEADER_LEN..][|body|..] == rest;
  }

  lemma {:induction false} ParsedIsCanonical(data: seq<byte>)
    ensures AllCanonical(ParseStream(data))
    decreases |data|
  {
    if |data| >= HEADER_LEN && HEADER_LEN + BodyLen(data) <= |data| {
      var end := HEADER_LEN + BodyLen(data);
      var body, rest := data[HEADER_LEN..end], data[end..];
      assert data[HEADER_LEN..] == body + rest;
      StreamStep(data, U16(data[4], data[5]), U16(data[6], data[7]), body, rest);
      ParsedBodyIsCanonical(body);
      ParsedIsCanonical(rest);
      AfterIsCanonical(ParseRecord(U16(data[4], data[5]), U16(data[6], data[7]), body), ParseStream(rest));
    }
  }

  /** A record as a dump holds it. */
  datatype Record = Record(timestamp: seq<byte>, mrtType: nat, subtype: nat, body: seq<byte>)

  ghost predicate WellFormed(rec: Record) {
    |rec.timestamp| == 4 && rec.mrtType < 65536 && rec.subtype < 65536 && |rec.body| < 0x1_0000_0000
  }

  ghost function EncodeRecord(rec: Record): seq<byte>
    requires WellFormed(rec)
  {
    rec.timestamp + Put16(rec.mrtType) + Put16(rec.subtype) + Put32(|rec.body|) + rec.body
  }

  ghost predicate AllWellFormed(recs: seq<Record>) {
    forall i :: 0 <= i < |recs| ==> WellFormed(recs[i])
  }

  ghost function EncodeAll(recs: seq<Record>): seq<byte>
    requires AllWellFormed(recs)
  {
    if recs == [] then [] else EncodeRecord(recs[0]) + EncodeAll(recs[1..])
  }

  ghost function ResultOf(rec: Record): BodyResult {
    ParseRecord(rec.mrtType, rec.subtype, rec.body)
  }

  /** The entries of the records that hold one, in order. */
  ghost function EntriesOf(recs: seq<Record>): seq<RibEntry> {
    if recs == [] then []
    else (if ResultOf(recs[0]).Entry? then [ResultOf(recs[0]).entry] else []) + EntriesOf(recs[1..])
  }

  ghost predicate AnyCrash(recs: seq<Record>) {
    exists i :: 0 <= i < |recs| && ResultOf(recs[i]).Crash?
  }

  lemma HeaderLayout(ts: seq<byte>, kind: seq<byte>, sub: seq<byte>, len: seq<byte>, rest: seq<byte>)
    requires |ts| == 4 && |kind| == 2 && |sub| == 2 && |len| == 4
    ensures var data := ts + kind + sub + len + rest;
      && data[4] == kind[0] && data[5] == kind[1] && data[6] == sub[0] && data[7] == sub[1]
      && data[8] == len[0] && data[9] == len[1] && data[10] == len[2] && data[11] == len[3]
      && data[12..] == rest
  {
  }

  lemma HeaderFields(data: seq<byte>, kind: nat, sub: nat, len: nat)
    requires |data| >= HEADER_LEN && kind < 65536 && sub < 65536 && len < 0x1_0000_0000
    requires data[4] == Put16(kind)[0] && data[5] == Put16(kind)[1]
    requires data[6] == Put16(sub)[0] && data[7] == Put16(sub)[1]
    requires data[8] == Put32(len)[0] && data[9] == Put32(len)[1]
    requires data[10] == Put32(len)[2] && data[11] == Put32(len)[3]
    ensures U16(data[4], data[5]) == kind && U16(data[6], data[7]) == sub && BodyLen(data) == len
  {
    Field16(kind, data[4], data[5]);
    Field16(sub, data[6], data[7]);
    assert Put32(len) == [data[8], data[9], data[10], data[11]];
    Field32(len, data[8], data[9], data[10], data[11]);
  }

  lemma RecordThenRest(rec: Record, rest: seq<byte>)
    requires WellFormed(rec)
    ensures ParseStream(EncodeRecord(rec) + rest) == After(ResultOf(rec), ParseStream(rest))
  {
    var kind, sub, len := Put16(rec.mrtType), Put16(rec.subtype), Put32(|rec.body|);
    var data := rec.timestamp + kind + sub + len + (rec.body + rest);
    assert EncodeRecord(rec) + rest == data by {
      Associate(rec.timestamp + kind + sub + len, rec.body, rest);
    }
    HeaderLayout(rec.timestamp, kind, sub, len, rec.body + rest);
    HeaderFields(data, rec.mrtType, rec.subtype, |rec.body|);
    StreamStep(data, rec.mrtType, rec.subtype, rec.body, rest);
  }

  lemma FirstRecord(recs: seq<Record>, suffix: seq<byte>)
    requires AllWellFormed(recs) && recs != []
    ensures ParseStream(EncodeAll(recs) + suffix)
         == After(ResultOf(recs[0]), ParseStream(EncodeAll(recs[1..]) + suffix))
  {
    Associate(EncodeRecord(recs[0]), EncodeAll(recs[1..]), suffix);
    RecordThenRest(recs[0], EncodeAll(recs[1..]) + suffix);
  }

  lemma AnyCrashTail(recs: seq<Record>)
    requires recs != []
    ensures AnyCrash(recs) <==> ResultOf(recs[0]).Crash? || AnyCrash(recs[1..])
  {
    if AnyCrash(recs) {
      var i :| 0 <= i < |recs| && ResultOf(recs[i]).Crash?;
      if i > 0 { assert ResultOf(recs[1..][i - 1]).Crash?; }
    }
    if AnyCrash(recs[1..]) {
      var i :| 0 <= i < |recs[1..]| && ResultOf(recs[1..][i]).Crash?;
      assert ResultOf(recs[i + 1]).Crash?;
    }
  }

  lemma AfterThen(r: BodyResult, es: seq<RibEntry>, rest: ParseResult)
    requires !r.Crash?
    ensures After(r, Then(es, rest)) == Then((if r.Entry? then [r.entry] else []) + es, rest)
  {
    if r.Entry? { ThenThen([r.entry], es, rest); } else { assert [] + es == es; }
  }

  /**
   Well-framed records followed by any bytes parse to the records' own entries, in
   order, followed by what the remaining bytes give; a record that overruns stops it.
   */
  lemma {:induction false} StreamIsItsRecords(recs: seq<Record>, suffix: seq<byte>)
    requires AllWellFormed(recs)
    ensures ParseStream(EncodeAll(recs) + suffix)
         == if AnyCrash(recs) then Crashed else Then(EntriesOf(recs), ParseStream(suffix))
    decreases recs
  {
    if recs == [] {
      assert EncodeAll(recs) + suffix == suffix;
      assert Then([], ParseStream(suffix)) == ParseStream(suffix);
    } else {
      FirstRecord(recs, suffix);
      StreamIsItsRecords(recs[1..], suffix);
      AnyCrashTail(recs);
      if !AnyCrash(recs) { AfterThen(ResultOf(recs[0]), EntriesOf(recs[1..]), ParseStream(suffix)); }
    }
  }

  /** The fields of a RIB_IPV4_UNICAST body; `more` holds its further entries. */
  datatype RibBody = RibBody(sequence: seq<byte>, entry: RibEntry, count: nat, peerAndTime: seq<byte>, more: seq<byte>)

  ghost predicate ValidBody(b: RibBody) {
    |b.sequence| == 4 && Canonical(b.entry) && b.count < 65536 && |b.peerAndTime| == 6
  }

  ghost function EncodeBody(b: RibBody): seq<byte>
    requires ValidBody(b)
  {
    var k := OctetsFor(b.entry.prefixLen);
    b.sequence + [b.entry.prefixLen] + b.entry.prefix[..k] + Put16(b.count)
    + b.peerAndTime + Put16(|b.entry.attrs|) + b.entry.attrs + b.more
  }

  lemma BodyLayout(sequence: seq<byte>, len: byte, octets: seq<byte>, count: seq<byte>, peerAndTime: seq<byte>,
                   attrLen: seq<byte>, attrs: seq<byte>, more: seq<byte>)
    requires |sequence| == 4 && |count| == 2 && |peerAndTime| == 6 && |attrLen| == 2
    ensures var body := sequence + [len] + octets + count + peerAndTime + attrLen + attrs + more;
            var pos := 5 + |octets|;
      && |body| == pos + 10 + |attrs| + |more|
      && body[4] == len && body[5..pos] == octets
      && body[pos] == count[0] && body[pos + 1] == count[1]
      && body[pos + 8] == attrLen[0] && body[pos + 9] == attrLen[1]
      && body[pos + 10..pos + 10 + |attrs|] == attrs
  {
  }

  /** The fields of an entry are where the parser looks for them. */
  ghost predicate LaidOut(body: seq<byte>, e: RibEntry, count: nat) {
    var pos := 5 + OctetsFor(e.prefixLen);
    && |e.prefix| >= pos - 5 && |body| >= pos + 10 + |e.attrs|
    && body[4] == e.prefixLen && body[5..pos] == e.prefix[..pos - 5]
    && U16(body[pos], body[pos + 1]) == count
    && U16(body[pos + 8], body[pos + 9]) == |e.attrs|
    && body[pos + 10..pos + 10 + |e.attrs|] == e.attrs
  }

  lemma ParseLaidOut(body: seq<byte>, e: RibEntry, count: nat)
    requires Canonical(e) && LaidOut(body, e, count)
    ensures ParseBody(body) == if count == 0 then NoEntry else Entry(e)
  {
    var k := OctetsFor(e.prefixLen);
    assert e.prefix[..k] + Zeros(4 - k) == e.prefix;
  }

  lemma BodyFields(b: RibBody) returns (body: seq<byte>)
    requires ValidBody(b)
    ensures body == EncodeBody(b)
    ensures var e, pos := b.entry, 5 + OctetsFor(b.entry.prefixLen);
      && |body| >= pos + 10 + |e.attrs|
      && body[4] == e.prefixLen && body[5..pos] == e.prefix[..pos - 5]
      && body[pos] == Put16(b.count)[0] && body[pos + 1] == Put16(b.count)[1]
      && body[pos + 8] == Put16(|e.attrs|)[0] && body[pos + 9] == Put16(|e.attrs|)[1]
      && body[pos + 10..pos + 10 + |e.attrs|] == e.attrs
  {
    body := EncodeBody(b);
    BodyLayout(b.sequence, b.entry.prefixLen, b.entry.prefix[..OctetsFor(b.entry.prefixLen)], Put16(b.count),
               b.peerAndTime, Put16(|b.entry.attrs|), b.entry.attrs, b.more);
  }

  lemma EncodedIsLaidOut(b: RibBody) returns (body: seq<byte>)
    requires ValidBody(b)
    ensures body == EncodeBody(b) && LaidOut(body, b.entry, b.count)
  {
    body := BodyFields(b);
    var pos := 5 + OctetsFor(b.entry.prefixLen);
    Field16(b.count, body[pos], body[pos + 1]);
    Field16(|b.entry.attrs|, body[pos + 8], body[pos + 9]);
  }

  /** Parsing undoes serialising: the first entry comes back, or nothing when the count is zero. */
  lemma BodyRoundTrip(b: RibBody)
    requires ValidBody(b)
    ensures ParseBody(EncodeBody(b)) == if b.count == 0 then NoEntry else Entry(b.entry)
  {
    var body := EncodedIsLaidOut(b);
    ParseLaidOut(body, b.entry, b.count);
  }

  // ---------- whole dumps, by their fields ----------

  /** A record of a dump: a RIB_IPV4_UNICAST one by the fields of its body, or one of another type. */
  datatype Item = RibItem(timestamp: seq<byte>, body: RibBody) | OtherItem(rec: Record)

  ghost predicate ValidItem(it: Item) {
    match it
    case RibItem(ts, body) => |ts| == 4 && ValidBody(body) && |EncodeBody(body)| < 0x1_0000_0000
    case OtherItem(rec) => WellFormed(rec) && !(rec.mrtType == TABLE_DUMP_V2 && rec.subtype == RIB_IPV4_UNICAST)
  }

  ghost predicate AllValid(items: seq<Item>) {
    forall i :: 0 <= i < |items| ==> ValidItem(items[i])
  }

  ghost function RecordOf(it: Item): (rec: Record)
    requires ValidItem(it)
    ensures WellFormed(rec)
  {
    match it
    case RibItem(ts, body) => Record(ts, TABLE_DUMP_V2, RIB_IPV4_UNICAST, EncodeBody(body))
    case OtherItem(rec) => rec
  }

  ghost function RecordsOf(items: seq<Item>): (recs: seq<Record>)
    requires AllValid(items)
    ensures AllWellFormed(recs)
  {
    if items == [] then [] else [RecordOf(items[0])] + RecordsOf(items[1..])
  }

  /** The record holds an entry. */
  predicate Yields(it: Item) {
    it.RibItem? && it.body.count != 0
  }

  function ItemEntries(items: seq<Item>): seq<RibEntry> {
    if items == [] then []
    else (if Yields(items[0]) then [items[0].body.entry] else []) + ItemEntries(items[1..])
  }

  lemma ItemResult(it: Item)
    requires ValidItem(it)
    ensures ResultOf(RecordOf(it)) == if Yields(it) then Entry(it.body.entry) else NoEntry
  {
    if it.RibItem? { BodyRoundTrip(it.body); }
  }

  lemma {:induction false} ItemResults(items: seq<Item>)
    requires AllValid(items)
    ensures EntriesOf(RecordsOf(items)) == ItemEntries(items) && !AnyCrash(RecordsOf(items))
  {
    if items != [] {
      var recs := RecordsOf(items);
      ItemResult(items[0]);
      ItemResults(items[1..]);
      assert recs[0] == RecordOf(items[0]) && recs[1..] == RecordsOf(items[1..]);
      AnyCrashTail(recs);
    }
  }

  /**
   Serialising any list of records and parsing it gives back the first entries of the
   RIB_IPV4_UNICAST ones with a non-zero count, in order, then whatever follows gives.
   */
  lemma DumpRoundTrip(items: seq<Item>, suffix: seq<byte>)
    requires AllValid(items)
    ensures ParseStream(EncodeAll(RecordsOf(items)) + suffix) == Then(ItemEntries(items), ParseStream(suffix))
  {
    ItemResults(items);
    StreamIsItsRecords(RecordsOf(items), suffix);
  }

  lemma WholeDump(items: seq<Item>)
    requires AllValid(items)
    ensures ParseStream(EncodeAll(RecordsOf(items))) == Parsed(ItemEntries(items))
  {
    DumpRoundTrip(items, []);
    assert EncodeAll(RecordsOf(items)) + [] == EncodeAll(RecordsOf(items));
    assert ItemEntries(items) + [] == ItemEntries(items);
  }

  // ---------- one entry per prefix? ----------

  predicate SamePrefix(d: RibEntry, e: RibEntry) {
    d.prefix == e.prefix && d.prefixLen == e.prefixLen
  }

  predicate DistinctPrefixes(es: seq<RibEntry>) {
    forall i, j :: 0 <= i < j < |es| ==> !SamePrefix(es[i], es[j])
  }

  /** The record is one the parser takes an entry from. */
  ghost predicate Holds(rec: Record) { ResultOf(rec).Entry? }

  /** No two records that hold an entry are for the same prefix. */
  ghost predicate RecordsDistinct(recs: seq<Record>) {
    forall i, j :: 0 <= i < j < |recs| && Holds(recs[i]) && Holds(recs[j]) ==>
      !SamePrefix(ResultOf(recs[i]).entry, ResultOf(recs[j]).entry)
  }

  lemma {:induction false} EntrySource(recs: seq<Record>, e: RibEntry)
    ensures e in EntriesOf(recs) <==> exists i :: 0 <= i < |recs| && Holds(recs[i]) && ResultOf(recs[i]).entry == e
  {
    if recs != [] {
      EntrySource(recs[1..], e);
      if e in EntriesOf(recs[1..]) {
        var i :| 0 <= i < |recs[1..]| && Holds(recs[1..][i]) && ResultOf(recs[1..][i]).entry == e;
        assert Holds(recs[i + 1]) && ResultOf(recs[i + 1]).entry == e;
      }
      if exists i :: 0 <= i < |recs| && Holds(recs[i]) && ResultOf(recs[i]).entry == e {
        var i :| 0 <= i < |recs| && Holds(recs[i]) && ResultOf(recs[i]).entry == e;
        if i > 0 { assert Holds(recs[1..][i - 1]) && ResultOf(recs[1..][i - 1]).entry == e; }
      }
    }
  }

  /** The first record's prefix occurs again. */
  ghost predicate RepeatedLater(recs: seq<Record>)
    requires recs != []
  {
    Holds(recs[0]) && exists e :: e in EntriesOf(recs[1..]) && SamePrefix(ResultOf(recs[0]).entry, e)
  }

  lemma RecordsDistinctTail(recs: seq<Record>)
    requires recs != []
    ensures RecordsDistinct(recs) <==> RecordsDistinct(recs[1..]) && !RepeatedLater(recs)
  {
    var tail := recs[1..];
    if RecordsDistinct(recs) {
      forall i, j | 0 <= i < j < |tail| && Holds(tail[i]) && Holds(tail[j])
        ensures !SamePrefix(ResultOf(tail[i]).entry, ResultOf(tail[j]).entry)
      {
        assert Holds(recs[i + 1]) && Holds(recs[j + 1]);
      }
      forall e | Holds(recs[0]) && e in EntriesOf(tail) ensures !SamePrefix(ResultOf(recs[0]).entry, e) {
        EntrySource(tail, e);
        var i :| 0 <= i < |tail| && Holds(tail[i]) && ResultOf(tail[i]).entry == e;
        assert Holds(recs[i + 1]);
      }
    }
    if RecordsDistinct(tail) && !RepeatedLater(recs) {
      forall i, j | 0 <= i < j < |recs| && Holds(recs[i]) && Holds(recs[j])
        ensures !SamePrefix(ResultOf(recs[i]).entry, ResultOf(recs[j]).entry)
      {
        EntrySource(tail, ResultOf(recs[j]).entry);
        assert Holds(tail[j - 1]) && tail[j - 1] == recs[j];
        if i > 0 { assert Holds(tail[i - 1]); }
      }
    }
  }

  lemma DistinctHead(e: RibEntry, es: seq<RibEntry>)
    ensures DistinctPrefixes([e] + es) <==> DistinctPrefixes(es) && forall d :: d in es ==> !SamePrefix(e, d)
  {
    var all := [e] + es;
    if DistinctPrefixes(all) {
      forall i, j | 0 <= i < j < |es| ensures !SamePrefix(es[i], es[j]) { assert !SamePrefix(all[i + 1], all[j + 1]); }
      forall d | d in es ensures !SamePrefix(e, d) {
        var i :| 0 <= i < |es| && es[i] == d;
        assert !SamePrefix(all[0], all[i + 1]);
      }
    }
  }

  lemma {:induction false} EntriesDistinctIff(recs: seq<Record>)
    ensures DistinctPrefixes(EntriesOf(recs)) <==> RecordsDistinct(recs)
  {
    if recs != [] {
      EntriesDistinctIff(recs[1..]);
      RecordsDistinctTail(recs);
      if Holds(recs[0]) { DistinctHead(ResultOf(recs[0]).entry, EntriesOf(recs[1..])); }
      else { assert EntriesOf(recs) == EntriesOf(recs[1..]); }
    }
  }

  // ---------- any bytes at all ----------

  /** Too short for a header, or for the body its header announces. */
  predicate Unfinished(rest: seq<byte>) {
    |rest| < HEADER_LEN || HEADER_LEN + BodyLen(rest) > |rest|
  }

  lemma SameBytes(a: byte, b: byte, hi: byte, lo: byte)
    requires U16(a, b) == U16(hi, lo)
    ensures a == hi && b == lo
  {
  }

  lemma DivideByte(hi: byte, lo: byte)
    ensures (hi * 256 + lo) % 65536 == hi * 256 + lo && (hi * 256 + lo) / 256 == hi && (hi * 256 + lo) % 256 == lo
  {
  }

  lemma Bytes16(hi: byte, lo: byte)
    ensures Put16(U16(hi, lo)) == [hi, lo]
  {
    DivideByte(hi, lo);
  }

  lemma Bytes32(a: byte, b: byte, c: byte, d: byte)
    ensures U32(a, b, c, d) < 0x1_0000_0000 && Put32(U32(a, b, c, d)) == [a, b, c, d]
  {
    var bs := Put32(U32(a, b, c, d));
    SameBytes(bs[0], bs[1], a, b);
    SameBytes(bs[2], bs[3], c, d);
  }

  lemma HeaderBytes(data: seq<byte>, ts: seq<byte>)
    requires |data| >= HEADER_LEN && ts == data[..4]
    ensures U32(data[8], data[9], data[10], data[11]) < 0x1_0000_0000
    ensures ts + Put16(U16(data[4], data[5])) + Put16(U16(data[6], data[7]))
            + Put32(U32(data[8], data[9], data[10], data[11])) == data[..HEADER_LEN]
  {
    Bytes16(data[4], data[5]);
    Bytes16(data[6], data[7]);
    Bytes32(data[8], data[9], data[10], data[11]);
  }

  lemma FirstFramed(data: seq<byte>) returns (rec: Record, rest: seq<byte>)
    requires !Unfinished(data)
    ensures WellFormed(rec) && data == EncodeRecord(rec) + rest && |rest| < |data|
  {
    var end := HEADER_LEN + BodyLen(data);
    rec := Record(data[..4], U16(data[4], data[5]), U16(data[6], data[7]), data[HEADER_LEN..end]);
    rest := data[end..];
    HeaderBytes(data, data[..4]);
    assert EncodeRecord(rec) == data[..HEADER_LEN] + data[HEADER_LEN..end] == data[..end];
  }

  /** Every byte string is some records followed by an unfinished one. */
  lemma {:induction false} FramedPrefix(data: seq<byte>) returns (recs: seq<Record>, rest: seq<byte>)
    ensures AllWellFormed(recs) && data == EncodeAll(recs) + rest && Unfinished(rest)
    decreases |data|
  {
    if Unfinished(data) {
      recs, rest := [], data;
      assert EncodeAll(recs) + rest == data;
    } else {
      var rec, after := FirstFramed(data);
      var more, last := FramedPrefix(after);
      recs, rest := [rec] + more, last;
      assert recs[1..] == more;
      Associate(EncodeRecord(rec), EncodeAll(more), last);
    }
  }

  lemma UnfinishedResult(rest: seq<byte>)
    requires Unfinished(rest)
    ensures ParseStream(rest) == if |rest| < HEADER_LEN then Parsed([]) else TruncatedBody
  {
  }

  /**
   What any bytes parse to: a panic as soon as one record overruns, an error when the last
   record is cut short in its body, and otherwise the entries, whose prefixes are distinct if
   and only if no prefix has two records that hold an entry. Malformed bodies hold none.
   */
  lemma UniquePrefixesIff(recs: seq<Record>, rest: seq<byte>)
    requires AllWellFormed(recs) && Unfinished(rest)
    ensures var r := ParseStream(EncodeAll(recs) + rest);
      && (r.Crashed? <==> AnyCrash(recs))
      && (r.TruncatedBody? <==> !AnyCrash(recs) && |rest| >= HEADER_LEN)
      && (r.Parsed? ==> (DistinctPrefixes(r.entries) <==> RecordsDistinct(recs)))
  {
    StreamIsItsRecords(recs, rest);
    UnfinishedResult(rest);
    EntriesDistinctIff(recs);
    assert EntriesOf(recs) + [] == EntriesOf(recs);
  }

  /** A prefix length of 33 with its five octets stops the program, whatever else the dump holds. */
  lemma PrefixLengthPanics()
    ensures ParseBody([0, 0, 0, 0, 33, 0, 0, 0, 0, 0]) == Crash
    ensures var rec := Record([0, 0, 0, 0], TABLE_DUMP_V2, RIB_IPV4_UNICAST, [0, 0, 0, 0, 33, 0, 0, 0, 0, 0]);
      WellFormed(rec) && forall suffix :: ParseStream(EncodeRecord(rec) + suffix) == Crashed
  {
    var rec := Record([0, 0, 0, 0], TABLE_DUMP_V2, RIB_IPV4_UNICAST, [0, 0, 0, 0, 33, 0, 0, 0, 0, 0]);
    assert OctetsFor(33) == 5;
    forall suffix ensures ParseStream(EncodeRecord(rec) + suffix) == Crashed {
      RecordThenRest(rec, suffix);
    }
  }

  lemma TwoEntries(items: seq<Item>)
    requires |items| == 2 && Yields(items[0]) && Yields(items[1])
    ensures ItemEntries(items) == [items[0].body.entry, items[1].body.entry]
  {
    var tail := items[1..];
    assert tail[0] == items[1] && tail[1..] == [];
    assert ItemEntries(tail) == [items[1].body.entry];
  }

  /** Two records for one prefix give two entries. */
  lemma RepeatedPrefixKept(items: seq<Item>)
    requires |items| == 2 && AllValid(items) && Yields(items[0]) && Yields(items[1])
    requires SamePrefix(items[0].body.entry, items[1].body.entry)
    ensures ParseStream(EncodeAll(RecordsOf(items))) == Parsed([items[0].body.entry, items[1].body.entry])
    ensures !DistinctPrefixes([items[0].body.entry, items[1].body.entry])
  {
    WholeDump(items);
    TwoEntries(items);
    var es := [items[0].body.entry, items[1].body.entry];
    assert SamePrefix(es[0], es[1]);
  }
}
