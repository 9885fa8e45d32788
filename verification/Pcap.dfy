/**
 The capture file of scripts/generate_zeek_pcap.py. `WritePcap` is the source's pair of nested
 loops; `ParsePcap` is a reader of the libpcap file format that shares nothing with it but the
 record type. Whatever the rows, the reader gets back exactly the packets written, in order.
 */
module PcapFiles {
  import opened Checksums
  import opened Packets
  import opened Options
  import opened Conversations

  const MAGIC: Long := 0xa1b2_c3d4
  const SNAPLEN: Long := 262144
  const ETHERNET_LINK: Long := 1
  const MICROSECONDS := 1000000

  /** A captured packet; the number of captured bytes is the length of `frame`. */
  datatype Record = Record(sec: Long, usec: Long, originalLength: Long, frame: seq<Byte>)

  predicate IsRecord(r: Record) {
    r.usec < MICROSECONDS && |r.frame| == r.originalLength <= SNAPLEN
  }

  // ---- Writing ----

  /** struct.pack with "<": the low byte first. */
  function LittleEndian(n: nat, width: nat): (bytes: seq<Byte>)
    ensures |bytes| == width
  {
    if width == 0 then [] else [n % 0x100] + LittleEndian(n / 0x100, width - 1)
  }

  function LittleEndian16(w: Word): (bytes: seq<Byte>)
    ensures |bytes| == 2
  {
    LittleEndian(w, 2)
  }

  function LittleEndian32(n: Long): (bytes: seq<Byte>)
    ensures |bytes| == 4
  {
    LittleEndian(n, 4)
  }

  function GlobalHeader(): (header: seq<Byte>)
    ensures |header| == 24
  {
    LittleEndian32(MAGIC) + LittleEndian16(2) + LittleEndian16(4) + LittleEndian32(0)
    + LittleEndian32(0) + LittleEndian32(SNAPLEN) + LittleEndian32(ETHERNET_LINK)
  }

  function Seconds(ts: real): Long
    requires 0.0 <= ts < 4294967296.0
  {
    ts.Floor
  }

  function Microseconds(ts: real): (usec: Long)
    requires 0.0 <= ts < 4294967296.0
    ensures usec < MICROSECONDS
  {
    ((ts - Seconds(ts) as real) * 1000000.0).Floor
  }

  function PacketHeader(ts: real, length: Long): (header: seq<Byte>)
    requires 0.0 <= ts < 4294967296.0
    ensures |header| == 16
  {
    LittleEndian32(Seconds(ts)) + LittleEndian32(Microseconds(ts)) + LittleEndian32(length) + LittleEndian32(length)
  }

  /** Splitting a timestamp loses less than a microsecond, and never moves it forward. */
  lemma TimestampTruncated(ts: real)
    requires 0.0 <= ts < 4294967296.0
    ensures Microseconds(ts) < MICROSECONDS
    ensures 0.0 <= ts - (Seconds(ts) as real + Microseconds(ts) as real / 1000000.0) < 0.000001
  {
  }

  /** Later packets never carry an earlier timestamp. */
  lemma TimestampMonotone(ts: real, later: real)
    requires 0.0 <= ts <= later < 4294967296.0
    ensures Seconds(ts) < Seconds(later)
            || (Seconds(ts) == Seconds(later) && Microseconds(ts) <= Microseconds(later))
  {
  }

  predicate Writable(t: Timed) {
    0.0 <= t.at < 4294967296.0 && |t.segment.payload| <= 1200
  }

  predicate AllWritable(packets: seq<Timed>) {
    forall i :: 0 <= i < |packets| ==> Writable(packets[i])
  }

  function ToRecord(t: Timed): (r: Record)
    requires Writable(t)
    ensures IsRecord(r)
  {
    var frame := BuildPacket(t.segment);
    Record(Seconds(t.at), Microseconds(t.at), |frame|, frame)
  }

  function Records(exchange: seq<Timed>): (records: seq<Record>)
    requires AllWritable(exchange)
    ensures |records| == |exchange| && AreRecords(records)
  {
    seq(|exchange|, i requires 0 <= i < |exchange| => ToRecord(exchange[i]))
  }

  function RowRecords(row: Row): (records: seq<Record>)
    requires Fits(row)
    ensures |records| == 5
    ensures AreRecords(records)
  {
    ExchangeIsWritable(row);
    Records(Exchange(row))
  }

  lemma ExchangeIsWritable(row: Row)
    requires Fits(row)
    ensures |Exchange(row)| == 5
    ensures AllWritable(Exchange(row))
  {
    ExchangeIsConversation(row);
    assert Exchange(row)[0].at == row.seconds as real;
    forall i | 0 <= i < 5 ensures Writable(Exchange(row)[i]) {
      PacketsAreShort(row, i);
    }
  }

  function Flatten<T>(blocks: seq<seq<T>>): seq<T> {
    if blocks == [] then [] else Flatten(blocks[..|blocks| - 1]) + blocks[|blocks| - 1]
  }

  function Blocks(rows: seq<Row>): (blocks: seq<seq<Record>>)
    requires forall i :: 0 <= i < |rows| ==> Fits(rows[i])
    ensures |blocks| == |rows|
    ensures forall i :: 0 <= i < |rows| ==> blocks[i] == RowRecords(rows[i])
  {
    seq(|rows|, i requires 0 <= i < |rows| => RowRecords(rows[i]))
  }

  function RecordsOfRows(rows: seq<Row>): seq<Record>
    requires forall i :: 0 <= i < |rows| ==> Fits(rows[i])
  {
    Flatten(Blocks(rows))
  }

  predicate AreRecords(records: seq<Record>) {
    forall i :: 0 <= i < |records| ==> IsRecord(records[i])
  }

  function Serialize(r: Record): seq<Byte>
    requires IsRecord(r)
  {
    LittleEndian32(r.sec) + LittleEndian32(r.usec) + LittleEndian32(|r.frame|)
    + LittleEndian32(r.originalLength) + r.frame
  }

  function Encodings(records: seq<Record>): (chunks: seq<seq<Byte>>)
    requires AreRecords(records)
    ensures |chunks| == |records|
  {
    seq(|records|, i requires 0 <= i < |records| => Serialize(records[i]))
  }

  function SerializeAll(records: seq<Record>): seq<Byte>
    requires AreRecords(records)
  {
    Flatten(Encodings(records))
  }

  lemma {:induction false} FlattenOfConcat<T>(a: seq<seq<T>>, b: seq<seq<T>>)
    ensures Flatten(a + b) == Flatten(a) + Flatten(b)
  {
    if b == [] {
      assert a + b == a;
    } else {
      var init := b[..|b| - 1];
      FlattenOfConcat(a, init);
      assert (a + b)[..|a + b| - 1] == a + init;
      Associate(Flatten(a), Flatten(init), b[|b| - 1]);
    }
  }

  lemma Associate<T>(a: seq<T>, b: seq<T>, c: seq<T>)
    ensures (a + b) + c == a + (b + c)
  {
  }

  lemma SerializeConcat(a: seq<Record>, b: seq<Record>)
    requires AreRecords(a) && AreRecords(b)
    ensures SerializeAll(a + b) == SerializeAll(a) + SerializeAll(b)
  {
    assert Encodings(a + b) == Encodings(a) + Encodings(b);
    FlattenOfConcat(Encodings(a), Encodings(b));
  }

  lemma {:induction false} FlattenIsRecords(blocks: seq<seq<Record>>)
    requires forall i :: 0 <= i < |blocks| ==> AreRecords(blocks[i])
    ensures AreRecords(Flatten(blocks))
  {
    if blocks != [] {
      FlattenIsRecords(blocks[..|blocks| - 1]);
      assert AreRecords(blocks[|blocks| - 1]);
    }
  }

  lemma RowsAreRecords(rows: seq<Row>)
    requires forall i :: 0 <= i < |rows| ==> Fits(rows[i])
    ensures AreRecords(RecordsOfRows(rows))
  {
    FlattenIsRecords(Blocks(rows));
  }

  lemma OneMoreRow(rows: seq<Row>, n: nat)
    requires n < |rows|
    requires forall i :: 0 <= i <= n ==> Fits(rows[i])
    ensures RecordsOfRows(rows[..n + 1]) == RecordsOfRows(rows[..n]) + RowRecords(rows[n])
  {
    var blocks := Blocks(rows[..n + 1]);
    assert |blocks| == n + 1 && blocks[n] == RowRecords(rows[n]);
    assert blocks[..n] == Blocks(rows[..n]);
  }

  // The bytes of the file once the records of the first n rows are in it.
  function FileOf(records: seq<Record>): seq<Byte>
    requires AreRecords(records)
  {
    GlobalHeader() + SerializeAll(records)
  }

  lemma FileGrows(records: seq<Record>, more: seq<Record>)
    requires AreRecords(records) && AreRecords(more)
    ensures FileOf(records + more) == FileOf(records) + SerializeAll(more)
  {
    SerializeConcat(records, more);
    Associate(GlobalHeader(), SerializeAll(records), SerializeAll(more));
  }

  /** What the file holds once n rows are written. */
  predicate HoldsRows(file: seq<Byte>, rows: seq<Row>, n: nat)
    requires n <= |rows|
  {
    && (forall i :: 0 <= i < n ==> Fits(rows[i]))
    && AreRecords(RecordsOfRows(rows[..n]))
    && file == FileOf(RecordsOfRows(rows[..n]))
  }

  lemma HeaderHoldsNone(rows: seq<Row>)
    ensures HoldsRows(GlobalHeader(), rows, 0)
  {
    assert rows[..0] == [] && Blocks(rows[..0]) == [];
    assert RecordsOfRows(rows[..0]) == [] && Encodings([]) == [];
  }

  lemma HoldsOneMore(file: seq<Byte>, rows: seq<Row>, n: nat)
    requires n < |rows| && HoldsRows(file, rows, n) && Fits(rows[n])
    ensures HoldsRows(file + SerializeAll(RowRecords(rows[n])), rows, n + 1)
  {
    OneMoreRow(rows, n);
    RowsAreRecords(rows[..n + 1]);
    FileGrows(RecordsOfRows(rows[..n]), RowRecords(rows[n]));
  }

  /** The file after all rows, or after the first row that cannot be encoded: packing raises before
      anything of that row is written, and what is already in the file stays. A reader of the file
      finds exactly the records of the rows written. */
  method WritePcap(rows: seq<Row>) returns (file: seq<Byte>, written: nat, raised: bool)
    ensures written <= |rows|
    ensures forall i :: 0 <= i < written ==> Fits(rows[i])
    ensures raised <==> written < |rows|
    ensures raised ==> !Fits(rows[written])
    ensures ParsePcap(file) == Some(RecordsOfRows(rows[..written]))
  {
    file, written := WriteRows(rows);
    raised := written < |rows|;
    ParseInvertsWrite(RecordsOfRows(rows[..written]));
  }

  method WriteRows(rows: seq<Row>) returns (file: seq<Byte>, written: nat)
    ensures written <= |rows| && HoldsRows(file, rows, written)
    ensures written < |rows| ==> !Fits(rows[written])
  {
    file := GlobalHeader();
    written := 0;
    HeaderHoldsNone(rows);
    while written < |rows| && Fits(rows[written])
      invariant written <= |rows|
      invariant HoldsRows(file, rows, written)
    {
      HoldsOneMore(file, rows, written);
      file := WriteRow(file, rows[written]);
      written := written + 1;
    }
  }

  method WriteRow(before: seq<Byte>, row: Row) returns (file: seq<Byte>)
    requires Fits(row)
    ensures file == before + SerializeAll(RowRecords(row))
  {
    ExchangeIsWritable(row);
    file := WritePackets(before, Exchange(row));
  }

  method WritePackets(before: seq<Byte>, packets: seq<Timed>) returns (file: seq<Byte>)
    requires AllWritable(packets)
    ensures file == before + SerializeAll(Records(packets))
  {
    file := before;
    ghost var records := Records(packets);
    for i := 0 to |packets|
      invariant HoldsRecords(file, before, records, i)
    {
      HoldsOneRecordMore(file, before, records, i);
      file := WritePacket(file, packets[i]);
    }
    assert records[..|packets|] == records;
  }

  /** The first n records follow what was in the file before. */
  predicate HoldsRecords(file: seq<Byte>, before: seq<Byte>, records: seq<Record>, n: nat)
    requires AreRecords(records) && n <= |records|
  {
    file == before + SerializeAll(records[..n])
  }

  lemma HoldsOneRecordMore(file: seq<Byte>, before: seq<Byte>, records: seq<Record>, n: nat)
    requires AreRecords(records) && n < |records| && HoldsRecords(file, before, records, n)
    ensures HoldsRecords(file + Serialize(records[n]), before, records, n + 1)
  {
    SerializeOneMore(records, n);
    Associate(before, SerializeAll(records[..n]), Serialize(records[n]));
  }

  lemma SerializeOneMore(records: seq<Record>, n: nat)
    requires AreRecords(records) && n < |records|
    ensures SerializeAll(records[..n + 1]) == SerializeAll(records[..n]) + Serialize(records[n])
  {
    assert records[..n + 1] == records[..n] + [records[n]];
    SerializeConcat(records[..n], [records[n]]);
    SerializeOne(records[n]);
  }

  /** One packet appends its record, in which captured and original length are both the frame's. */
  method WritePacket(file: seq<Byte>, t: Timed) returns (longer: seq<Byte>)
    requires Writable(t)
    ensures |ToRecord(t).frame| == ToRecord(t).originalLength
    ensures longer == file + Serialize(ToRecord(t))
  {
    var frame := BuildPacket(t.segment);
    longer := file + PacketHeader(t.at, |frame|);
    longer := longer + frame;
    RecordBytes(t);
    Associate(file, PacketHeader(t.at, |frame|), frame);
  }

  lemma RecordBytes(t: Timed)
    requires Writable(t)
    ensures var frame := BuildPacket(t.segment); Serialize(ToRecord(t)) == PacketHeader(t.at, |frame|) + frame
  {
  }

  // ---- Reading ----

  function Pow256(width: nat): nat {
    if width == 0 then 1 else 0x100 * Pow256(width - 1)
  }

  function Value(bytes: seq<Byte>): (n: nat)
    ensures n < Pow256(|bytes|)
  {
    if bytes == [] then 0 else bytes[0] + 0x100 * Value(bytes[1..])
  }

  function ReadLittle16(bytes: seq<Byte>, at: nat): Word
    requires at + 2 <= |bytes|
  {
    assert Pow256(2) == 0x100 * Pow256(1) == 0x1_0000;
    Value(bytes[at..at + 2])
  }

  function ReadLittle32(bytes: seq<Byte>, at: nat): Long
    requires at + 4 <= |bytes|
  {
    FourBytes();
    Value(bytes[at..at + 4])
  }

  lemma FourBytes()
    ensures Pow256(4) == 0x1_0000_0000
  {
    assert Pow256(2) == 0x1_0000 && Pow256(3) == 0x100_0000;
  }

  function ParsePcap(file: seq<Byte>): Option<seq<Record>> {
    if |file| >= 24 && ReadLittle32(file, 0) == MAGIC
       && ReadLittle16(file, 4) == 2 && ReadLittle16(file, 6) == 4
       && ReadLittle32(file, 20) == ETHERNET_LINK
    then ParseRecords(file[24..], ReadLittle32(file, 16))
    else None
  }

  function ParseRecords(bytes: seq<Byte>, snaplen: Long): Option<seq<Record>>
    decreases |bytes|
  {
    if bytes == [] then Some([])
    else if |bytes| < 16 then None
    else
      var captured := ReadLittle32(bytes, 8);
      if captured > snaplen || ReadLittle32(bytes, 4) >= MICROSECONDS || |bytes| < 16 + captured then None
      else
        match ParseRecords(bytes[16 + captured..], snaplen)
        case None => None
        case Some(rest) =>
          Some([Record(ReadLittle32(bytes, 0), ReadLittle32(bytes, 4), ReadLittle32(bytes, 12),
                       bytes[16..16 + captured])] + rest)
  }

  lemma {:induction false} ValueInvertsLittle(n: nat, width: nat)
    requires n < Pow256(width)
    ensures Value(LittleEndian(n, width)) == n
  {
    if width > 0 {
      ValueInvertsLittle(n / 0x100, width - 1);
      assert LittleEndian(n, width)[1..] == LittleEndian(n / 0x100, width - 1);
    }
  }

  lemma LongReadsBack(bytes: seq<Byte>, at: nat, n: Long)
    requires at + 4 <= |bytes| && bytes[at..at + 4] == LittleEndian32(n)
    ensures ReadLittle32(bytes, at) == n
  {
    FourBytes();
    ValueInvertsLittle(n, 4);
  }

  lemma WordReadsBackLittle(bytes: seq<Byte>, at: nat, w: Word)
    requires at + 2 <= |bytes| && bytes[at..at + 2] == LittleEndian16(w)
    ensures ReadLittle16(bytes, at) == w
  {
    assert Pow256(1) == 0x100 && Pow256(2) == 0x1_0000;
    ValueInvertsLittle(w, 2);
  }

  lemma HeaderFieldsReadBack(sec: Long, usec: Long, captured: Long, original: Long, rest: seq<Byte>)
    ensures var bytes := LittleEndian32(sec) + LittleEndian32(usec) + LittleEndian32(captured)
                         + LittleEndian32(original) + rest;
            && ReadLittle32(bytes, 0) == sec && ReadLittle32(bytes, 4) == usec
            && ReadLittle32(bytes, 8) == captured && ReadLittle32(bytes, 12) == original
            && bytes[16..] == rest
  {
    var bytes := LittleEndian32(sec) + LittleEndian32(usec) + LittleEndian32(captured) + LittleEndian32(original)
                 + rest;
    LongReadsBack(bytes, 0, sec);
    LongReadsBack(bytes, 4, usec);
    LongReadsBack(bytes, 8, captured);
    LongReadsBack(bytes, 12, original);
  }

  lemma FirstRecordReadsBack(r: Record, rest: seq<Byte>)
    requires IsRecord(r)
    ensures var bytes := Serialize(r) + rest;
            && |bytes| >= 16 + |r.frame|
            && ReadLittle32(bytes, 0) == r.sec && ReadLittle32(bytes, 4) == r.usec
            && ReadLittle32(bytes, 8) == |r.frame| && ReadLittle32(bytes, 12) == r.originalLength
            && bytes[16..16 + |r.frame|] == r.frame && bytes[16 + |r.frame|..] == rest
  {
    var header := LittleEndian32(r.sec) + LittleEndian32(r.usec) + LittleEndian32(|r.frame|)
                  + LittleEndian32(r.originalLength);
    HeaderFieldsReadBack(r.sec, r.usec, |r.frame|, r.originalLength, r.frame + rest);
    assert Serialize(r) + rest == header + (r.frame + rest);
    assert (r.frame + rest)[..|r.frame|] == r.frame;
  }

  lemma {:induction false} ParseInvertsSerialize(records: seq<Record>)
    requires AreRecords(records)
    ensures ParseRecords(SerializeAll(records), SNAPLEN) == Some(records)
  {
    if records != [] {
      var first, rest := records[0], records[1..];
      ParseInvertsSerialize(rest);
      assert records == [first] + rest;
      SerializeConcat([first], rest);
      SerializeOne(first);
      FirstRecordReadsBack(first, SerializeAll(rest));
    }
  }

  lemma SerializeOne(r: Record)
    requires IsRecord(r)
    ensures SerializeAll([r]) == Serialize(r)
  {
    assert Encodings([r]) == [Serialize(r)];
    assert Flatten([Serialize(r)]) == Flatten<Byte>([]) + Serialize(r);
  }

  lemma SevenFields(a: seq<Byte>, b: seq<Byte>, c: seq<Byte>, d: seq<Byte>, e: seq<Byte>, f: seq<Byte>, g: seq<Byte>,
                    rest: seq<Byte>)
    requires |a| == 4 && |b| == 2 && |c| == 2 && |d| == 4 && |e| == 4 && |f| == 4 && |g| == 4
    ensures var file := a + b + c + d + e + f + g + rest;
            && file[0..4] == a && file[4..6] == b && file[6..8] == c && file[16..20] == f && file[20..24] == g
            && file[24..] == rest
  {
  }

  lemma GlobalHeaderReadsBack(rest: seq<Byte>)
    ensures ParsePcap(GlobalHeader() + rest) == ParseRecords(rest, SNAPLEN)
  {
    var file := GlobalHeader() + rest;
    SevenFields(LittleEndian32(MAGIC), LittleEndian16(2), LittleEndian16(4), LittleEndian32(0), LittleEndian32(0),
                LittleEndian32(SNAPLEN), LittleEndian32(ETHERNET_LINK), rest);
    LongReadsBack(file, 0, MAGIC);
    WordReadsBackLittle(file, 4, 2);
    WordReadsBackLittle(file, 6, 4);
    LongReadsBack(file, 16, SNAPLEN);
    LongReadsBack(file, 20, ETHERNET_LINK);
  }

  /** Round trip for any list of well-formed records. */
  lemma ParseInvertsWrite(records: seq<Record>)
    requires AreRecords(records)
    ensures ParsePcap(FileOf(records)) == Some(records)
  {
    GlobalHeaderReadsBack(SerializeAll(records));
    ParseInvertsSerialize(records);
  }

  /** What a reader of the file sees of row i: five consecutive records, which in order of time
      are one TCP conversation carrying that row's payload. */
  lemma RowsReplay(rows: seq<Row>, i: nat)
    requires forall k :: 0 <= k < |rows| ==> Fits(rows[k])
    requires i < |rows|
    ensures |RecordsOfRows(rows)| == 5 * |rows|
    ensures var records := RecordsOfRows(rows)[5 * i..5 * i + 5];
            && Received(records, Segments(Exchange(rows[i])))
            && Stamped(records, Exchange(rows[i]))
            && IsConversation(Segments(Exchange(rows[i])))
            && InOrder(records)
  {
    BlocksInPlace(Blocks(rows), i);
    RowReceived(rows[i]);
    ExchangeIsConversation(rows[i]);
  }

  predicate Received(records: seq<Record>, segments: seq<Segment>) {
    && |records| == |segments|
    && forall i :: 0 <= i < |records| ==> Receive(records[i].frame) == Some(segments[i])
  }

  // Times cut to the microsecond, and IPv4 total lengths that count the rest of the frame.
  predicate Stamped(records: seq<Record>, exchange: seq<Timed>) {
    && |records| == |exchange|
    && forall i :: 0 <= i < |records| ==> IsStamped(records[i], exchange[i].at)
  }

  predicate IsStamped(r: Record, at: real) {
    && r.usec < MICROSECONDS
    && 0.0 <= at - (r.sec as real + r.usec as real / 1000000.0) < 0.000001
    && r.originalLength == |r.frame| >= 18
    && ReadWord(r.frame, 16) == |r.frame| - 14
  }

  predicate InOrder(records: seq<Record>) {
    forall i, j :: 0 <= i < j < |records| ==> NotAfter(records[i], records[j])
  }

  predicate NotAfter(a: Record, b: Record) {
    a.sec < b.sec || (a.sec == b.sec && a.usec <= b.usec)
  }

  lemma RowReceived(row: Row)
    requires Fits(row)
    ensures Received(RowRecords(row), Segments(Exchange(row)))
    ensures Stamped(RowRecords(row), Exchange(row)) && InOrder(RowRecords(row))
  {
    ExchangeIsWritable(row);
    ExchangeIsConversation(row);
    var exchange := Exchange(row);
    assert RowRecords(row) == Records(exchange);
    RecordsReceived(exchange);
  }

  lemma ToRecordReceived(t: Timed)
    requires Writable(t)
    ensures Receive(ToRecord(t).frame) == Some(t.segment)
    ensures IsStamped(ToRecord(t), t.at)
  {
    TimestampTruncated(t.at);
    TotalLengthIsRestOfFrame(t.segment);
    ReceiveInvertsBuildPacket(t.segment);
  }

  lemma ToRecordKeepsOrder(t: Timed, later: Timed)
    requires Writable(t) && Writable(later) && t.at <= later.at
    ensures NotAfter(ToRecord(t), ToRecord(later))
  {
    TimestampMonotone(t.at, later.at);
  }

  lemma RecordsReceived(exchange: seq<Timed>)
    requires AllWritable(exchange)
    requires forall i, j :: 0 <= i < j < |exchange| ==> exchange[i].at <= exchange[j].at
    ensures Received(Records(exchange), Segments(exchange))
    ensures Stamped(Records(exchange), exchange) && InOrder(Records(exchange))
  {
    forall i | 0 <= i < |exchange|
      ensures Receive(Records(exchange)[i].frame) == Some(exchange[i].segment)
      ensures IsStamped(Records(exchange)[i], exchange[i].at)
    {
      ToRecordReceived(exchange[i]);
    }
    forall i, j | 0 <= i < j < |exchange| ensures NotAfter(Records(exchange)[i], Records(exchange)[j]) {
      ToRecordKeepsOrder(exchange[i], exchange[j]);
    }
  }

  lemma {:induction false} BlocksInPlace(blocks: seq<seq<Record>>, i: nat)
    requires forall k :: 0 <= k < |blocks| ==> |blocks[k]| == 5
    requires i < |blocks|
    ensures |Flatten(blocks)| == 5 * |blocks|
    ensures Flatten(blocks)[5 * i..5 * i + 5] == blocks[i]
    decreases |blocks|
  {
    var init := blocks[..|blocks| - 1];
    if i < |init| {
      BlocksInPlace(init, i);
      assert Flatten(blocks)[5 * i..5 * i + 5] == Flatten(init)[5 * i..5 * i + 5];
    } else if i > 0 {
      BlocksInPlace(init, i - 1);
    }
  }
}
