/**
 The synthetic TCP exchange that `write_pcap` makes of one dataset row, and what RFC 9293 sections
 3.4 and 3.5 ask of such an exchange.

 `IsConversation` is a passive observer that knows nothing of rows: it tracks each side's next
 sequence number modulo 2^32 and checks every segment against it.
 */
module Conversations {
  import opened Checksums
  import opened Packets

  /** One CSV row after parsing: the timestamp has whole seconds, and `eventHash` stands for Python's
      hash of the event id. */
  datatype Row = Row(seconds: int, sourceIp: Address, workspaceId: string, eventHash: int,
                     action: string, downloadedMb: real)

  function Abs(x: int): nat {
    if x < 0 then -x else x
  }

  predicate IsDigit(c: char) {
    '0' <= c <= '9'
  }

  function Digits(s: string): (digits: string)
    ensures forall i :: 0 <= i < |digits| ==> IsDigit(digits[i])
  {
    if s == "" then ""
    else if IsDigit(s[0]) then [s[0]] + Digits(s[1..])
    else Digits(s[1..])
  }

  function DigitValue(c: char): nat
    requires IsDigit(c)
  {
    (c - '0') as int
  }

  // The number in the last two digits of the workspace id, or 1 without any digit.
  function WorkspaceSuffix(workspaceId: string): nat {
    var digits := Digits(workspaceId);
    if digits == "" then 1
    else if |digits| == 1 then DigitValue(digits[0])
    else 10 * DigitValue(digits[|digits| - 2]) + DigitValue(digits[|digits| - 1])
  }

  function ResponderIp(workspaceId: string): Address {
    [192, 168, 0, 100 + WorkspaceSuffix(workspaceId) % 100]
  }

  function Lower(s: string): (lower: string)
    ensures |lower| == |s|
  {
    seq(|s|, i requires 0 <= i < |s| => if 'A' <= s[i] <= 'Z' then s[i] - 'A' + 'a' else s[i])
  }

  function ServicePort(action: string): Word {
    if Lower(action) == "admin" then 22 else 80
  }

  function SourcePort(eventHash: int): Word {
    49152 + Abs(eventHash) % 16384
  }

  function Bytes(s: string): (bytes: seq<Byte>)
    ensures |bytes| == |s|
  {
    seq(|s|, i requires 0 <= i < |s| => s[i] as int % 0x100)
  }

  const GET_REQUEST := "GET / HTTP/1.1\r\nHost: example.com\r\n\r\n"
  const POST_REQUEST := "POST /upload HTTP/1.1\r\nHost: example.com\r\nContent-Length: 12\r\n\r\nhello=world\r\n"
  const DELETE_REQUEST := "DELETE /resource/1 HTTP/1.1\r\nHost: example.com\r\n\r\n"
  const SSH_BANNER := "SSH-2.0-OpenSSH_8.0\r\n"

  function ServicePayload(action: string): string {
    match Lower(action)
    case "write" => POST_REQUEST
    case "delete" => DELETE_REQUEST
    case "admin" => SSH_BANNER
    case _ => GET_REQUEST
  }

  // Python's int() on a float: towards zero.
  function Truncate(x: real): int {
    if x < 0.0 then -((-x).Floor) else x.Floor
  }

  function PayloadSize(downloadedMb: real): nat {
    var wanted := Truncate(downloadedMb * 1024.0 / 10.0);
    if wanted < 0 then 0 else if wanted > 1200 then 1200 else wanted
  }

  function MakePayload(action: string, downloadedMb: real): seq<Byte> {
    var service := Bytes(ServicePayload(action));
    var size := PayloadSize(downloadedMb);
    if size <= |service| then service else service + seq(size - |service|, _ => 0x58)
  }

  function InitialSequence(row: Row): Long {
    Abs(row.eventHash) % 0x1_0000_0000
  }

  function RowPayload(row: Row): seq<Byte> {
    MakePayload(row.action, row.downloadedMb)
  }

  /** What `struct.pack` can encode: it raises instead of wrapping. */
  predicate Fits(row: Row) {
    && 0 <= row.seconds < 0x1_0000_0000
    && InitialSequence(row) + 1 + |RowPayload(row)| < 0x1_0000_0000
  }

  datatype Timed = Timed(at: real, segment: Segment)

  function Exchange(row: Row): seq<Timed>
    requires Fits(row)
  {
    PayloadBounds(row.action, row.downloadedMb);
    var client, server := row.sourceIp, ResponderIp(row.workspaceId);
    var clientPort, serverPort := SourcePort(row.eventHash), ServicePort(row.action);
    var isn, payload := InitialSequence(row), RowPayload(row);
    var ts := row.seconds as real;
    [Timed(ts, Segment(client, server, clientPort, serverPort, isn, 0, SYN, [])),
     Timed(ts + 0.0005, Segment(server, client, serverPort, clientPort, 1, isn + 1, SYN + ACK, [])),
     Timed(ts + 0.001, Segment(client, server, clientPort, serverPort, isn + 1, 2, ACK, []))]
    + (if payload == [] then [] else
       [Timed(ts + 0.002, Segment(client, server, clientPort, serverPort, isn + 1, 2, PSH + ACK, payload))])
    + [Timed(ts + 0.003, Segment(client, server, clientPort, serverPort, isn + 1 + |payload|, 2, FIN + ACK, []))]
  }

  /** The payload is never empty, so the guard before the data packet never skips it, and never so
      large that a packet exceeds 1240 bytes. */
  lemma PayloadBounds(action: string, downloadedMb: real)
    ensures 0 < |MakePayload(action, downloadedMb)| <= 1200
  {
    assert 0 < |GET_REQUEST| <= 100 && 0 < |POST_REQUEST| <= 100;
    assert 0 < |DELETE_REQUEST| <= 100 && 0 < |SSH_BANNER| <= 100;
  }

  // ---- The observer ----

  predicate HasFlag(flags: FlagBits, bit: FlagBits)
    requires bit > 0
  {
    flags / bit % 2 == 1
  }

  function SequenceAfter(s: Segment): Long {
    var syn := if HasFlag(s.flags, SYN) then 1 else 0;
    var fin := if HasFlag(s.flags, FIN) then 1 else 0;
    (s.seqNo + |s.payload| + syn + fin) % 0x1_0000_0000
  }

  predicate SameDirection(s: Segment, t: Segment) {
    s.src == t.src && s.dst == t.dst && s.srcPort == t.srcPort && s.dstPort == t.dstPort
  }

  predicate OppositeDirection(s: Segment, t: Segment) {
    s.src == t.dst && s.dst == t.src && s.srcPort == t.dstPort && s.dstPort == t.srcPort
  }

  // The latest segment of each side decides what comes next from either.
  predicate Continues(client: Segment, server: Segment, rest: seq<Segment>)
    decreases |rest|
  {
    rest != [] ==>
      var s := rest[0];
      && HasFlag(s.flags, ACK) && !HasFlag(s.flags, SYN)
      && if SameDirection(s, client) then
           && !HasFlag(client.flags, FIN)
           && s.seqNo == SequenceAfter(client) && s.ackNo == SequenceAfter(server)
           && Continues(s, server, rest[1..])
         else
           && OppositeDirection(s, client)
           && !HasFlag(server.flags, FIN)
           && s.seqNo == SequenceAfter(server) && s.ackNo == SequenceAfter(client)
           && Continues(client, s, rest[1..])
  }

  /** A three-way handshake, then segments in sequence that acknowledge exactly what the peer sent. */
  predicate IsConversation(segments: seq<Segment>) {
    && |segments| >= 3
    && segments[0].flags == SYN && segments[0].ackNo == 0
    && segments[1].flags == SYN + ACK && OppositeDirection(segments[1], segments[0])
    && segments[1].ackNo == SequenceAfter(segments[0])
    && segments[2].flags == ACK && SameDirection(segments[2], segments[0])
    && Continues(segments[0], segments[1], segments[2..])
  }

  // The bytes one side delivers over the segments.
  function Delivered(from: Address, fromPort: Word, segments: seq<Segment>): seq<Byte> {
    if segments == [] then []
    else (if segments[0].src == from && segments[0].srcPort == fromPort then segments[0].payload else [])
         + Delivered(from, fromPort, segments[1..])
  }

  function Segments(exchange: seq<Timed>): (segments: seq<Segment>)
    ensures |segments| == |exchange|
  {
    seq(|exchange|, i requires 0 <= i < |exchange| => exchange[i].segment)
  }

  lemma FlagsDecode()
    ensures HasFlag(SYN, SYN) && !HasFlag(SYN, FIN)
    ensures HasFlag(SYN + ACK, SYN) && HasFlag(SYN + ACK, ACK) && !HasFlag(SYN + ACK, FIN)
    ensures HasFlag(ACK, ACK) && !HasFlag(ACK, SYN) && !HasFlag(ACK, FIN)
    ensures HasFlag(PSH + ACK, ACK) && !HasFlag(PSH + ACK, SYN) && !HasFlag(PSH + ACK, FIN)
    ensures HasFlag(FIN + ACK, ACK) && !HasFlag(FIN + ACK, SYN) && HasFlag(FIN + ACK, FIN)
  {
  }

  /** Every row yields five segments forming a TCP conversation that the client closes and that
      delivers the row's whole payload, in order of time. */
  lemma ExchangeIsConversation(row: Row)
    requires Fits(row)
    ensures |Exchange(row)| == 5
    ensures IsConversation(Segments(Exchange(row)))
    ensures HasFlag(Exchange(row)[4].segment.flags, FIN)
    ensures Delivered(row.sourceIp, SourcePort(row.eventHash), Segments(Exchange(row))) == RowPayload(row)
    ensures forall i, j :: 0 <= i < j < 5 ==> Exchange(row)[i].at <= Exchange(row)[j].at < row.seconds as real + 1.0
  {
    PayloadBounds(row.action, row.downloadedMb);
    FlagsDecode();
    var s := Segments(Exchange(row));
    assert Continues(s[4], s[1], []);
    assert Continues(s[3], s[1], s[4..]) by { assert s[4..][1..] == []; }
    assert Continues(s[2], s[1], s[3..]) by { assert s[3..][1..] == s[4..]; }
    assert Continues(s[0], s[1], s[2..]) by { assert s[2..][1..] == s[3..]; }
    DeliveredByFive(row.sourceIp, SourcePort(row.eventHash), s, RowPayload(row));
  }

  lemma DeliveredByFive(from: Address, fromPort: Word, s: seq<Segment>, payload: seq<Byte>)
    requires |s| == 5
    requires s[0].payload == s[1].payload == s[2].payload == s[4].payload == []
    requires s[3].payload == payload && s[3].src == from && s[3].srcPort == fromPort
    ensures Delivered(from, fromPort, s) == payload
  {
    assert Delivered(from, fromPort, s[4..]) == [] by { assert s[4..][1..] == []; }
    assert Delivered(from, fromPort, s[3..]) == payload by { assert s[3..][1..] == s[4..]; }
    assert Delivered(from, fromPort, s[2..]) == payload by { assert s[2..][1..] == s[3..]; }
    assert Delivered(from, fromPort, s[1..]) == payload by { assert s[1..][1..] == s[2..]; }
  }

  /** No packet of any row is longer than 1240 bytes after the Ethernet header. */
  lemma PacketsAreShort(row: Row, i: nat)
    requires Fits(row) && i < |Exchange(row)|
    ensures |Exchange(row)[i].segment.payload| <= 1200
    ensures ReadWord(BuildPacket(Exchange(row)[i].segment), 16) <= 1240
  {
    PayloadBounds(row.action, row.downloadedMb);
    TotalLengthIsRestOfFrame(Exchange(row)[i].segment);
  }
}
