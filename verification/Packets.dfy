/**
 The frames of scripts/generate_zeek_pcap.py: an Ethernet header, an IPv4 header (RFC 791 section
 3.1) and a TCP header with its pseudo-header checksum (RFC 9293 section 3.1).

 `Receive` is the other end of the wire: it reads a frame by the offsets of those standards and
 drops it unless every length, type and checksum is right. The main result is that it accepts
 every frame `BuildPacket` makes and reads back exactly what was sent.
 */
module Packets {
  import opened Checksums
  import opened Options

  type Long = x: int | 0 <= x < 0x1_0000_0000
  type Address = a: seq<Byte> | |a| == 4 witness [0, 0, 0, 0]
  type FlagBits = x: int | 0 <= x < 0x1000

  const FIN: FlagBits := 0x01
  const SYN: FlagBits := 0x02
  const PSH: FlagBits := 0x08
  const ACK: FlagBits := 0x10

  const ETHERNET_HEADER: seq<Byte> :=
    [0xaa, 0xaa, 0xaa, 0xaa, 0xaa, 0xaa, 0xbb, 0xbb, 0xbb, 0xbb, 0xbb, 0xbb, 0x08, 0x00]

  const MAX_PAYLOAD := 0xFFFF - 40

  function HighWord(n: Long): Word { n / 0x1_0000 }

  function LowWord(n: Long): Word { n % 0x1_0000 }

  /** The words in network order, one after the other. */
  function PackWords(words: seq<Word>): (bytes: seq<Byte>)
    ensures |bytes| == 2 * |words|
  {
    if words == [] then [] else BigEndian16(words[0]) + PackWords(words[1..])
  }

  function PackIpv4(totalLength: Word, ident: Word, checksum: Word, src: Address, dst: Address): (header: seq<Byte>)
    ensures |header| == 20
  {
    PackWords([0x4500, totalLength, ident, 0, 0x4006, checksum]) + src + dst
  }

  function BuildIpv4Header(src: Address, dst: Address, totalLength: Word, ident: Word): (header: seq<Byte>)
    ensures |header| == 20
  {
    PackIpv4(totalLength, ident, Checksum(PackIpv4(totalLength, ident, 0, src, dst)), src, dst)
  }

  function PackTcp(srcPort: Word, dstPort: Word, seqNo: Long, ackNo: Long, flags: FlagBits,
                   window: Word, checksum: Word): (header: seq<Byte>)
    ensures |header| == 20
  {
    PackWords([srcPort, dstPort, HighWord(seqNo), LowWord(seqNo), HighWord(ackNo), LowWord(ackNo), 0x5000 + flags,
               window, checksum, 0])
  }

  function PseudoHeader(src: Address, dst: Address, tcpLength: Word): (header: seq<Byte>)
    ensures |header| == 12
  {
    src + dst + PackWords([6, tcpLength])
  }

  function BuildTcpHeader(srcPort: Word, dstPort: Word, seqNo: Long, ackNo: Long, flags: FlagBits,
                          window: Word, payload: seq<Byte>, src: Address, dst: Address): (header: seq<Byte>)
    requires |payload| <= 0xFFFF - 20
    ensures |header| == 20
  {
    var zeroed := PackTcp(srcPort, dstPort, seqNo, ackNo, flags, window, 0);
    var checksum := Checksum(PseudoHeader(src, dst, 20 + |payload|) + zeroed + payload);
    PackTcp(srcPort, dstPort, seqNo, ackNo, flags, window, checksum)
  }

  datatype Segment = Segment(src: Address, dst: Address, srcPort: Word, dstPort: Word,
                             seqNo: Long, ackNo: Long, flags: FlagBits, payload: seq<Byte>)

  function BuildPacket(s: Segment): (frame: seq<Byte>)
    requires |s.payload| <= MAX_PAYLOAD
    ensures |frame| == 54 + |s.payload|
  {
    var tcp := BuildTcpHeader(s.srcPort, s.dstPort, s.seqNo, s.ackNo, s.flags, 65535, s.payload, s.src, s.dst);
    var ip := BuildIpv4Header(s.src, s.dst, 20 + |tcp| + |s.payload|, 0);
    ETHERNET_HEADER + ip + tcp + s.payload
  }

  // ---- Checksums of the emitted headers ----

  // One word of a packed header, with what is around it.
  lemma {:induction false} PackedAround(before: seq<Word>, w: Word, after: seq<Word>)
    ensures PackWords(before + [w] + after) == PackWords(before) + BigEndian16(w) + PackWords(after)
  {
    var words := before + [w] + after;
    if before == [] {
      assert words[1..] == after;
    } else {
      assert words[1..] == before[1..] + [w] + after;
      PackedAround(before[1..], w, after);
    }
  }

  lemma Ipv4AroundChecksum(totalLength: Word, ident: Word, c: Word, src: Address, dst: Address)
    ensures PackIpv4(totalLength, ident, c, src, dst)
            == PackWords([0x4500, totalLength, ident, 0, 0x4006]) + BigEndian16(c) + (src + dst)
  {
    PackedAround([0x4500, totalLength, ident, 0, 0x4006], c, []);
    assert [0x4500, totalLength, ident, 0, 0x4006] + [c] + [] == [0x4500, totalLength, ident, 0, 0x4006, c];
  }

  /** A receiver that sums an emitted IPv4 header gets 0. */
  lemma Ipv4HeaderVerifies(src: Address, dst: Address, totalLength: Word, ident: Word)
    ensures Checksum(BuildIpv4Header(src, dst, totalLength, ident)) == 0
  {
    Ipv4AroundChecksum(totalLength, ident, 0, src, dst);
    Ipv4AroundChecksum(totalLength, ident, Checksum(PackIpv4(totalLength, ident, 0, src, dst)), src, dst);
    StoredChecksumVerifies(PackWords([0x4500, totalLength, ident, 0, 0x4006]), src + dst);
  }

  function WordsBeforeChecksum(srcPort: Word, dstPort: Word, seqNo: Long, ackNo: Long, flags: FlagBits,
                               window: Word): seq<Word> {
    [srcPort, dstPort, HighWord(seqNo), LowWord(seqNo), HighWord(ackNo), LowWord(ackNo), 0x5000 + flags, window]
  }

  lemma TcpAroundChecksum(srcPort: Word, dstPort: Word, seqNo: Long, ackNo: Long, flags: FlagBits,
                          window: Word, c: Word)
    ensures PackTcp(srcPort, dstPort, seqNo, ackNo, flags, window, c)
            == PackWords(WordsBeforeChecksum(srcPort, dstPort, seqNo, ackNo, flags, window)) + BigEndian16(c)
               + PackWords([0])
  {
    var before := WordsBeforeChecksum(srcPort, dstPort, seqNo, ackNo, flags, window);
    PackedAround(before, c, [0]);
    assert before + [c] + [0]
        == [srcPort, dstPort, HighWord(seqNo), LowWord(seqNo), HighWord(ackNo), LowWord(ackNo), 0x5000 + flags,
            window, c, 0];
  }

  // The same bytes, cut where the checksum stands.
  lemma RegroupSegment(pseudo: seq<Byte>, before: seq<Byte>, c: seq<Byte>, after: seq<Byte>, payload: seq<Byte>)
    ensures pseudo + (before + c + after) + payload == (pseudo + before) + c + (after + payload)
    ensures pseudo + ((before + c + after) + payload) == (pseudo + before) + c + (after + payload)
  {
  }

  // A checksum stored inside a segment, over pseudo-header, header and payload.
  lemma StoredInSegment(pseudo: seq<Byte>, before: seq<Byte>, after: seq<Byte>, payload: seq<Byte>)
    requires |pseudo| % 2 == 0 && |before| % 2 == 0
    ensures var c := Checksum(pseudo + (before + BigEndian16(0) + after) + payload);
            Checksum(pseudo + ((before + BigEndian16(c) + after) + payload)) == 0
  {
    var c := Checksum(pseudo + (before + BigEndian16(0) + after) + payload);
    RegroupSegment(pseudo, before, BigEndian16(0), after, payload);
    RegroupSegment(pseudo, before, BigEndian16(c), after, payload);
    StoredChecksumVerifies(pseudo + before, after + payload);
  }

  /** And 0 again over pseudo-header, emitted TCP header and payload, of even or odd length. */
  lemma TcpSegmentVerifies(srcPort: Word, dstPort: Word, seqNo: Long, ackNo: Long, flags: FlagBits,
                           window: Word, payload: seq<Byte>, src: Address, dst: Address)
    requires |payload| <= 0xFFFF - 20
    ensures Checksum(PseudoHeader(src, dst, 20 + |payload|)
                     + (BuildTcpHeader(srcPort, dstPort, seqNo, ackNo, flags, window, payload, src, dst)
                        + payload)) == 0
  {
    var pseudo := PseudoHeader(src, dst, 20 + |payload|);
    var before := WordsBeforeChecksum(srcPort, dstPort, seqNo, ackNo, flags, window);
    var c := Checksum(pseudo + PackTcp(srcPort, dstPort, seqNo, ackNo, flags, window, 0) + payload);
    TcpAroundChecksum(srcPort, dstPort, seqNo, ackNo, flags, window, 0);
    TcpAroundChecksum(srcPort, dstPort, seqNo, ackNo, flags, window, c);
    StoredInSegment(pseudo, PackWords(before), PackWords([0]), payload);
  }

  // ---- The receiving end ----

  function ReadWord(bytes: seq<Byte>, at: nat): Word
    requires at + 2 <= |bytes|
  {
    WordOf(bytes[at], bytes[at + 1])
  }

  function ReadLong(bytes: seq<Byte>, at: nat): Long
    requires at + 4 <= |bytes|
  {
    ReadWord(bytes, at) * 0x1_0000 + ReadWord(bytes, at + 2)
  }

  // A whole, unfragmented, option-free IPv4 packet carrying TCP.
  predicate AcceptsIpv4(packet: seq<Byte>) {
    && |packet| >= 20
    && packet[0] == 0x45
    && ReadWord(packet, 2) == |packet|
    && ReadWord(packet, 6) == 0
    && packet[8] > 0
    && packet[9] == 6
    && Checksum(packet[..20]) == 0
  }

  predicate AcceptsTcp(src: Address, dst: Address, tcp: seq<Byte>) {
    && 20 <= |tcp| <= 0xFFFF
    && ReadWord(tcp, 12) / 0x1000 == 5
    && Checksum(PseudoHeader(src, dst, |tcp|) + tcp) == 0
  }

  function ReadSegment(src: Address, dst: Address, tcp: seq<Byte>): Segment
    requires |tcp| >= 20
  {
    Segment(src, dst, ReadWord(tcp, 0), ReadWord(tcp, 2), ReadLong(tcp, 4), ReadLong(tcp, 8),
            ReadWord(tcp, 12) % 0x1000, tcp[20..])
  }

  function Receive(frame: seq<Byte>): Option<Segment> {
    if |frame| >= 14 && ReadWord(frame, 12) == 0x0800 then ReceiveIpv4(frame[14..]) else None
  }

  function ReceiveIpv4(packet: seq<Byte>): Option<Segment> {
    if AcceptsIpv4(packet) then ReceiveTcp(packet[12..16], packet[16..20], packet[20..]) else None
  }

  function ReceiveTcp(src: Address, dst: Address, tcp: seq<Byte>): Option<Segment> {
    if AcceptsTcp(src, dst, tcp) then Some(ReadSegment(src, dst, tcp)) else None
  }

  /** Every packed word reads back, whatever follows the header. */
  lemma {:induction false} WordReadsBack(words: seq<Word>, i: nat, rest: seq<Byte>)
    requires i < |words|
    ensures (PackWords(words) + rest)[2 * i..2 * i + 2] == BigEndian16(words[i])
    ensures ReadWord(PackWords(words) + rest, 2 * i) == words[i]
  {
    var bytes := PackWords(words) + rest;
    if i > 0 {
      WordReadsBack(words[1..], i - 1, rest);
      assert bytes[2..] == PackWords(words[1..]) + rest;
      assert bytes[2 * i..2 * i + 2] == bytes[2..][2 * (i - 1)..2 * (i - 1) + 2];
    }
    assert bytes[2 * i..2 * i + 2] == BigEndian16(words[i]);
    assert bytes[2 * i] == bytes[2 * i..2 * i + 2][0] && bytes[2 * i + 1] == bytes[2 * i..2 * i + 2][1];
  }

  // The same for bytes known to be packed from these words.
  lemma WordAt(bytes: seq<Byte>, words: seq<Word>, rest: seq<Byte>, i: nat)
    requires i < |words| && bytes == PackWords(words) + rest
    ensures ReadWord(bytes, 2 * i) == words[i]
  {
    WordReadsBack(words, i, rest);
  }

  lemma LongAt(bytes: seq<Byte>, at: nat, n: Long)
    requires at + 4 <= |bytes| && ReadWord(bytes, at) == HighWord(n) && ReadWord(bytes, at + 2) == LowWord(n)
    ensures ReadLong(bytes, at) == n
  {
  }

  lemma TcpWordsReadBack(tcp: seq<Byte>, s: Segment, words: seq<Word>)
    requires |words| == 10 && tcp == PackWords(words) + s.payload
    requires words[0] == s.srcPort && words[1] == s.dstPort && words[2] == HighWord(s.seqNo)
    requires words[3] == LowWord(s.seqNo) && words[4] == HighWord(s.ackNo) && words[5] == LowWord(s.ackNo)
    requires words[6] == 0x5000 + s.flags
    ensures ReadWord(tcp, 0) == s.srcPort && ReadWord(tcp, 2) == s.dstPort && ReadLong(tcp, 4) == s.seqNo
    ensures ReadLong(tcp, 8) == s.ackNo && ReadWord(tcp, 12) == 0x5000 + s.flags && tcp[20..] == s.payload
  {
    WordAt(tcp, words, s.payload, 0);
    WordAt(tcp, words, s.payload, 1);
    WordAt(tcp, words, s.payload, 2);
    WordAt(tcp, words, s.payload, 3);
    LongAt(tcp, 4, s.seqNo);
    WordAt(tcp, words, s.payload, 4);
    WordAt(tcp, words, s.payload, 5);
    LongAt(tcp, 8, s.ackNo);
    WordAt(tcp, words, s.payload, 6);
  }

  lemma OffsetAndFlags(flags: FlagBits)
    ensures (0x5000 + flags) / 0x1000 == 5 && (0x5000 + flags) % 0x1000 == flags
  {
  }

  lemma PackedSegmentReadsBack(tcp: seq<Byte>, s: Segment, words: seq<Word>)
    requires |words| == 10 && tcp == PackWords(words) + s.payload
    requires words[0] == s.srcPort && words[1] == s.dstPort && words[2] == HighWord(s.seqNo)
    requires words[3] == LowWord(s.seqNo) && words[4] == HighWord(s.ackNo) && words[5] == LowWord(s.ackNo)
    requires words[6] == 0x5000 + s.flags
    ensures ReadWord(tcp, 12) / 0x1000 == 5 && ReadSegment(s.src, s.dst, tcp) == s
  {
    TcpWordsReadBack(tcp, s, words);
    OffsetAndFlags(s.flags);
  }

  lemma TcpHeaderReadsBack(s: Segment, window: Word, checksum: Word)
    ensures var tcp := PackTcp(s.srcPort, s.dstPort, s.seqNo, s.ackNo, s.flags, window, checksum) + s.payload;
            ReadWord(tcp, 12) / 0x1000 == 5 && ReadSegment(s.src, s.dst, tcp) == s
  {
    var words := [s.srcPort, s.dstPort, HighWord(s.seqNo), LowWord(s.seqNo), HighWord(s.ackNo), LowWord(s.ackNo),
                  0x5000 + s.flags, window, checksum, 0];
    PackedSegmentReadsBack(PackWords(words) + s.payload, s, words);
  }

  lemma TcpFieldsReadBack(s: Segment, window: Word)
    requires |s.payload| <= 0xFFFF - 20
    ensures var tcp := BuildTcpHeader(s.srcPort, s.dstPort, s.seqNo, s.ackNo, s.flags, window, s.payload, s.src, s.dst)
                       + s.payload;
            ReadWord(tcp, 12) / 0x1000 == 5 && ReadSegment(s.src, s.dst, tcp) == s
  {
    var zeroed := PackTcp(s.srcPort, s.dstPort, s.seqNo, s.ackNo, s.flags, window, 0);
    TcpHeaderReadsBack(s, window, Checksum(PseudoHeader(s.src, s.dst, 20 + |s.payload|) + zeroed + s.payload));
  }

  lemma TcpSegmentReceived(s: Segment, window: Word)
    requires |s.payload| <= 0xFFFF - 20
    ensures var tcp := BuildTcpHeader(s.srcPort, s.dstPort, s.seqNo, s.ackNo, s.flags, window, s.payload, s.src, s.dst);
            ReceiveTcp(s.src, s.dst, tcp + s.payload) == Some(s)
  {
    TcpSegmentVerifies(s.srcPort, s.dstPort, s.seqNo, s.ackNo, s.flags, window, s.payload, s.src, s.dst);
    TcpFieldsReadBack(s, window);
  }

  // Where the parts of a packet stand.
  lemma Ipv4Layout(words: seq<Word>, src: Address, dst: Address, body: seq<Byte>)
    requires |words| == 6
    ensures var header := PackWords(words) + src + dst;
            var packet := header + body;
            && packet == PackWords(words) + (src + dst + body) && packet[..20] == header
            && packet[12..16] == src && packet[16..20] == dst && packet[20..] == body
  {
  }

  lemma BytesAt(bytes: seq<Byte>, at: nat, high: Byte, low: Byte)
    requires at + 2 <= |bytes| && ReadWord(bytes, at) == WordOf(high, low)
    ensures bytes[at] == high && bytes[at + 1] == low
  {
  }

  lemma Ipv4WordsReadBack(packet: seq<Byte>, words: seq<Word>, rest: seq<Byte>)
    requires |words| == 6 && packet == PackWords(words) + rest
    requires words[0] == 0x4500 && words[3] == 0 && words[4] == 0x4006
    ensures packet[0] == 0x45 && ReadWord(packet, 2) == words[1] && ReadWord(packet, 6) == 0
    ensures packet[8] == 64 && packet[9] == 6
  {
    WordAt(packet, words, rest, 0);
    BytesAt(packet, 0, 0x45, 0);
    WordAt(packet, words, rest, 1);
    WordAt(packet, words, rest, 3);
    WordAt(packet, words, rest, 4);
    BytesAt(packet, 8, 64, 6);
  }

  lemma Ipv4FieldsReadBack(src: Address, dst: Address, ident: Word, checksum: Word, body: seq<Byte>)
    requires |body| <= 0xFFFF - 20
    ensures var header := PackIpv4(20 + |body|, ident, checksum, src, dst);
            var packet := header + body;
            && packet[0] == 0x45 && ReadWord(packet, 2) == |packet| && ReadWord(packet, 6) == 0
            && packet[8] == 64 && packet[9] == 6 && packet[..20] == header
            && packet[12..16] == src && packet[16..20] == dst && packet[20..] == body
  {
    var words := [0x4500, 20 + |body|, ident, 0, 0x4006, checksum];
    Ipv4Layout(words, src, dst, body);
    Ipv4WordsReadBack(PackWords(words) + src + dst + body, words, src + dst + body);
  }

  lemma Ipv4PacketAccepted(src: Address, dst: Address, ident: Word, body: seq<Byte>)
    requires |body| <= 0xFFFF - 20
    ensures var packet := BuildIpv4Header(src, dst, 20 + |body|, ident) + body;
            AcceptsIpv4(packet) && packet[12..16] == src && packet[16..20] == dst && packet[20..] == body
  {
    Ipv4FieldsReadBack(src, dst, ident, Checksum(PackIpv4(20 + |body|, ident, 0, src, dst)), body);
    Ipv4HeaderVerifies(src, dst, 20 + |body|, ident);
  }

  lemma FrameReceived(packet: seq<Byte>)
    ensures Receive(ETHERNET_HEADER + packet) == ReceiveIpv4(packet)
  {
    assert (ETHERNET_HEADER + packet)[14..] == packet;
  }

  /** Everything sent is received: the receiver's lengths, types and both checksums all hold for an
      emitted frame, and addresses, ports, numbers, flags and payload come back unchanged. */
  lemma ReceiveInvertsBuildPacket(s: Segment)
    requires |s.payload| <= MAX_PAYLOAD
    ensures Receive(BuildPacket(s)) == Some(s)
  {
    var tcp := BuildTcpHeader(s.srcPort, s.dstPort, s.seqNo, s.ackNo, s.flags, 65535, s.payload, s.src, s.dst);
    var ip := BuildIpv4Header(s.src, s.dst, 40 + |s.payload|, 0);
    TcpSegmentReceived(s, 65535);
    Ipv4PacketAccepted(s.src, s.dst, 0, tcp + s.payload);
    FrameReceived(ip + (tcp + s.payload));
    RegroupFrame(ip, tcp, s.payload);
  }

  lemma RegroupFrame(ip: seq<Byte>, tcp: seq<Byte>, payload: seq<Byte>)
    ensures ETHERNET_HEADER + ip + tcp + payload == ETHERNET_HEADER + (ip + (tcp + payload))
  {
  }

  lemma AfterEthernet(packet: seq<Byte>, at: nat)
    requires at + 2 <= |packet|
    ensures ReadWord(ETHERNET_HEADER + packet, 14 + at) == ReadWord(packet, at)
  {
  }

  /** The IPv4 total length of a frame counts everything after the Ethernet header. */
  lemma TotalLengthIsRestOfFrame(s: Segment)
    requires |s.payload| <= MAX_PAYLOAD
    ensures ReadWord(BuildPacket(s), 16) == |BuildPacket(s)| - 14
  {
    var tcp := BuildTcpHeader(s.srcPort, s.dstPort, s.seqNo, s.ackNo, s.flags, 65535, s.payload, s.src, s.dst);
    var ip := BuildIpv4Header(s.src, s.dst, 40 + |s.payload|, 0);
    Ipv4FieldsReadBack(s.src, s.dst, 0, Checksum(PackIpv4(40 + |s.payload|, 0, 0, s.src, s.dst)), tcp + s.payload);
    RegroupFrame(ip, tcp, s.payload);
    AfterEthernet(ip + (tcp + s.payload), 2);
  }
}
