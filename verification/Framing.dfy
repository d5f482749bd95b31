// The TLV frame format: one packet to bytes, bytes to packets, and what a cut in
// the byte stream can and cannot do to the packet sequence.

module Framing {
  import opened Endian
  import Seqs

  const TLV_MAGIC: U32 := 0x544C5631
  const TLV_VERSION: U32 := 1
  const MAX_PACKET_PAYLOAD: int := 64 * 1024
  const HEADER_SIZE: int := 20
  const FILE_BLOCK_SIZE: int := 4096

  const CMD_PWD: U32 := 1
  const CMD_CD: U32 := 2
  const CMD_LS: U32 := 3
  const CMD_RM: U32 := 4
  const CMD_MKDIR: U32 := 5
  const CMD_PUTS_REQ: U32 := 6
  const CMD_PUTS_RESP: U32 := 7
  const CMD_GETS_REQ: U32 := 8
  const CMD_GETS_RESP: U32 := 9
  const CMD_RESUME_POS: U32 := 10
  const CMD_FILE_DATA: U32 := 11
  const CMD_FILE_END: U32 := 12
  const CMD_ACK: U32 := 13
  const CMD_ERROR: U32 := 14

  const STATUS_OK: U32 := 0
  const STATUS_BAD_REQUEST: U32 := 1
  const STATUS_NOT_FOUND: U32 := 2
  const STATUS_IO_ERROR: U32 := 3
  const STATUS_PROTOCOL_ERROR: U32 := 4

  /** The codes of the two enumerations, in the order of the commands and of the statuses. */
  lemma WireCodes()
    ensures [CMD_PWD, CMD_CD, CMD_LS, CMD_RM, CMD_MKDIR] == [1, 2, 3, 4, 5]
    ensures [CMD_PUTS_REQ, CMD_PUTS_RESP, CMD_GETS_REQ, CMD_GETS_RESP, CMD_RESUME_POS] == [6, 7, 8, 9, 10]
    ensures [CMD_FILE_DATA, CMD_FILE_END, CMD_ACK, CMD_ERROR] == [11, 12, 13, 14]
    ensures [STATUS_OK, STATUS_BAD_REQUEST, STATUS_NOT_FOUND, STATUS_IO_ERROR, STATUS_PROTOCOL_ERROR] == [0, 1, 2, 3, 4]
  {
  }

  /** A packet after unpacking: the command and status words are not interpreted here. */
  datatype Packet = Packet(cmd: U32, status: U32, payload: seq<Byte>)

  predicate Sendable(p: Packet) {
    |p.payload| <= MAX_PACKET_PAYLOAD
  }

  /** tlv_header_t: five 32-bit words, sent in network byte order. */
  datatype TlvHeader = TlvHeader(magic: U32, version: U32, cmd: U32, status: U32, dataLen: U32)

  function EncodeHeader(h: TlvHeader): (b: seq<Byte>)
    ensures |b| == HEADER_SIZE
  {
    Be32(h.magic) + Be32(h.version) + Be32(h.cmd) + Be32(h.status) + Be32(h.dataLen)
  }

  function DecodeHeader(b: seq<Byte>): TlvHeader
    requires |b| == HEADER_SIZE
  {
    TlvHeader(FromBe32(b[0..4]), FromBe32(b[4..8]), FromBe32(b[8..12]), FromBe32(b[12..16]), FromBe32(b[16..20]))
  }

  lemma DecodeEncodeHeader(h: TlvHeader)
    ensures DecodeHeader(EncodeHeader(h)) == h
  {
    hide Be32, FromBe32;
    var b := EncodeHeader(h);
    assert b[0..4] == Be32(h.magic);
    assert b[4..8] == Be32(h.version);
    assert b[8..12] == Be32(h.cmd);
    assert b[12..16] == Be32(h.status);
    assert b[16..20] == Be32(h.dataLen);
    FromBe32Be32(h.magic);
    FromBe32Be32(h.version);
    FromBe32Be32(h.cmd);
    FromBe32Be32(h.status);
    FromBe32Be32(h.dataLen);
  }

  lemma EncodeDecodeHeader(b: seq<Byte>)
    requires |b| == HEADER_SIZE
    ensures EncodeHeader(DecodeHeader(b)) == b
  {
    Be32FromBe32(b[0..4]);
    Be32FromBe32(b[4..8]);
    Be32FromBe32(b[8..12]);
    Be32FromBe32(b[12..16]);
    Be32FromBe32(b[16..20]);
    assert b == b[0..4] + b[4..8] + b[8..12] + b[12..16] + b[16..20];
  }

  function HeaderOf(p: Packet): TlvHeader
    requires Sendable(p)
  {
    TlvHeader(TLV_MAGIC, TLV_VERSION, p.cmd, p.status, |p.payload|)
  }

  function Encode(p: Packet): (b: seq<Byte>)
    requires Sendable(p)
    ensures |b| == HEADER_SIZE + |p.payload|
  {
    EncodeHeader(HeaderOf(p)) + p.payload
  }

  datatype Parsed =
    | Got(packet: Packet, rest: seq<Byte>)
    | NeedMore    // the stream ended inside a packet: recv_n reports an error
    | Malformed   // wrong magic, wrong version or an oversized length

  /** recv_packet as a function of all the bytes that will ever arrive. */
  function Parse(s: seq<Byte>): (r: Parsed)
    ensures r.Got? ==> Sendable(r.packet) && |r.rest| < |s|
  {
    if |s| < HEADER_SIZE then NeedMore
    else
      var h := DecodeHeader(s[..HEADER_SIZE]);
      if h.magic != TLV_MAGIC || h.version != TLV_VERSION || h.dataLen > MAX_PACKET_PAYLOAD then Malformed
      else
        var end := HEADER_SIZE + h.dataLen;
        if |s| < end then NeedMore
        else Got(Packet(h.cmd, h.status, s[HEADER_SIZE..end]), s[end..])
  }

  /** The stream recv_packet leaves: behind the packet, or where it gave up. */
  function AfterPacket(s: seq<Byte>): (rest: seq<Byte>)
    ensures |rest| <= |s|
    ensures Parse(s).Got? ==> rest == Parse(s).rest
  {
    match Parse(s)
    case Got(_, rest) => rest
    case NeedMore => []
    case Malformed => s[HEADER_SIZE..]
  }

  // ---------- one packet ----------

  lemma ParseEncode(p: Packet, tail: seq<Byte>)
    requires Sendable(p)
    ensures Parse(Encode(p) + tail) == Got(p, tail)
  {
    var s := Encode(p) + tail;
    DecodeEncodeHeader(HeaderOf(p));
    assert s[..HEADER_SIZE] == EncodeHeader(HeaderOf(p));
    assert s[HEADER_SIZE..HEADER_SIZE + |p.payload|] == p.payload;
    assert s[HEADER_SIZE + |p.payload|..] == tail;
  }

  lemma ParseSound(s: seq<Byte>)
    ensures Parse(s).Got? ==> s == Encode(Parse(s).packet) + Parse(s).rest
  {
    if Parse(s).Got? {
      EncodeDecodeHeader(s[..HEADER_SIZE]);
      var end := HEADER_SIZE + |Parse(s).packet.payload|;
      assert s == s[..HEADER_SIZE] + s[HEADER_SIZE..end] + s[end..];
    }
  }

  /** A packet is received exactly when its own encoding is at the front of the stream. */
  lemma ParseExact(s: seq<Byte>, p: Packet, rest: seq<Byte>)
    ensures Parse(s) == Got(p, rest) <==> Sendable(p) && s == Encode(p) + rest
  {
    ParseSound(s);
    if Sendable(p) {
      ParseEncode(p, rest);
    }
  }

  lemma ParseIncomplete(p: Packet, k: nat)
    requires Sendable(p) && k < |Encode(p)|
    ensures Parse(Encode(p)[..k]) == NeedMore
  {
    if k >= HEADER_SIZE {
      DecodeEncodeHeader(HeaderOf(p));
      assert Encode(p)[..k][..HEADER_SIZE] == EncodeHeader(HeaderOf(p));
    }
  }

  lemma ParseEmpty()
    ensures Parse([]) == NeedMore
  {
  }

  /** A 32-bit word on the wire. */
  function Word(x: U32): (b: seq<Byte>)
    ensures |b| == 4
  {
    [x / 0x100_0000, x / 0x1_0000 % 0x100, x / 0x100 % 0x100, x % 0x100]
  }

  lemma WordIs(x: U32)
    ensures Be32(x) == Word(x)
  {
    NetworkOrder32(x);
  }

  lemma FixedWords()
    ensures Word(TLV_MAGIC) == [0x54, 0x4C, 0x56, 0x31] && Word(TLV_VERSION) == [0, 0, 0, 1]
  {
  }

  /** Byte by byte what a packet looks like: "TLV1", version 1, command, status, length, payload. */
  lemma PacketBytes(p: Packet)
    requires Sendable(p)
    ensures var b := Encode(p);
            && b[0..4] == [0x54, 0x4C, 0x56, 0x31] && b[4..8] == [0, 0, 0, 1]
            && b[8..12] == Word(p.cmd) && b[12..16] == Word(p.status) && b[16..20] == Word(|p.payload|)
            && b[20..] == p.payload
  {
    hide Be32, Word;
    FixedWords();
    WordIs(TLV_MAGIC);
    WordIs(TLV_VERSION);
    WordIs(p.cmd);
    WordIs(p.status);
    WordIs(|p.payload|);
    var b := Encode(p);
    assert b[0..4] == Be32(TLV_MAGIC) && b[4..8] == Be32(TLV_VERSION);
    assert b[8..12] == Be32(p.cmd) && b[12..16] == Be32(p.status) && b[16..20] == Be32(|p.payload|);
  }

  /**
   * A stream is given up exactly when a whole header is there and it is not "TLV1", not
   * version 1, or announces more than 64 KiB.
   */
  lemma GivenUp(s: seq<Byte>)
    ensures Parse(s) == Malformed <==>
              && |s| >= 20
              && (s[0..4] != [0x54, 0x4C, 0x56, 0x31] || s[4..8] != [0, 0, 0, 1]
                  || exists n: U32 :: n > 65536 && s[16..20] == Word(n))
  {
    hide Be32, Word, FromBe32;
    if |s| >= 20 {
      var b := s[..20];
      assert b[0..4] == s[0..4] && b[4..8] == s[4..8] && b[16..20] == s[16..20];
      FixedWords();
      WordIs(TLV_MAGIC);
      WordIs(TLV_VERSION);
      NetworkRead32(s[0..4], TLV_MAGIC);
      NetworkRead32(s[4..8], TLV_VERSION);
      var n := FromBe32(s[16..20]);
      WordIs(n);
      NetworkRead32(s[16..20], n);
      forall m: U32 | s[16..20] == Word(m) ensures m == n {
        WordIs(m);
        NetworkRead32(s[16..20], m);
      }
    }
  }

  /** Giving up is right: nothing that could still arrive would make a packet. */
  lemma GivenUpForGood(s: seq<Byte>, t: seq<Byte>)
    requires Parse(s) == Malformed
    ensures !Parse(s + t).Got?
  {
    assert (s + t)[..HEADER_SIZE] == s[..HEADER_SIZE];
  }

  /** And so is waiting for more: with a whole header there, something could arrive that completes the packet. */
  lemma WaitingIsRight(s: seq<Byte>) returns (t: seq<Byte>)
    requires Parse(s) == NeedMore && |s| >= HEADER_SIZE
    ensures Parse(s + t).Got?
  {
    t := seq(MAX_PACKET_PAYLOAD, _ => 0);
    assert (s + t)[..HEADER_SIZE] == s[..HEADER_SIZE];
  }

  // ---------- packet sequences ----------

  predicate AllSendable(ps: seq<Packet>) {
    forall i :: 0 <= i < |ps| ==> Sendable(ps[i])
  }

  function EncodeAll(ps: seq<Packet>): (b: seq<Byte>)
    requires AllSendable(ps)
  {
    if ps == [] then [] else Encode(ps[0]) + EncodeAll(ps[1..])
  }

  /** The packets a receiver gets out of a byte stream before it fails or blocks. */
  function ParseAll(s: seq<Byte>): (ps: seq<Packet>)
    ensures AllSendable(ps)
    decreases |s|
  {
    match Parse(s)
    case Got(p, rest) => [p] + ParseAll(rest)
    case _ => []
  }

  /** What is left once every whole packet has been taken. */
  function Leftover(s: seq<Byte>): seq<Byte>
    decreases |s|
  {
    match Parse(s)
    case Got(_, rest) => Leftover(rest)
    case _ => s
  }

  lemma EncodeAllCons(p: Packet, ps: seq<Packet>)
    requires Sendable(p) && AllSendable(ps)
    ensures EncodeAll([p] + ps) == Encode(p) + EncodeAll(ps)
  {
    assert ([p] + ps)[1..] == ps;
  }

  lemma ParseAllStep(p: Packet, tail: seq<Byte>)
    requires Sendable(p)
    ensures ParseAll(Encode(p) + tail) == [p] + ParseAll(tail)
    ensures Leftover(Encode(p) + tail) == Leftover(tail)
  {
    ParseEncode(p, tail);
  }

  lemma {:induction false} ParseAllAppend(ps: seq<Packet>, tail: seq<Byte>)
    requires AllSendable(ps)
    ensures ParseAll(EncodeAll(ps) + tail) == ps + ParseAll(tail)
    ensures Leftover(EncodeAll(ps) + tail) == Leftover(tail)
  {
    if ps == [] {
      assert EncodeAll(ps) + tail == tail;
    } else {
      var next := EncodeAll(ps[1..]) + tail;
      assert EncodeAll(ps) + tail == Encode(ps[0]) + next;
      ParseAllStep(ps[0], next);
      ParseAllAppend(ps[1..], tail);
      Seqs.HeadTail(ps, ParseAll(tail));
    }
  }

  /** Receiving yields exactly the packets sent, and nothing is left over. */
  lemma RoundTrip(ps: seq<Packet>)
    requires AllSendable(ps)
    ensures ParseAll(EncodeAll(ps)) == ps && Leftover(EncodeAll(ps)) == []
  {
    ParseAllAppend(ps, []);
    assert EncodeAll(ps) + [] == EncodeAll(ps);
  }

  /** Every stream is the encoding of what it parses to, followed by the leftover. */
  lemma {:induction false} ParseAllExact(s: seq<Byte>)
    ensures s == EncodeAll(ParseAll(s)) + Leftover(s)
    ensures !Parse(Leftover(s)).Got?
    decreases |s|
  {
    match Parse(s) {
      case Got(p, rest) =>
        ParseSound(s);
        ParseAllExact(rest);
        EncodeAllCons(p, ParseAll(rest));
        Seqs.Assoc(Encode(p), EncodeAll(ParseAll(rest)), Leftover(rest));
      case _ =>
    }
  }

  lemma {:induction false} EncodeAllConcat(ps: seq<Packet>, qs: seq<Packet>)
    requires AllSendable(ps) && AllSendable(qs)
    ensures EncodeAll(ps + qs) == EncodeAll(ps) + EncodeAll(qs)
  {
    if ps == [] {
      assert ps + qs == qs;
    } else {
      assert (ps + qs)[1..] == ps[1..] + qs;
      EncodeAllConcat(ps[1..], qs);
    }
  }

  /** The payloads of a packet sequence, one after the other. */
  function Payloads(ps: seq<Packet>): seq<Byte> {
    if ps == [] then [] else ps[0].payload + Payloads(ps[1..])
  }

  lemma PayloadsFront(ps: seq<Packet>, n: nat)
    requires 0 < n <= |ps|
    ensures Payloads(ps[..n]) == ps[0].payload + Payloads(ps[1..][..n - 1])
  {
    assert ps[..n][1..] == ps[1..][..n - 1];
  }

  /** How many of the packets lie wholly within the first k bytes. */
  function WholePackets(ps: seq<Packet>, k: nat): (n: nat)
    requires AllSendable(ps)
    ensures n <= |ps|
  {
    if ps == [] || k < |Encode(ps[0])| then 0
    else 1 + WholePackets(ps[1..], k - |Encode(ps[0])|)
  }

  /** The count is the largest number of packets whose encoding ends by byte k. */
  lemma {:induction false} WholePacketsExact(ps: seq<Packet>, k: nat)
    requires AllSendable(ps)
    ensures var n := WholePackets(ps, k);
            |EncodeAll(ps[..n])| <= k && (n < |ps| ==> k < |EncodeAll(ps[..n + 1])|)
  {
    var n := WholePackets(ps, k);
    if ps != [] {
      if n < |ps| {
        assert ps[..n + 1][1..] == ps[1..][..n];
      }
      if n > 0 {
        WholePacketsExact(ps[1..], k - |Encode(ps[0])|);
        assert ps[..n][1..] == ps[1..][..n - 1];
      }
    }
  }

  /**
   * A stream cut after any byte: the receiver gets exactly the packets that fit
   * before the cut and then an error; no packet is altered and none is invented,
   * and the broken tail is never mistaken for a malformed header.
   */
  lemma {:induction false} CutSafety(ps: seq<Packet>, k: nat)
    requires AllSendable(ps) && k <= |EncodeAll(ps)|
    ensures var cut := EncodeAll(ps)[..k];
            var n := WholePackets(ps, k);
            && ParseAll(cut) == ps[..n]
            && Parse(Leftover(cut)) == NeedMore
  {
    if ps == [] {
      ParseEmpty();
    } else if k < |Encode(ps[0])| {
      ParseIncomplete(ps[0], k);
      Seqs.TakePrefix(Encode(ps[0]), EncodeAll(ps[1..]), k);
    } else {
      var j := k - |Encode(ps[0])|;
      Seqs.TakeSuffix(Encode(ps[0]), EncodeAll(ps[1..]), k);
      ParseAllStep(ps[0], EncodeAll(ps[1..])[..j]);
      CutSafety(ps[1..], j);
      Seqs.TakeSuffix([ps[0]], ps[1..], WholePackets(ps, k));
      assert ps == [ps[0]] + ps[1..];
    }
  }

  // ---------- streams that grow at one end, shrink at the other, and are cut ----------

  lemma NeedMorePrefix(s: seq<Byte>, k: nat)
    requires Parse(s) == NeedMore && k <= |s|
    ensures Parse(s[..k]) == NeedMore
  {
    if k >= HEADER_SIZE {
      assert s[..k][..HEADER_SIZE] == s[..HEADER_SIZE];
    }
  }

  /** Sending appends to the packets in flight. */
  lemma SendAppends(s: seq<Byte>, ps: seq<Packet>)
    requires Leftover(s) == [] && AllSendable(ps)
    ensures ParseAll(s + EncodeAll(ps)) == ParseAll(s) + ps
    ensures Leftover(s + EncodeAll(ps)) == []
  {
    ParseAllExact(s);
    assert s == EncodeAll(ParseAll(s));
    EncodeAllConcat(ParseAll(s), ps);
    RoundTrip(ParseAll(s) + ps);
  }

  /** Receiving takes the first packet in flight. */
  lemma ReceiveTakes(s: seq<Byte>)
    ensures Parse(s).Got? <==> ParseAll(s) != []
    ensures Parse(s).Got? ==>
              && ParseAll(s) == [Parse(s).packet] + ParseAll(Parse(s).rest)
              && Leftover(s) == Leftover(Parse(s).rest)
    ensures !Parse(s).Got? ==> Leftover(s) == s
  {
  }

  lemma {:induction false} WholeAll(ps: seq<Packet>, k: nat)
    requires AllSendable(ps)
    ensures WholePackets(ps, k) == |ps| <==> k >= |EncodeAll(ps)|
  {
    if ps != [] && k >= |Encode(ps[0])| {
      WholeAll(ps[1..], k - |Encode(ps[0])|);
    }
  }

  /** A cut keeps exactly the packets in flight that end before it, in order and unaltered. */
  lemma CutKeepsPrefix(s: seq<Byte>, k: nat)
    requires Parse(Leftover(s)) == NeedMore && k <= |s|
    ensures ParseAll(s[..k]) == ParseAll(s)[..WholePackets(ParseAll(s), k)]
    ensures Parse(Leftover(s[..k])) == NeedMore
  {
    var ps, tail := ParseAll(s), Leftover(s);
    ParseAllExact(s);
    if k <= |EncodeAll(ps)| {
      CutSafety(ps, k);
      Seqs.TakePrefix(EncodeAll(ps), tail, k);
    } else {
      var j := k - |EncodeAll(ps)|;
      Seqs.TakeSuffix(EncodeAll(ps), tail, k);
      NeedMorePrefix(tail, j);
      ParseAllAppend(ps, tail[..j]);
      ReceiveTakes(tail[..j]);
      WholeAll(ps, k);
    }
  }
}
