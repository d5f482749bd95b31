// The payload structures that give a packet its meaning: resume_payload_t,
// file_info_payload_t and plain text.

module Messages {
  import opened Endian
  import opened Framing
  import opened Transfer

  const NAME_SIZE: int := 4096                 // char file_name[PATH_MAX]
  const RESUME_SIZE: int := 8                  // sizeof(resume_payload_t)
  const FILE_INFO_SIZE: int := NAME_SIZE + 8   // sizeof(file_info_payload_t)
  const U64_LIMIT: int := 0x1_0000_0000_0000_0000

  /** The messages the two programs construct. */
  predicate Encodable(m: Msg) {
    match m
    case Command(cmd, arg) => CMD_PWD <= cmd <= CMD_MKDIR && |arg| <= MAX_PACKET_PAYLOAD
    case PutsReq(name, total) => |name| == NAME_SIZE && total < U64_LIMIT
    case PutsResp(offset) => offset < U64_LIMIT
    case GetsReq(name) => |name| <= MAX_PACKET_PAYLOAD
    case GetsResp(name, total) => |name| == NAME_SIZE && total < U64_LIMIT
    case Resume(offset) => offset < U64_LIMIT
    case Data(block) => |block| <= MAX_PACKET_PAYLOAD
    case End => true
    case Ack(text) => |text| <= MAX_PACKET_PAYLOAD
    case Error(_, text) => |text| <= MAX_PACKET_PAYLOAD
    case Garbled(_) => false
  }

  function ToPacket(h: Host, m: Msg): (p: Packet)
    requires Encodable(m)
    ensures Sendable(p)
  {
    match m
    case Command(cmd, arg) => Packet(cmd, STATUS_OK, arg)
    case PutsReq(name, total) => Packet(CMD_PUTS_REQ, STATUS_OK, name + WireU64(h, total))
    case PutsResp(offset) => Packet(CMD_PUTS_RESP, STATUS_OK, WireU64(h, offset))
    case GetsReq(name) => Packet(CMD_GETS_REQ, STATUS_OK, name)
    case GetsResp(name, total) => Packet(CMD_GETS_RESP, STATUS_OK, name + WireU64(h, total))
    case Resume(offset) => Packet(CMD_RESUME_POS, STATUS_OK, WireU64(h, offset))
    case Data(block) => Packet(CMD_FILE_DATA, STATUS_OK, block)
    case End => Packet(CMD_FILE_END, STATUS_OK, [])
    case Ack(text) => Packet(CMD_ACK, STATUS_OK, text)
    case Error(status, text) => Packet(CMD_ERROR, status, text)
  }

  /** How the receive points interpret a packet: type first, then the exact payload size. */
  function FromPacket(h: Host, p: Packet): Msg {
    if CMD_PWD <= p.cmd <= CMD_MKDIR then Command(p.cmd, p.payload)
    else if p.cmd == CMD_PUTS_REQ && |p.payload| == FILE_INFO_SIZE then
      PutsReq(p.payload[..NAME_SIZE], ReadU64(h, p.payload[NAME_SIZE..]))
    else if p.cmd == CMD_PUTS_RESP && |p.payload| == RESUME_SIZE then PutsResp(ReadU64(h, p.payload))
    else if p.cmd == CMD_GETS_REQ then GetsReq(p.payload)
    else if p.cmd == CMD_GETS_RESP && |p.payload| == FILE_INFO_SIZE then
      GetsResp(p.payload[..NAME_SIZE], ReadU64(h, p.payload[NAME_SIZE..]))
    else if p.cmd == CMD_RESUME_POS && |p.payload| == RESUME_SIZE then Resume(ReadU64(h, p.payload))
    else if p.cmd == CMD_FILE_DATA then Data(p.payload)
    else if p.cmd == CMD_FILE_END then End
    else if p.cmd == CMD_ACK then Ack(p.payload)
    else if p.cmd == CMD_ERROR then Error(p.status, p.payload)
    else Garbled(p.cmd)
  }

  lemma FromPacketStream(h: Host, p: Packet)
    ensures p.cmd == CMD_FILE_DATA ==> FromPacket(h, p) == Data(p.payload)
    ensures p.cmd == CMD_FILE_END ==> FromPacket(h, p) == End
    ensures p.cmd != CMD_FILE_DATA && p.cmd != CMD_FILE_END ==> !FromPacket(h, p).Data? && !FromPacket(h, p).End?
  {
  }

  lemma InfoRoundTrip(h: Host, name: seq<Byte>, total: U64)
    requires |name| == NAME_SIZE
    ensures var p := name + WireU64(h, total);
            |p| == FILE_INFO_SIZE && p[..NAME_SIZE] == name && ReadU64(h, p[NAME_SIZE..]) == total
  {
    var p := name + WireU64(h, total);
    assert p[NAME_SIZE..] == WireU64(h, total);
    WireRoundTrip(h, total);
  }

  /** Offsets, sizes and blocks survive the trip between two programs of one byte order. */
  lemma MessageRoundTrip(h: Host, m: Msg)
    requires Encodable(m)
    ensures FromPacket(h, ToPacket(h, m)) == m
  {
    hide WireU64, ReadU64;
    match m
    case PutsReq(name, total) => InfoRoundTrip(h, name, total);
    case GetsResp(name, total) => InfoRoundTrip(h, name, total);
    case PutsResp(offset) => WireRoundTrip(h, offset);
    case Resume(offset) => WireRoundTrip(h, offset);
    case _ =>
  }

  // ---------- sequences ----------

  predicate AllEncodable(ms: seq<Msg>) {
    forall i :: 0 <= i < |ms| ==> Encodable(ms[i])
  }

  function ToPackets(h: Host, ms: seq<Msg>): (ps: seq<Packet>)
    requires AllEncodable(ms)
    ensures |ps| == |ms| && AllSendable(ps)
    ensures forall i :: 0 <= i < |ms| ==> ps[i] == ToPacket(h, ms[i])
  {
    seq(|ms|, i requires 0 <= i < |ms| => ToPacket(h, ms[i]))
  }

  function FromPackets(h: Host, ps: seq<Packet>): (ms: seq<Msg>)
    ensures |ms| == |ps|
    ensures forall i :: 0 <= i < |ps| ==> ms[i] == FromPacket(h, ps[i])
  {
    seq(|ps|, i requires 0 <= i < |ps| => FromPacket(h, ps[i]))
  }

  lemma MessagesRoundTrip(h: Host, ms: seq<Msg>)
    requires AllEncodable(ms)
    ensures FromPackets(h, ToPackets(h, ms)) == ms
  {
    forall i | 0 <= i < |ms| ensures FromPacket(h, ToPacket(h, ms[i])) == ms[i] {
      MessageRoundTrip(h, ms[i]);
    }
  }

  lemma FromPacketsConcat(h: Host, ps: seq<Packet>, qs: seq<Packet>)
    ensures FromPackets(h, ps + qs) == FromPackets(h, ps) + FromPackets(h, qs)
  {
  }
}
