// The socket as the C code sees it: system calls that move fewer bytes than asked,
// are interrupted, or fail. The loops of src/common/protocol.c over those calls
// are shown to read and write whole packets, whatever the calls do.

module Link {
  import opened Endian
  import opened Framing

  datatype IoResult = Moved(count: nat) | Interrupted | Failed

  function Min(a: int, b: int): (m: int)
    ensures m <= a && m <= b && (m == a || m == b)
  {
    if a <= b then a else b
  }

  /** What a connection with limited room takes of some bytes. */
  function Fits(data: seq<Byte>, room: nat): (b: seq<Byte>)
    ensures |b| == Min(|data|, room)
  {
    data[..Min(|data|, room)]
  }

  /** Two frames sent one after the other, the second only if the first went through. */
  lemma FitsConcat(first: seq<Byte>, second: seq<Byte>, room: nat)
    ensures room < |first| ==> Fits(first + second, room) == Fits(first, room)
    ensures room >= |first| ==> Fits(first + second, room) == first + Fits(second, room - |first|)
  {
  }

  lemma FitsAll(data: seq<Byte>, room: nat)
    requires |data| <= room
    ensures Fits(data, room) == data
  {
  }

  /**
   * One end of a connection. `inbound` is every byte that will still be delivered
   * before end of stream, `room` how many more bytes the connection will take
   * before it breaks, `interrupts` how many signals are still to come. How a
   * call splits the data is left open.
   */
  class Socket {
    var inbound: seq<Byte>
    var outbound: seq<Byte>
    var room: nat
    var interrupts: nat

    constructor (inbound: seq<Byte>, room: nat, interrupts: nat)
      ensures this.inbound == inbound && this.room == room && this.interrupts == interrupts
      ensures outbound == []
    {
      this.inbound := inbound;
      this.room := room;
      this.interrupts := interrupts;
      outbound := [];
    }

    method Write(data: seq<Byte>) returns (r: IoResult)
      requires data != []
      modifies this
      ensures inbound == old(inbound)
      ensures match r
              case Interrupted =>
                interrupts < old(interrupts) && outbound == old(outbound) && room == old(room)
              case Failed =>
                old(room) == 0 && room == 0 && outbound == old(outbound) && interrupts == old(interrupts)
              case Moved(n) =>
                && (n == 0 ==> old(room) == 0)
                && n <= |data| && n <= old(room)
                && outbound == old(outbound) + data[..n] && room == old(room) - n && interrupts == old(interrupts)
    {
      var signalled: bool := *;
      if signalled && interrupts > 0 {
        interrupts := interrupts - 1;
        return Interrupted;
      }
      if room == 0 {
        var closed: bool := *;
        if closed {
          return Failed;
        }
        assert data[..0] == [];
        return Moved(0);
      }
      var n: nat :| 1 <= n <= |data| && n <= room;
      outbound := outbound + data[..n];
      room := room - n;
      return Moved(n);
    }

    /** All the bytes this connection has taken or will take. No call changes it. */
    function Capacity(): nat
      reads this
    {
      |outbound| + room
    }

    /** Reads at most `want` bytes into buf[at..]; a count of 0 is end of stream. */
    method Recv(buf: array<Byte>, at: nat, want: nat) returns (r: IoResult)
      requires want > 0 && at + want <= buf.Length
      modifies this, buf
      ensures outbound == old(outbound) && room == old(room)
      ensures buf[..at] == old(buf[..at])
      ensures match r
              case Interrupted =>
                interrupts < old(interrupts) && inbound == old(inbound)
              case Failed =>
                old(inbound) == [] && inbound == [] && interrupts == old(interrupts)
              case Moved(n) =>
                && (n == 0 ==> old(inbound) == [])
                && n <= want && n <= |old(inbound)|
                && inbound == old(inbound)[n..] && interrupts == old(interrupts)
                && buf[..at + n] == old(buf[..at]) + old(inbound)[..n]
    {
      var signalled: bool := *;
      if signalled && interrupts > 0 {
        interrupts := interrupts - 1;
        return Interrupted;
      }
      if inbound == [] {
        var reset: bool := *;
        if reset {
          return Failed;
        }
        return Moved(0);
      }
      var n: nat :| 1 <= n <= want && n <= |inbound|;
      forall i | 0 <= i < n {
        buf[at + i] := inbound[i];
      }
      inbound := inbound[n..];
      return Moved(n);
    }
  }

  /** send_n: every byte or as many as the connection takes, never reordered or repeated. */
  method SendN(sock: Socket, data: seq<Byte>) returns (rc: int)
    modifies sock
    ensures rc == 0 || rc == -1
    ensures rc == 0 <==> |data| <= old(sock.room)
    ensures sock.outbound == old(sock.outbound) + Fits(data, old(sock.room))
    ensures sock.room == old(sock.room) - Min(|data|, old(sock.room))
    ensures sock.inbound == old(sock.inbound) && sock.interrupts <= old(sock.interrupts)
  {
    var total := 0;
    while total < |data|
      invariant 0 <= total <= |data|
      invariant total <= old(sock.room) && sock.room == old(sock.room) - total
      invariant sock.outbound == old(sock.outbound) + data[..total]
      invariant sock.inbound == old(sock.inbound) && sock.interrupts <= old(sock.interrupts)
      decreases |data| - total, sock.interrupts
    {
      var sent := sock.Write(data[total..]);
      match sent {
        case Interrupted =>
        case Failed => return -1;
        case Moved(n) =>
          if n == 0 {
            return -1;
          }
          assert data[..total + n] == data[..total] + data[total..][..n];
          total := total + n;
      }
    }
    return 0;
  }

  /** recv_n: exactly the next len bytes of the stream, or an error at its end. */
  method RecvN(sock: Socket, buf: array<Byte>, len: nat) returns (rc: int)
    requires len <= buf.Length
    modifies sock, buf
    ensures rc == 0 || rc == -1
    ensures rc == 0 <==> len <= |old(sock.inbound)|
    ensures rc == 0 ==> buf[..len] == old(sock.inbound)[..len] && sock.inbound == old(sock.inbound)[len..]
    ensures rc != 0 ==> sock.inbound == []
    ensures sock.outbound == old(sock.outbound) && sock.room == old(sock.room)
    ensures sock.interrupts <= old(sock.interrupts)
  {
    var total := 0;
    while total < len
      invariant 0 <= total <= len && total <= |old(sock.inbound)|
      invariant buf[..total] == old(sock.inbound)[..total]
      invariant sock.inbound == old(sock.inbound)[total..]
      invariant sock.outbound == old(sock.outbound) && sock.room == old(sock.room)
      invariant sock.interrupts <= old(sock.interrupts)
      decreases len - total, sock.interrupts
    {
      var got := sock.Recv(buf, total, len - total);
      match got {
        case Interrupted =>
        case Failed => return -1;
        case Moved(n) =>
          if n == 0 {
            return -1;
          }
          assert old(sock.inbound)[..total + n] == old(sock.inbound)[..total] + old(sock.inbound)[total..][..n];
          total := total + n;
      }
    }
    return 0;
  }

  /** send_packet: the encoding of the packet, or nothing at all when it is too long. */
  method SendPacket(sock: Socket, p: Packet) returns (rc: int)
    modifies sock
    ensures rc == 0 || rc == -1
    ensures rc == 0 <==> Sendable(p) && |Encode(p)| <= old(sock.room)
    ensures !Sendable(p) ==> sock.outbound == old(sock.outbound) && sock.room == old(sock.room)
    ensures Sendable(p) ==>
              && sock.outbound == old(sock.outbound) + Fits(Encode(p), old(sock.room))
              && sock.room == old(sock.room) - Min(|Encode(p)|, old(sock.room))
    ensures sock.inbound == old(sock.inbound) && sock.interrupts <= old(sock.interrupts)
  {
    if |p.payload| > MAX_PACKET_PAYLOAD {
      return -1;
    }
    var header := EncodeHeader(HeaderOf(p));
    rc := SendN(sock, header);
    if rc != 0 {
      return -1;
    }
    if |p.payload| > 0 {
      rc := SendN(sock, p.payload);
    }
  }

  /** The part of a requested range that the kernel can read. */
  function Readable(file: seq<Byte>, offset: nat, chunk: nat): (b: seq<Byte>)
    ensures |b| <= chunk
    ensures |b| == chunk <==> chunk == 0 || offset + chunk <= |file|
  {
    if offset <= |file| then file[offset..Min(offset + chunk, |file|)] else []
  }

  lemma ReadableWhole(file: seq<Byte>, offset: nat, chunk: nat)
    requires offset + chunk <= |file|
    ensures Readable(file, offset, chunk) == file[offset..offset + chunk]
  {
  }

  lemma ReadableGrows(file: seq<Byte>, offset: nat, done: nat, want: nat, n: nat)
    requires n <= want && offset + done + want <= |file|
    ensures Readable(file, offset, done + n) ==
            Readable(file, offset, done) + file[offset + done..offset + done + want][..n]
  {
  }

  /**
   * The sendfile loop of send_file_data_packet, over partial counts and interruptions: all
   * of the range, or the part of it that is readable and that the connection takes.
   */
  method SendFileRange(sock: Socket, file: seq<Byte>, offset: nat, chunk: nat) returns (rc: int, next: nat)
    modifies sock
    ensures rc == 0 || rc == -1
    ensures rc == 0 <==> chunk <= old(sock.room) && |Readable(file, offset, chunk)| == chunk
    ensures rc == 0 ==> next == offset + chunk
    ensures sock.outbound == old(sock.outbound) + Fits(Readable(file, offset, chunk), old(sock.room))
    ensures sock.Capacity() == old(sock.Capacity())
    ensures sock.inbound == old(sock.inbound) && sock.interrupts <= old(sock.interrupts)
  {
    hide Fits, Readable;
    next := offset;
    var sentTotal := 0;
    ReadableStart(file, offset);
    while sentTotal < chunk
      invariant 0 <= sentTotal <= chunk && next == offset + sentTotal
      invariant |Readable(file, offset, sentTotal)| == sentTotal
      invariant sentTotal <= old(sock.room) && sock.room == old(sock.room) - sentTotal
      invariant sock.outbound == old(sock.outbound) + Readable(file, offset, sentTotal)
      invariant sock.inbound == old(sock.inbound) && sock.interrupts <= old(sock.interrupts)
      decreases chunk - sentTotal, sock.interrupts
    {
      ReadableStops(file, offset, chunk, sentTotal, old(sock.room));
      // the kernel reads the file at `next`; at its end there is nothing to send
      var want := Min(chunk - sentTotal, |file| - next);
      if want <= 0 {
        return -1, next;
      }
      var sent := sock.Write(file[next..next + want]);
      match sent {
        case Interrupted =>
        case Failed => return -1, next;
        case Moved(n) =>
          ReadableGrows(file, offset, sentTotal, want, n);
          if n == 0 {
            return -1, next;
          }
          sentTotal, next := sentTotal + n, next + n;
      }
    }
    ReadableStops(file, offset, chunk, sentTotal, old(sock.room));
    return 0, next;
  }

  lemma ReadableStart(file: seq<Byte>, offset: nat)
    ensures Readable(file, offset, 0) == []
  {
  }

  /** The loop is over when the range is done, the room is gone or the file ends. */
  lemma ReadableStops(file: seq<Byte>, offset: nat, chunk: nat, done: nat, room: nat)
    requires done <= chunk && done <= room && |Readable(file, offset, done)| == done
    ensures done == chunk || done == room || |file| <= offset + done ==>
              Fits(Readable(file, offset, chunk), room) == Readable(file, offset, done)
    ensures done < chunk && |file| <= offset + done ==> |Readable(file, offset, chunk)| < chunk
  {
  }

  function DataHeader(chunk: U32): (b: seq<Byte>)
    ensures |b| == HEADER_SIZE
  {
    EncodeHeader(TlvHeader(TLV_MAGIC, TLV_VERSION, CMD_FILE_DATA, STATUS_OK, chunk))
  }

  /**
   * send_file_data_packet: a hand-built header followed by the file bytes. Where the
   * bytes can be read, it emits what send_packet would emit for the same block.
   */
  method SendFileData(sock: Socket, file: seq<Byte>, offset: nat, chunk: nat) returns (rc: int, next: nat)
    requires chunk <= MAX_PACKET_PAYLOAD
    modifies sock
    ensures rc == 0 || rc == -1
    ensures rc == 0 <==> HEADER_SIZE + chunk <= old(sock.room) && |Readable(file, offset, chunk)| == chunk
    ensures rc == 0 ==> next == offset + chunk
    ensures var bytes := DataHeader(chunk) + Readable(file, offset, chunk);
            sock.outbound == old(sock.outbound) + Fits(bytes, old(sock.room))
    ensures offset + chunk <= |file| ==>
              DataHeader(chunk) + Readable(file, offset, chunk) ==
              Encode(Packet(CMD_FILE_DATA, STATUS_OK, file[offset..offset + chunk]))
    ensures sock.Capacity() == old(sock.Capacity())
    ensures sock.inbound == old(sock.inbound) && sock.interrupts <= old(sock.interrupts)
  {
    hide Fits, Readable;
    var header := EncodeHeader(TlvHeader(TLV_MAGIC, TLV_VERSION, CMD_FILE_DATA, STATUS_OK, chunk));
    next := offset;
    ghost var room := sock.room;
    if offset + chunk <= |file| {
      ReadableWhole(file, offset, chunk);
    }
    FitsConcat(header, Readable(file, offset, chunk), room);
    rc := SendN(sock, header);
    if rc != 0 {
      return -1, next;
    }
    FitsAll(header, room);
    rc, next := SendFileRange(sock, file, offset, chunk);
  }

  // ---------- receiving: payload memory is accounted for ----------

  /** The part of the C heap that holds packet payloads. */
  class Heap {
    var live: set<array<Byte>>

    constructor ()
      ensures live == {}
    {
      live := {};
    }

    method Calloc(n: nat) returns (a: array<Byte>)
      modifies this
      ensures fresh(a) && a.Length == n && (forall i :: 0 <= i < n ==> a[i] == 0)
      ensures live == old(live) + {a}
    {
      a := new Byte[n](_ => 0);
      live := live + {a};
    }

    /** free: a block that is not live (a double free) is a violated precondition. */
    method Free(a: array?<Byte>)
      requires a != null ==> a in live
      modifies this
      ensures a == null ==> live == old(live)
      ensures a != null ==> live == old(live) - {a}
    {
      if a != null {
        live := live - {a};
      }
    }
  }

  const ZERO_HEADER := TlvHeader(0, 0, 0, 0, 0)

  /** packet_t: the unpacked header and the payload allocated for it. */
  class PacketBox {
    var header: TlvHeader
    var payload: array?<Byte>

    constructor ()
      ensures header == ZERO_HEADER && payload == null
    {
      header := ZERO_HEADER;
      payload := null;
    }

    ghost function Blocks(): set<array<Byte>>
      reads this
    {
      if payload == null then {} else {payload}
    }

    predicate Holds(p: Packet)
      reads this, payload
    {
      && header == TlvHeader(TLV_MAGIC, TLV_VERSION, p.cmd, p.status, header.dataLen)
      && header.dataLen == |p.payload|
      && (payload == null ==> p.payload == [])
      && (payload != null ==> payload.Length > 0 && payload[..] == p.payload)
    }
  }

  /** free_packet */
  method FreePacket(heap: Heap, box: PacketBox)
    requires box.Blocks() <= heap.live
    modifies heap, box
    ensures box.header == ZERO_HEADER && box.payload == null
    ensures heap.live == old(heap.live) - old(box.Blocks())
  {
    heap.Free(box.payload);
    box.payload := null;
    box.header := ZERO_HEADER;
  }

  /**
   * recv_packet: the packet at the front of the stream and nothing beyond it. On
   * success the caller owns one block exactly when there is a payload; on failure
   * no block stays allocated.
   */
  method RecvPacket(sock: Socket, heap: Heap, box: PacketBox) returns (rc: int)
    modifies sock, heap, box
    ensures rc == 0 || rc == -1
    ensures rc == 0 <==> Parse(old(sock.inbound)).Got?
    ensures rc == 0 ==>
              && box.Holds(Parse(old(sock.inbound)).packet)
              && fresh(box.Blocks())
              && heap.live == old(heap.live) + box.Blocks()
    ensures rc != 0 ==> box.payload == null && heap.live == old(heap.live)
    ensures sock.inbound == AfterPacket(old(sock.inbound))
    ensures sock.outbound == old(sock.outbound) && sock.room == old(sock.room)
    ensures sock.interrupts <= old(sock.interrupts)
  {
    box.header := ZERO_HEADER;
    box.payload := null;
    ghost var stream := sock.inbound;

    var wire := new Byte[HEADER_SIZE];
    rc := RecvN(sock, wire, HEADER_SIZE);
    if rc != 0 {
      return -1;
    }
    assert wire[..] == wire[..HEADER_SIZE] == stream[..HEADER_SIZE];
    var header := DecodeHeader(wire[..]);
    box.header := header;
    if header.magic != TLV_MAGIC || header.version != TLV_VERSION {
      return -1;
    }
    var payloadLen := header.dataLen;
    if payloadLen > MAX_PACKET_PAYLOAD {
      return -1;
    }
    if payloadLen == 0 {
      assert stream[HEADER_SIZE..HEADER_SIZE] == [];
      return 0;
    }
    var block := heap.Calloc(payloadLen);
    box.payload := block;
    rc := RecvN(sock, block, payloadLen);
    if rc != 0 {
      FreePacket(heap, box);
      return -1;
    }
    assert block[..] == block[..payloadLen] == stream[HEADER_SIZE..][..payloadLen];
    assert stream[HEADER_SIZE..][..payloadLen] == stream[HEADER_SIZE..HEADER_SIZE + payloadLen];
    assert stream[HEADER_SIZE..][payloadLen..] == stream[HEADER_SIZE + payloadLen..];
    return 0;
  }
}
