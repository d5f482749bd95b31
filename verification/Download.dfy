// The sending and receiving loops over whole files: the server's download loop, the
// client's upload loop and the client's download loop with its own short writes.

module Download {
  import opened Endian
  import opened Framing
  import Seqs
  import opened Files
  import opened Link
  import opened Messages
  import Transfer
  import Upload

  const FILE_END_PACKET: Packet := Packet(CMD_FILE_END, STATUS_OK, [])

  function BlockPacket(f: File, o: nat, n: nat): (p: Packet)
    requires o + n <= |f|
  {
    Packet(CMD_FILE_DATA, STATUS_OK, f[o..o + n])
  }

  // ---------- file streams ----------

  /** Data packets of 1 to FILE_BLOCK_SIZE bytes that carry f from offset o to offset e. */
  predicate CarriesTo(ps: seq<Packet>, f: File, o: nat, e: nat)
    decreases |ps|
  {
    if ps == [] then o == e
    else
      var n := |ps[0].payload|;
      && 1 <= n <= FILE_BLOCK_SIZE && o + n <= |f| && ps[0] == BlockPacket(f, o, n)
      && CarriesTo(ps[1..], f, o + n, e)
  }

  predicate Carries(ps: seq<Packet>, f: File, o: nat) {
    CarriesTo(ps, f, o, |f|)
  }

  lemma {:induction false} CarriesOn(ps: seq<Packet>, qs: seq<Packet>, f: File, o: nat, m: nat, e: nat)
    requires CarriesTo(ps, f, o, m) && CarriesTo(qs, f, m, e)
    ensures CarriesTo(ps + qs, f, o, e)
    decreases |ps|
  {
    hide BlockPacket;
    if ps == [] {
      assert ps + qs == qs;
    } else {
      assert (ps + qs)[0] == ps[0] && (ps + qs)[1..] == ps[1..] + qs;
      CarriesOn(ps[1..], qs, f, o + |ps[0].payload|, m, e);
    }
  }

  lemma NoBlock(f: File, o: nat)
    ensures CarriesTo([], f, o, o)
  {
  }

  lemma OneBlock(f: File, o: nat, n: nat)
    requires 1 <= n <= FILE_BLOCK_SIZE && o + n <= |f|
    ensures CarriesTo([BlockPacket(f, o, n)], f, o, o + n)
  {
    assert CarriesTo([BlockPacket(f, o, n)][1..], f, o + n, o + n);
  }

  /** The server's cut of a file: full blocks, then what remains. */
  function Blocks(f: File, o: nat): (ps: seq<Packet>)
    ensures AllSendable(ps)
    decreases |f| - o
  {
    if o >= |f| then []
    else
      var n := Min(|f| - o, FILE_BLOCK_SIZE);
      [BlockPacket(f, o, n)] + Blocks(f, o + n)
  }

  lemma BlocksStep(f: File, o: nat)
    ensures o >= |f| ==> Blocks(f, o) == []
    ensures o < |f| ==>
              var n := Min(|f| - o, FILE_BLOCK_SIZE);
              Blocks(f, o) == [BlockPacket(f, o, n)] + Blocks(f, o + n)
  {
  }

  lemma EncodeNone()
    ensures EncodeAll([]) == []
  {
  }

  lemma {:induction false} BlocksCarry(f: File, o: nat)
    requires o <= |f|
    ensures Carries(Blocks(f, o), f, o)
    decreases |f| - o
  {
    if o < |f| {
      var n := Min(|f| - o, FILE_BLOCK_SIZE);
      BlocksCarry(f, o + n);
      assert Blocks(f, o)[1..] == Blocks(f, o + n);
    }
  }

  /** The download loop sends ceil((total - resume) / 4096) packets. */
  lemma {:induction false} BlockCount(f: File, o: nat)
    requires o <= |f|
    ensures |Blocks(f, o)| == (|f| - o + 4095) / 4096
    decreases |f| - o
  {
    if o < |f| {
      BlockCount(f, o + Min(|f| - o, FILE_BLOCK_SIZE));
    }
  }

  /** However a file was cut into blocks, the payloads are exactly the missing bytes. */
  lemma {:induction false} CarriedPayloads(ps: seq<Packet>, f: File, o: nat)
    requires o <= |f| && Carries(ps, f, o)
    ensures Payloads(ps) == f[o..] && AllSendable(ps)
    decreases |ps|
  {
    if ps != [] {
      CarriedPayloads(ps[1..], f, o + |ps[0].payload|);
      assert ps == [ps[0]] + ps[1..];
    }
  }

  /** Such a stream, closed by FILE_END, is what the transfer system's invariant calls feeding. */
  lemma {:induction false} CarriedFeeds(h: Host, ps: seq<Packet>, f: File, o: nat)
    requires o <= |f| && Carries(ps, f, o)
    ensures Transfer.Feeds(FromPackets(h, ps + [FILE_END_PACKET]), f, o)
    decreases |ps|
  {
    hide FromPacket;
    var all := ps + [FILE_END_PACKET];
    FromPacketStream(h, all[0]);
    if ps != [] {
      assert all[1..] == ps[1..] + [FILE_END_PACKET];
      assert FromPackets(h, all)[1..] == FromPackets(h, all[1..]);
      CarriedFeeds(h, ps[1..], f, o + |ps[0].payload|);
    }
  }

  /** Received by the upload loop, such a stream completes the file. */
  lemma {:induction false} CarriedCompletes(ps: seq<Packet>, f: File, o: nat)
    requires o <= |f| && Carries(ps, f, o)
    ensures Upload.Accepted(ps + [FILE_END_PACKET], o, |f|) == f[o..]
    ensures Upload.Completes(ps + [FILE_END_PACKET], o, |f|)
    decreases |ps|
  {
    if ps != [] {
      assert (ps + [FILE_END_PACKET])[1..] == ps[1..] + [FILE_END_PACKET];
      CarriedCompletes(ps[1..], f, o + |ps[0].payload|);
    }
  }

  // ---------- sending loops ----------

  /** The bytes of a packet sequence as far as the connection takes them. */
  lemma SentSoFar(ps: seq<Packet>, p: Packet, room: nat)
    requires AllSendable(ps) && Sendable(p) && |EncodeAll(ps)| <= room
    ensures EncodeAll(ps) + Fits(Encode(p), room - |EncodeAll(ps)|) == Fits(EncodeAll(ps + [p]), room)
    ensures |EncodeAll(ps + [p])| == |EncodeAll(ps)| + |Encode(p)|
    ensures |EncodeAll(ps + [p])| <= room ==> Fits(EncodeAll(ps + [p]), room) == EncodeAll(ps + [p])
  {
    EncodeAllConcat(ps, [p]);
    assert EncodeAll([p]) == Encode(p) + [] == Encode(p);
    FitsConcat(EncodeAll(ps), Encode(p), room);
  }

  /** What was sent of a prefix of the packets is what was sent of all of them, if the room ran out. */
  lemma SentPrefix(ps: seq<Packet>, qs: seq<Packet>, room: nat)
    requires AllSendable(ps) && AllSendable(qs) && |EncodeAll(ps)| > room
    ensures Fits(EncodeAll(ps + qs), room) == Fits(EncodeAll(ps), room)
    ensures |EncodeAll(ps + qs)| > room
  {
    EncodeAllConcat(ps, qs);
    FitsConcat(EncodeAll(ps), EncodeAll(qs), room);
  }

  /**
   * The download loop of the server's handle_gets: exactly the blocks of the file from
   * the resume offset, then FILE_END, or as much of that as the connection takes.
   */
  method StreamFile(sock: Socket, f: File, resume: nat) returns (rc: int, shouldClose: bool)
    requires resume <= |f|
    modifies sock
    ensures var all := Blocks(f, resume) + [FILE_END_PACKET];
            && sock.outbound == old(sock.outbound) + Fits(EncodeAll(all), old(sock.room))
            && (rc == 0 <==> |EncodeAll(all)| <= old(sock.room))
    ensures shouldClose <==> |EncodeAll(Blocks(f, resume))| > old(sock.room)
    ensures rc == 0 || rc == -1
    ensures sock.Capacity() == old(sock.Capacity())
    ensures sock.inbound == old(sock.inbound) && sock.interrupts <= old(sock.interrupts)
  {
    hide Encode, EncodeAll, Fits, Blocks, Readable, DataHeader;
    var sendOffset := resume;
    ghost var sent: seq<Packet> := [];
    EncodeNone();
    ghost var room := sock.room;
    while sendOffset < |f|
      invariant resume <= sendOffset <= |f|
      invariant AllSendable(sent) && Blocks(f, resume) == sent + Blocks(f, sendOffset)
      invariant |EncodeAll(sent)| <= room && sock.room == room - |EncodeAll(sent)|
      invariant sock.outbound == old(sock.outbound) + EncodeAll(sent)
      invariant sock.inbound == old(sock.inbound) && sock.interrupts <= old(sock.interrupts)
    {
      var chunk := |f| - sendOffset;
      if chunk > FILE_BLOCK_SIZE {
        chunk := FILE_BLOCK_SIZE;
      }
      ghost var p := BlockPacket(f, sendOffset, chunk);
      ghost var later := Blocks(f, sendOffset + chunk);
      BlocksStep(f, sendOffset);
      SentSoFar(sent, p, room);
      Seqs.Assoc(sent, [p], later);
      var ok, next := SendFileData(sock, f, sendOffset, chunk);
      if ok != 0 {
        SentPrefix(sent + [p], later, room);
        SentPrefix(sent + [p], later + [FILE_END_PACKET], room);
        Seqs.Assoc(sent + [p], later, [FILE_END_PACKET]);
        return -1, true;
      }
      sent := sent + [p];
      sendOffset := next;
    }
    BlocksStep(f, sendOffset);
    assert Blocks(f, resume) == sent + [] == sent;
    SentSoFar(sent, FILE_END_PACKET, room);
    rc := SendPacket(sock, FILE_END_PACKET);
    return rc, false;
  }

  /**
   * The client's upload loop: read(2) may return any part of a block, so how the file is
   * cut is not fixed, but what is sent carries the file from the resume offset to its end.
   */
  method SendFile(sock: Socket, f: File, resume: nat) returns (rc: int, ghost blocks: seq<Packet>)
    requires resume <= |f|
    modifies sock
    ensures Carries(blocks, f, resume) && AllSendable(blocks)
    ensures var all := blocks + [FILE_END_PACKET];
            && sock.outbound == old(sock.outbound) + Fits(EncodeAll(all), old(sock.room))
            && (rc == 0 <==> |EncodeAll(all)| <= old(sock.room))
    ensures rc == 0 || rc == -1
    ensures sock.Capacity() == old(sock.Capacity())
    ensures sock.inbound == old(sock.inbound) && sock.interrupts <= old(sock.interrupts)
  {
    hide Encode, EncodeAll, Fits, Blocks, CarriesTo;
    var offset := resume;
    blocks := [];
    EncodeNone();
    NoBlock(f, offset);
    ghost var room := sock.room;
    while offset < |f|
      invariant resume <= offset <= |f|
      invariant AllSendable(blocks) && CarriesTo(blocks, f, resume, offset)
      invariant |EncodeAll(blocks)| <= room && sock.room == room - |EncodeAll(blocks)|
      invariant sock.outbound == old(sock.outbound) + EncodeAll(blocks)
      invariant sock.inbound == old(sock.inbound) && sock.interrupts <= old(sock.interrupts)
    {
      var n: nat :| 1 <= n <= FILE_BLOCK_SIZE && offset + n <= |f|;
      var p := BlockPacket(f, offset, n);
      SentSoFar(blocks, p, room);
      OneBlock(f, offset, n);
      CarriesOn(blocks, [p], f, resume, offset, offset + n);
      var ok := SendPacket(sock, p);
      if ok != 0 {
        ghost var later := Blocks(f, offset + n);
        BlocksCarry(f, offset + n);
        CarriesOn(blocks + [p], later, f, resume, offset + n, |f|);
        SentPrefix(blocks + [p], later + [FILE_END_PACKET], room);
        Seqs.Assoc(blocks + [p], later, [FILE_END_PACKET]);
        return -1, blocks + [p] + later;
      }
      blocks := blocks + [p];
      offset := offset + n;
    }
    SentSoFar(blocks, FILE_END_PACKET, room);
    rc := SendPacket(sock, FILE_END_PACKET);
  }

  lemma EndLength(ps: seq<Packet>)
    requires AllSendable(ps)
    ensures |EncodeAll(ps + [FILE_END_PACKET])| == |EncodeAll(ps)| + |Encode(FILE_END_PACKET)|
  {
    SentSoFar(ps, FILE_END_PACKET, |EncodeAll(ps)|);
  }

  // ---------- the server's download handler, once the file is open ----------

  /** The client's announced position, or the start if it lies beyond the file. */
  function ResumePoint(h: Host, p: Packet, total: nat): (o: nat)
    requires |p.payload| == RESUME_SIZE
    ensures o <= total
  {
    var k := ReadU64(h, p.payload);
    if k > total then 0 else k
  }

  /** A position read off the wire: the one the client sent, or the start if it lies beyond the file. */
  lemma PositionRead(h: Host, k: U64, total: nat)
    ensures ResumePoint(h, ToPacket(h, Transfer.Resume(k)), total) == if k <= total then k else 0
  {
    hide ReadU64, WireU64;
    WireRoundTrip(h, k);
  }

  predicate IsResume(p: Packet) {
    p.cmd == CMD_RESUME_POS && |p.payload| == RESUME_SIZE
  }

  function Info(h: Host, name: seq<Byte>, total: nat): (p: Packet)
    requires |name| == NAME_SIZE && total < OFF_T_LIMIT
    ensures Sendable(p)
  {
    ToPacket(h, Transfer.GetsResp(name, total))
  }

  /** Everything the handler sends, on a connection that takes it all. */
  function DownloadReplies(h: Host, f: File, name: seq<Byte>, answer: Parsed): seq<Byte>
    requires |name| == NAME_SIZE && |f| < OFF_T_LIMIT
  {
    var info := Encode(Info(h, name, |f|));
    if GivesPosition(answer) then
      info + EncodeAll(Blocks(f, ResumePoint(h, answer.packet, |f|)) + [FILE_END_PACKET])
    else info
  }

  /** Wait for RESUME_POS; anything else, or the end of the stream, is refused. */
  method AwaitResumePoint(h: Host, sock: Socket, heap: Heap, total: nat) returns (ok: bool, resume: nat)
    modifies sock, heap
    ensures var answer := Parse(old(sock.inbound));
            && (ok <==> answer.Got? && IsResume(answer.packet))
            && (ok ==> resume == ResumePoint(h, answer.packet, total))
    ensures heap.live == old(heap.live)
    ensures sock.outbound == old(sock.outbound) && sock.room == old(sock.room)
    ensures sock.inbound == AfterPacket(old(sock.inbound)) && sock.interrupts <= old(sock.interrupts)
  {
    hide Parse, ReadU64;
    var box := new PacketBox();
    var rc := RecvPacket(sock, heap, box);
    if rc != 0 {
      return false, 0;
    }
    if box.header.cmd != CMD_RESUME_POS || box.header.dataLen != RESUME_SIZE {
      FreePacket(heap, box);
      return false, 0;
    }
    resume := ReadU64(h, box.payload[..]);
    FreePacket(heap, box);
    if resume > total {
      resume := 0;
    }
    return true, resume;
  }

  /** Announce the size and wait for the position: the part of handle_gets before its loop. */
  method AnnounceSize(h: Host, sock: Socket, heap: Heap, total: nat, name: seq<Byte>) returns (ok: bool, resume: nat)
    requires |name| == NAME_SIZE && total < OFF_T_LIMIT
    modifies sock, heap
    ensures var info, answer := Encode(Info(h, name, total)), Parse(old(sock.inbound));
            && sock.outbound == old(sock.outbound) + Fits(info, old(sock.room))
            && (ok <==> |info| <= old(sock.room) && GivesPosition(answer))
            && (ok ==> resume == ResumePoint(h, answer.packet, total))
            && sock.inbound == AfterInfo(|info|, old(sock.room), old(sock.inbound))
    ensures heap.live == old(heap.live)
    ensures sock.Capacity() == old(sock.Capacity()) && sock.interrupts <= old(sock.interrupts)
  {
    hide Encode, Parse, Info, ReadU64, AfterPacket;
    var rc := SendPacket(sock, Info(h, name, total));
    if rc != 0 {
      return false, 0;
    }
    ok, resume := AwaitResumePoint(h, sock, heap, total);
  }

  predicate GivesPosition(answer: Parsed) {
    answer.Got? && IsResume(answer.packet)
  }

  /** The stream left once the size was sent, or could not be: at most the answer is read. */
  function AfterInfo(info: nat, room: nat, s: seq<Byte>): (rest: seq<Byte>)
    ensures |rest| <= |s|
  {
    if info > room then s else AfterPacket(s)
  }

  /**
   * handle_gets from the size check on: the file's size, then, from the position the
   * client answers with, exactly the rest of the file and FILE_END. A missing or wrong
   * answer closes the connection. Only the answer is read. The descriptor and the payload
   * block are given back.
   */
  method HandleGets(h: Host, sock: Socket, heap: Heap, kernel: Upload.Kernel, file: Upload.StoredFile, name: seq<Byte>)
    returns (rc: int, shouldClose: bool)
    requires |name| == NAME_SIZE && |file.Content()| < OFF_T_LIMIT && file !in kernel.open
    modifies sock, heap, kernel
    ensures var f, room, answer := file.Content(), old(sock.room), Parse(old(sock.inbound));
            var info, replies := Encode(Info(h, name, |f|)), DownloadReplies(h, f, name, answer);
            && sock.outbound == old(sock.outbound) + Fits(replies, room)
            && (rc == 0 <==> GivesPosition(answer) && |replies| <= room)
            && (shouldClose <==>
                  !GivesPosition(answer) || |info| + |EncodeAll(Blocks(f, ResumePoint(h, answer.packet, |f|)))| > room)
            && sock.inbound == AfterInfo(|info|, room, old(sock.inbound))
    ensures kernel.open == old(kernel.open) && kernel.mapped == old(kernel.mapped) && heap.live == old(heap.live)
    ensures sock.Capacity() == old(sock.Capacity()) && sock.interrupts <= old(sock.interrupts)
  {
    hide Encode, EncodeAll, Parse, Info, Blocks, ReadU64, Fits, AfterPacket, AfterInfo, ResumePoint;
    kernel.Open(file);
    var f := file.data[..];
    ghost var room, answer, info := sock.room, Parse(sock.inbound), Encode(Info(h, name, |f|));
    if GivesPosition(answer) {
      FitsConcat(info, EncodeAll(Blocks(f, ResumePoint(h, answer.packet, |f|)) + [FILE_END_PACKET]), room);
    }
    if |info| <= room {
      FitsAll(info, room);
    }
    var ok, resume := AnnounceSize(h, sock, heap, |f|, name);
    if !ok {
      kernel.Close(file);
      return -1, true;
    }
    rc, shouldClose := StreamFile(sock, f, resume);
    kernel.Close(file);
  }

  // ---------- a directory asked for with gets ----------

  /** What follows the answer: FILE_END at the announced end, else a block header without a block. */
  function DirectoryTail(size: nat, o: nat): (b: seq<Byte>)
    ensures |b| == HEADER_SIZE
  {
    if o < size then DataHeader(Min(size - o, FILE_BLOCK_SIZE)) else Encode(FILE_END_PACKET)
  }

  function DirectoryReplies(h: Host, size: nat, name: seq<Byte>, answer: Parsed): seq<Byte>
    requires |name| == NAME_SIZE && size < OFF_T_LIMIT
  {
    var info := Encode(Info(h, name, size));
    if GivesPosition(answer) then info + DirectoryTail(size, ResumePoint(h, answer.packet, size)) else info
  }

  /**
   * handle_gets on a directory: opening it for reading and fstat succeed, sendfile does
   * not. Unless the client claims to have as many bytes as were announced, it gets the
   * header of a block that never comes, and the connection is closed.
   */
  method HandleGetsDirectory(h: Host, sock: Socket, heap: Heap, size: nat, name: seq<Byte>)
    returns (rc: int, shouldClose: bool)
    requires |name| == NAME_SIZE && size < OFF_T_LIMIT
    modifies sock, heap
    ensures var room, answer := old(sock.room), Parse(old(sock.inbound));
            var info, replies := Encode(Info(h, name, size)), DirectoryReplies(h, size, name, answer);
            var atEnd := GivesPosition(answer) && ResumePoint(h, answer.packet, size) == size;
            && sock.outbound == old(sock.outbound) + Fits(replies, room)
            && (rc == 0 <==> atEnd && |replies| <= room)
            && (shouldClose <==> !atEnd || |info| > room)
            && sock.inbound == AfterInfo(|info|, room, old(sock.inbound))
    ensures heap.live == old(heap.live)
    ensures sock.Capacity() == old(sock.Capacity()) && sock.interrupts <= old(sock.interrupts)
  {
    hide Encode, Parse, Info, ReadU64, Fits, AfterPacket, AfterInfo, ResumePoint, DataHeader;
    ghost var room, answer, info := sock.room, Parse(sock.inbound), Encode(Info(h, name, size));
    if GivesPosition(answer) {
      FitsConcat(info, DirectoryTail(size, ResumePoint(h, answer.packet, size)), room);
    }
    if |info| <= room {
      FitsAll(info, room);
    }
    var ok, resume := AnnounceSize(h, sock, heap, size, name);
    if !ok {
      return -1, true;
    }
    if resume < size {
      var chunk := Min(size - resume, FILE_BLOCK_SIZE);
      NothingReadable(DataHeader(chunk), resume, chunk);
      var next;
      rc, next := SendFileData(sock, [], resume, chunk);
      return -1, true;
    }
    rc := SendPacket(sock, FILE_END_PACKET);
    return rc, false;
  }

  lemma NothingReadable(header: seq<Byte>, o: nat, chunk: nat)
    ensures header + Readable([], o, chunk) == header
    ensures chunk > 0 ==> Readable([], o, chunk) == []
  {
  }

  // ---------- the client's download loop ----------

  /** write(2) at a position of a file. */
  function Overwrite(f: File, at: nat, data: seq<Byte>): File
    requires at <= |f|
  {
    f[..at] + data + if at + |data| < |f| then f[at + |data|..] else []
  }

  /** The client's open file: its contents, the write position, and what the disk still takes. */
  class LocalFile {
    var content: File
    var pos: nat
    var space: nat
    var interrupts: nat

    constructor (content: File, space: nat, interrupts: nat)
      ensures this.content == content && pos == 0 && this.space == space && this.interrupts == interrupts
    {
      this.content, this.pos, this.space, this.interrupts := content, 0, space, interrupts;
    }

    method Write(data: seq<Byte>) returns (r: IoResult)
      requires data != [] && pos <= |content|
      modifies this
      ensures pos <= |content|
      ensures match r
              case Interrupted =>
                interrupts < old(interrupts) && content == old(content) && pos == old(pos) && space == old(space)
              case Failed =>
                && old(space) == 0 && space == 0
                && content == old(content) && pos == old(pos) && interrupts == old(interrupts)
              case Moved(n) =>
                && (n == 0 ==> old(space) == 0)
                && n <= |data| && n <= old(space)
                && content == Overwrite(old(content), old(pos), data[..n])
                && pos == old(pos) + n && space == old(space) - n && interrupts == old(interrupts)
    {
      var signalled: bool := *;
      if signalled && interrupts > 0 {
        interrupts := interrupts - 1;
        return Interrupted;
      }
      if space == 0 {
        var full: bool := *;
        if full {
          return Failed;
        }
        assert Overwrite(content, pos, data[..0]) == content;
        return Moved(0);
      }
      var n: nat :| 1 <= n <= |data| && n <= space;
      content := Overwrite(content, pos, data[..n]);
      pos, space := pos + n, space - n;
      return Moved(n);
    }
  }

  lemma OverwriteTwice(f: File, at: nat, a: seq<Byte>, b: seq<Byte>)
    requires at <= |f|
    ensures at + |a| <= |Overwrite(f, at, a)|
    ensures Overwrite(Overwrite(f, at, a), at + |a|, b) == Overwrite(f, at, a + b)
  {
  }

  lemma FrontGrows(data: seq<Byte>, k: nat, n: nat)
    requires k + n <= |data|
    ensures data[..k + n] == data[..k] + data[k..][..n]
  {
  }

  lemma OverwriteNothing(f: File, at: nat)
    requires at <= |f|
    ensures Overwrite(f, at, []) == f
  {
  }

  lemma OverwriteAtEnd(f: File, data: seq<Byte>)
    ensures Overwrite(f, |f|, data) == f + data
  {
  }

  /** write_n: all of the data, or as much as the disk takes, in order. */
  method WriteN(file: LocalFile, data: seq<Byte>) returns (rc: int)
    requires file.pos <= |file.content|
    modifies file
    ensures rc == 0 || rc == -1
    ensures rc == 0 <==> |data| <= old(file.space)
    ensures file.content == Overwrite(old(file.content), old(file.pos), Fits(data, old(file.space)))
    ensures file.pos == old(file.pos) + Min(|data|, old(file.space)) <= |file.content|
    ensures file.space == old(file.space) - Min(|data|, old(file.space))
    ensures file.interrupts <= old(file.interrupts)
  {
    hide Overwrite;
    var total := 0;
    OverwriteNothing(file.content, file.pos);
    assert data[..0] == [];
    while total < |data|
      invariant 0 <= total <= |data| && total <= old(file.space)
      invariant file.space == old(file.space) - total
      invariant file.pos == old(file.pos) + total <= |file.content|
      invariant file.content == Overwrite(old(file.content), old(file.pos), data[..total])
      invariant file.interrupts <= old(file.interrupts)
      decreases |data| - total, file.interrupts
    {
      var written := file.Write(data[total..]);
      match written {
        case Interrupted =>
        case Failed => return -1;
        case Moved(n) =>
          OverwriteTwice(old(file.content), old(file.pos), data[..total], data[total..][..n]);
          FrontGrows(data, total, n);
          if n == 0 {
            return -1;
          }
          total := total + n;
      }
    }
    assert data[..|data|] == data;
    return 0;
  }

  /** write_n of a received block, if it has any bytes, at the end of the file. */
  method AppendBlock(file: LocalFile, payload: array?<Byte>) returns (rc: int)
    requires file.pos == |file.content|
    modifies file
    ensures var block := if payload == null then [] else payload[..];
            && (rc == 0 <==> |block| <= old(file.space))
            && file.content == old(file.content) + Fits(block, old(file.space))
            && file.space == old(file.space) - Min(|block|, old(file.space))
    ensures rc == 0 || rc == -1
    ensures file.pos == |file.content|
  {
    rc := 0;
    if payload != null {
      OverwriteAtEnd(file.content, Fits(payload[..], file.space));
      rc := WriteN(file, payload[..]);
    }
  }

  /** The file data at the front of a packet sequence. */
  function Taken(ps: seq<Packet>): seq<Byte> {
    if ps == [] || ps[0].cmd != CMD_FILE_DATA then [] else ps[0].payload + Taken(ps[1..])
  }

  /** The first packet that is not file data is FILE_END. */
  predicate StopsAtEnd(ps: seq<Packet>) {
    ps != [] && (if ps[0].cmd == CMD_FILE_DATA then StopsAtEnd(ps[1..]) else ps[0].cmd == CMD_FILE_END)
  }

  /** The stream the client's loop leaves: behind the packet that stops it, if only for lack of space. */
  function AfterData(s: seq<Byte>, space: nat): (rest: seq<Byte>)
    ensures |rest| <= |s|
    decreases |s|
  {
    if Parse(s).Got? && Parse(s).packet.cmd == CMD_FILE_DATA && |Parse(s).packet.payload| <= space then
      AfterData(Parse(s).rest, space - |Parse(s).packet.payload|)
    else AfterPacket(s)
  }

  /** How many packets the loop reads when it has space enough. */
  function DataRead(ps: seq<Packet>): (n: nat)
    ensures n <= |ps|
  {
    if ps == [] then 0 else if ps[0].cmd == CMD_FILE_DATA then 1 + DataRead(ps[1..]) else 1
  }

  /** A download that succeeds leaves exactly the packets it has not read. */
  lemma {:induction false} DataLeft(s: seq<Byte>, space: nat)
    requires StopsAtEnd(ParseAll(s)) && |Taken(ParseAll(s))| <= space
    ensures ParseAll(AfterData(s, space)) == ParseAll(s)[DataRead(ParseAll(s))..]
    decreases |s|
  {
    hide Parse;
    ReceiveTakes(s);
    if Parse(s).packet.cmd == CMD_FILE_DATA {
      DataLeft(Parse(s).rest, space - |Parse(s).packet.payload|);
    }
  }

  /** What the client's loop takes, and how it ends, from the first packet that is not file data. */
  lemma {:induction false} TakenExactly(ps: seq<Packet>, n: nat)
    requires n <= |ps| && (forall i :: 0 <= i < n ==> ps[i].cmd == CMD_FILE_DATA)
    requires n < |ps| ==> ps[n].cmd != CMD_FILE_DATA
    ensures Taken(ps) == Payloads(ps[..n])
    ensures StopsAtEnd(ps) <==> n < |ps| && ps[n].cmd == CMD_FILE_END
    ensures DataRead(ps) == if n < |ps| then n + 1 else n
    decreases n
  {
    if n == 0 {
      assert ps[..0] == [];
    } else {
      TakenExactly(ps[1..], n - 1);
      PayloadsFront(ps, n);
    }
  }

  lemma TakenTurn(s: seq<Byte>)
    ensures forall space: nat ::
              AfterData(s, space) ==
              if Parse(s).Got? && Parse(s).packet.cmd == CMD_FILE_DATA && |Parse(s).packet.payload| <= space
              then AfterData(Parse(s).rest, space - |Parse(s).packet.payload|) else AfterPacket(s)
    ensures !Parse(s).Got? ==> Taken(ParseAll(s)) == [] && !StopsAtEnd(ParseAll(s))
    ensures Parse(s).Got? ==>
              var p, rest := Parse(s).packet, ParseAll(Parse(s).rest);
              && Taken(ParseAll(s)) == (if p.cmd == CMD_FILE_DATA then p.payload + Taken(rest) else [])
              && StopsAtEnd(ParseAll(s)) ==
                   (if p.cmd == CMD_FILE_DATA then StopsAtEnd(rest) else p.cmd == CMD_FILE_END)
  {
    hide Parse;
    ReceiveTakes(s);
  }

  /**
   * The client's receive loop. The file gains exactly the data that arrived before the
   * loop stopped, or the part of it the disk took; success means FILE_END came and all
   * of it was written, and then the tracked size is the file's size.
   */
  method ReceiveFile(sock: Socket, heap: Heap, file: LocalFile, resume: nat) returns (rc: int, localSize: nat)
    requires file.pos == |file.content| == resume
    modifies sock, heap, file
    ensures rc == 0 || rc == -1
    ensures var ps := ParseAll(old(sock.inbound));
            && file.content == old(file.content) + Fits(Taken(ps), old(file.space))
            && (rc == 0 <==> StopsAtEnd(ps) && |Taken(ps)| <= old(file.space))
            && (rc == 0 ==> localSize == |file.content|)
    ensures heap.live == old(heap.live)
    ensures sock.inbound == AfterData(old(sock.inbound), old(file.space))
    ensures sock.outbound == old(sock.outbound) && sock.room == old(sock.room)
  {
    hide Parse, ParseAll, Taken, StopsAtEnd, Fits, AfterData;
    localSize := resume;
    ghost var all, space := Taken(ParseAll(sock.inbound)), file.space;
    ghost var got: seq<Byte> := [];
    var box := new PacketBox();
    while true
      invariant file.pos == |file.content| == localSize
      invariant file.content == old(file.content) + got
      invariant |got| <= space && file.space == space - |got|
      invariant all == got + Taken(ParseAll(sock.inbound))
      invariant StopsAtEnd(ParseAll(old(sock.inbound))) == StopsAtEnd(ParseAll(sock.inbound))
      invariant AfterData(sock.inbound, file.space) == AfterData(old(sock.inbound), space)
      invariant heap.live == old(heap.live)
      invariant sock.outbound == old(sock.outbound) && sock.room == old(sock.room)
      decreases |sock.inbound|
    {
      ghost var stream := sock.inbound;
      TakenTurn(stream);
      rc := RecvPacket(sock, heap, box);
      if rc != 0 || box.header.cmd != CMD_FILE_DATA {
        FitsAll(got, space);
        assert all == got + [] == got;
        if rc != 0 {
          return -1, localSize;
        }
        var ended := box.header.cmd == CMD_FILE_END;
        FreePacket(heap, box);
        return if ended then 0 else -1, localSize;
      }
      ghost var block := Parse(stream).packet.payload;
      ghost var later := Taken(ParseAll(sock.inbound));
      FitsConcat(got, block + later, space);
      FitsConcat(block, later, space - |got|);
      Seqs.Assoc(got, block, later);
      rc := AppendBlock(file, box.payload);
      if rc != 0 {
        FreePacket(heap, box);
        return -1, localSize;
      }
      FitsAll(block, space - |got|);
      localSize := localSize + box.header.dataLen;
      got := got + block;
      FreePacket(heap, box);
    }
  }

  /** The file a download leaves once its size is known, and whether it counts as a success. */
  predicate ReceiveLeaves(before: File, space: nat, resets: bool, size: nat, room: nat, ps: seq<Packet>,
                          after: File, rc: int)
  {
    var kept := Upload.Kept(before, size);
    if |before| > size && !resets then after == before && rc == -1
    else if HEADER_SIZE + RESUME_SIZE > room then after == kept && rc == -1
    else
      && after == kept + Fits(Taken(ps), space)
      && (rc == 0 <==> StopsAtEnd(ps) && |Taken(ps)| <= space)
  }

  /** The stream such a download leaves. */
  function AfterDownload(before: File, space: nat, resets: bool, size: nat, room: nat, s: seq<Byte>): seq<Byte> {
    if (|before| > size && !resets) || HEADER_SIZE + RESUME_SIZE > room then s else AfterData(s, space)
  }

  /** What the client sends once it knows the size. */
  function PositionBytes(h: Host, before: File, size: U64, resets: bool): seq<Byte> {
    if |before| > size && !resets then [] else Encode(ToPacket(h, Transfer.Resume(|Upload.Kept(before, size)|)))
  }

  lemma PositionLength(h: Host, n: U64)
    ensures |Encode(ToPacket(h, Transfer.Resume(n)))| == HEADER_SIZE + RESUME_SIZE
  {
  }

  /**
   * handle_gets of the client once the file's size is known: an over-long local file is
   * reset, the position is announced, and the file is what was kept followed by what
   * arrived. Nothing is compared with the announced size.
   */
  method ReceiveDownload(h: Host, sock: Socket, heap: Heap, file: LocalFile, serverSize: U64, resets: bool)
    returns (rc: int)
    requires |file.content| < OFF_T_LIMIT
    modifies sock, heap, file
    ensures ReceiveLeaves(old(file.content), old(file.space), resets, serverSize, old(sock.room),
                          ParseAll(old(sock.inbound)), file.content, rc)
    ensures sock.outbound == old(sock.outbound)
              + Fits(PositionBytes(h, old(file.content), serverSize, resets), old(sock.room))
    ensures sock.inbound == AfterDownload(old(file.content), old(file.space), resets, serverSize, old(sock.room),
                                          old(sock.inbound))
    ensures sock.Capacity() == old(sock.Capacity())
    ensures heap.live == old(heap.live)
  {
    hide Encode, ToPacket, Parse, ParseAll, Taken, StopsAtEnd, Fits, AfterData;
    PositionLength(h, |Upload.Kept(file.content, serverSize)|);
    var localSize := |file.content|;
    if localSize > serverSize {
      if !resets {
        return -1;
      }
      file.content := [];
      localSize := 0;
    }
    file.pos := localSize;
    rc := SendPacket(sock, ToPacket(h, Transfer.Resume(localSize)));
    if rc != 0 {
      return -1;
    }
    rc, localSize := ReceiveFile(sock, heap, file, localSize);
  }

  lemma StreamHead(ps: seq<Packet>, tail: seq<Byte>)
    requires ps != [] && AllSendable(ps)
    ensures Parse(EncodeAll(ps) + tail) == Got(ps[0], EncodeAll(ps[1..]) + tail)
  {
    hide Encode;
    ParseEncode(ps[0], EncodeAll(ps[1..]) + tail);
    Seqs.Assoc(Encode(ps[0]), EncodeAll(ps[1..]), tail);
  }

  lemma EmptyAhead(tail: seq<Byte>)
    ensures EncodeAll([]) + tail == tail
  {
  }

  /**
   * A carried file at the front of a stream: the upload loop takes exactly the missing
   * bytes and stops exactly behind FILE_END, whatever follows.
   */
  lemma {:induction false} UploadAhead(ps: seq<Packet>, f: File, o: nat, tail: seq<Byte>)
    requires o <= |f| && Carries(ps, f, o) && AllSendable(ps)
    ensures var s := EncodeAll(ps + [FILE_END_PACKET]) + tail;
            && Upload.AfterBlocks(s, o, |f|) == tail
            && Upload.Accepted(ParseAll(s), o, |f|) == f[o..] && Upload.Completes(ParseAll(s), o, |f|)
    decreases |ps|
  {
    hide Encode, Parse, ParseAll, AfterPacket, EncodeAll, Upload.AfterBlocks, Upload.Accepted, Upload.EndsWithFileEnd;
    var all := ps + [FILE_END_PACKET];
    StreamHead(all, tail);
    Upload.LoopTurn(EncodeAll(all) + tail, o, |f|);
    if ps == [] {
      EmptyAhead(tail);
    } else {
      assert all[1..] == ps[1..] + [FILE_END_PACKET];
      UploadAhead(ps[1..], f, o + |ps[0].payload|, tail);
    }
  }

  /** The same for the client's download loop. */
  lemma {:induction false} DownloadAhead(ps: seq<Packet>, f: File, o: nat, space: nat, tail: seq<Byte>)
    requires o <= |f| && Carries(ps, f, o) && AllSendable(ps) && |f| - o <= space
    ensures var s := EncodeAll(ps + [FILE_END_PACKET]) + tail;
            && AfterData(s, space) == tail
            && Taken(ParseAll(s)) == f[o..] && StopsAtEnd(ParseAll(s))
    decreases |ps|
  {
    hide Encode, Parse, ParseAll, AfterPacket, EncodeAll, AfterData, Taken, StopsAtEnd;
    var all := ps + [FILE_END_PACKET];
    StreamHead(all, tail);
    TakenTurn(EncodeAll(all) + tail);
    if ps == [] {
      EmptyAhead(tail);
    } else {
      assert all[1..] == ps[1..] + [FILE_END_PACKET];
      DownloadAhead(ps[1..], f, o + |ps[0].payload|, space - |ps[0].payload|, tail);
    }
  }

  lemma {:induction false} StreamIsTaken(ps: seq<Packet>, f: File, o: nat)
    requires o <= |f| && Carries(ps, f, o)
    ensures Taken(ps + [FILE_END_PACKET]) == f[o..] && StopsAtEnd(ps + [FILE_END_PACKET])
    decreases |ps|
  {
    var all := ps + [FILE_END_PACKET];
    if ps == [] {
      assert all[0] == FILE_END_PACKET && all[1..] == [];
    } else {
      assert all[1..] == ps[1..] + [FILE_END_PACKET];
      StreamIsTaken(ps[1..], f, o + |ps[0].payload|);
    }
  }

  /**
   * End to end: a local prefix of the server's file, a whole connection and room on disk
   * give exactly the server's file and success, whatever was there before the attempt.
   */
  lemma DownloadCompletes(f: File, local: File)
    requires local <= f
    ensures var ps := ParseAll(EncodeAll(Blocks(f, |local|) + [FILE_END_PACKET]));
            StopsAtEnd(ps) && local + Taken(ps) == f
  {
    BlocksCarry(f, |local|);
    StreamIsTaken(Blocks(f, |local|), f, |local|);
    RoundTrip(Blocks(f, |local|) + [FILE_END_PACKET]);
  }
}
