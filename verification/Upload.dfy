// The server's upload handler: resume from the size on disk, extend the file, copy
// received blocks into a shared mapping of it, and cut it back to what arrived.

module Upload {
  import opened Endian
  import opened Framing
  import Seqs
  import opened Files
  import opened Link
  import Messages
  import opened Transfer

  /** A file on disk. Its bytes live in an array so that a mapping can share them. */
  class StoredFile {
    var data: array<Byte>

    constructor (content: File)
      ensures fresh(data) && Content() == content
    {
      data := new Byte[|content|](i requires 0 <= i < |content| => content[i]);
    }

    function Content(): File
      reads this, data
    {
      data[..]
    }

    method Truncate(n: nat)
      modifies this
      ensures fresh(data) && Content() == Resize(old(Content()), n)
    {
      var content := Resize(data[..], n);
      data := new Byte[n](i requires 0 <= i < n => content[i]);
    }
  }

  /** Descriptors and mappings the handler must give back. */
  class Kernel {
    var open: set<StoredFile>
    var mapped: set<array<Byte>>

    constructor ()
      ensures open == {} && mapped == {}
    {
      open, mapped := {}, {};
    }

    method Open(f: StoredFile)
      requires f !in open
      modifies this
      ensures open == old(open) + {f} && mapped == old(mapped)
    {
      open := open + {f};
    }

    method Close(f: StoredFile)
      requires f in open
      modifies this
      ensures open == old(open) - {f} && mapped == old(mapped)
    {
      open := open - {f};
    }

    /** MAP_SHARED: the mapping is the file's own storage. */
    method Map(f: StoredFile) returns (m: array<Byte>)
      requires f in open && f.data !in mapped
      modifies this
      ensures m == f.data && mapped == old(mapped) + {m} && open == old(open)
    {
      m := f.data;
      mapped := mapped + {m};
    }

    method Unmap(m: array<Byte>)
      requires m in mapped
      modifies this
      ensures mapped == old(mapped) - {m} && open == old(open)
    {
      mapped := mapped - {m};
    }
  }

  // ---------- what the loop takes from a packet stream ----------

  predicate TakesBlock(p: Packet, o: nat, total: nat) {
    p.cmd == CMD_FILE_DATA && o + |p.payload| <= total
  }

  /** The payloads accepted before the stream ends, FILE_END arrives or the peer breaks the rules. */
  function Accepted(ps: seq<Packet>, o: nat, total: nat): (b: seq<Byte>)
    ensures o <= total ==> o + |b| <= total
  {
    if ps == [] || !TakesBlock(ps[0], o, total) then []
    else ps[0].payload + Accepted(ps[1..], o + |ps[0].payload|, total)
  }

  /** Whether FILE_END is what stops the loop. */
  function EndsWithFileEnd(ps: seq<Packet>, o: nat, total: nat): bool {
    ps != [] &&
    if TakesBlock(ps[0], o, total) then EndsWithFileEnd(ps[1..], o + |ps[0].payload|, total)
    else ps[0].cmd == CMD_FILE_END
  }

  /** The stream the loop leaves: behind the packet that stops it. */
  function AfterBlocks(s: seq<Byte>, o: nat, total: nat): (rest: seq<Byte>)
    ensures |rest| <= |s|
    decreases |s|
  {
    if Parse(s).Got? && TakesBlock(Parse(s).packet, o, total) then
      AfterBlocks(Parse(s).rest, o + |Parse(s).packet.payload|, total)
    else AfterPacket(s)
  }

  /** How many packets the loop reads, the one that stops it included. */
  function BlocksRead(ps: seq<Packet>, o: nat, total: nat): (n: nat)
    ensures n <= |ps|
  {
    if ps == [] then 0
    else if TakesBlock(ps[0], o, total) then 1 + BlocksRead(ps[1..], o + |ps[0].payload|, total)
    else 1
  }

  /** Unless the stream fails, the loop leaves exactly the packets it has not read. */
  lemma {:induction false} BlocksLeft(s: seq<Byte>, o: nat, total: nat)
    requires EndsWithFileEnd(ParseAll(s), o, total)
    ensures ParseAll(AfterBlocks(s, o, total)) == ParseAll(s)[BlocksRead(ParseAll(s), o, total)..]
    decreases |s|
  {
    hide Parse;
    ReceiveTakes(s);
    if TakesBlock(Parse(s).packet, o, total) {
      BlocksLeft(Parse(s).rest, o + |Parse(s).packet.payload|, total);
    }
  }

  /**
   * Packet n is the one that stops the loop: those before it are file data that fits, it
   * is not, or the stream ends there.
   */
  predicate StopsAt(ps: seq<Packet>, o: nat, total: nat, n: nat) {
    && n <= |ps|
    && (forall i :: 0 <= i < n ==> ps[i].cmd == CMD_FILE_DATA && o + |Payloads(ps[..i + 1])| <= total)
    && (n < |ps| ==> ps[n].cmd != CMD_FILE_DATA || o + |Payloads(ps[..n + 1])| > total)
  }

  lemma StopsLater(ps: seq<Packet>, o: nat, total: nat, n: nat)
    requires n > 0 && StopsAt(ps, o, total, n)
    ensures TakesBlock(ps[0], o, total) && StopsAt(ps[1..], o + |ps[0].payload|, total, n - 1)
  {
    PayloadsFront(ps, 1);
    forall i | 0 <= i < n - 1
      ensures ps[1..][i].cmd == CMD_FILE_DATA && o + |ps[0].payload| + |Payloads(ps[1..][..i + 1])| <= total
    {
      PayloadsFront(ps, i + 2);
      assert ps[i + 1].cmd == CMD_FILE_DATA && o + |Payloads(ps[..(i + 1) + 1])| <= total;
    }
    if n < |ps| {
      PayloadsFront(ps, n + 1);
    }
  }

  /** What the loop accepts, and how it ends, from the packet that stops it. */
  lemma {:induction false} AcceptedExactly(ps: seq<Packet>, o: nat, total: nat, n: nat)
    requires StopsAt(ps, o, total, n)
    ensures Accepted(ps, o, total) == Payloads(ps[..n])
    ensures EndsWithFileEnd(ps, o, total) <==> n < |ps| && ps[n].cmd == CMD_FILE_END
    ensures BlocksRead(ps, o, total) == if n < |ps| then n + 1 else n
    decreases n
  {
    if n == 0 {
      assert ps[..0] == [];
      if ps != [] {
        PayloadsFront(ps, 1);
        assert ps[1..][..0] == [];
      }
    } else {
      StopsLater(ps, o, total, n);
      AcceptedExactly(ps[1..], o + |ps[0].payload|, total, n - 1);
      PayloadsFront(ps, n);
    }
  }

  /** One turn of the loop, seen from the packets still to come. */
  lemma LoopTurn(s: seq<Byte>, o: nat, total: nat)
    ensures AfterBlocks(s, o, total) ==
            if Parse(s).Got? && TakesBlock(Parse(s).packet, o, total)
            then AfterBlocks(Parse(s).rest, o + |Parse(s).packet.payload|, total) else AfterPacket(s)
    ensures !Parse(s).Got? ==> Accepted(ParseAll(s), o, total) == [] && !EndsWithFileEnd(ParseAll(s), o, total)
    ensures Parse(s).Got? ==>
              var p, rest := Parse(s).packet, ParseAll(Parse(s).rest);
              && Accepted(ParseAll(s), o, total) ==
                   (if TakesBlock(p, o, total) then p.payload + Accepted(rest, o + |p.payload|, total) else [])
              && EndsWithFileEnd(ParseAll(s), o, total) ==
                   (if TakesBlock(p, o, total) then EndsWithFileEnd(rest, o + |p.payload|, total)
                    else p.cmd == CMD_FILE_END)
  {
    hide Parse;
    ReceiveTakes(s);
  }

  /** memcpy(dst + at, src, src.Length) */
  method CopyInto(dst: array<Byte>, at: nat, src: array<Byte>)
    requires at + src.Length <= dst.Length && dst != src
    modifies dst
    ensures dst[..at + src.Length] == old(dst[..at]) + src[..]
    ensures dst[at + src.Length..] == old(dst[at + src.Length..])
  {
    forall i | 0 <= i < src.Length {
      dst[at + i] := src[i];
    }
  }

  /** uint64_t addition. */
  function Add64(a: U64, b: U64): U64 {
    (a + b) % 0x1_0000_0000_0000_0000
  }

  datatype Pass = More | Ended | Broken

  /** What the loop does with the front of the stream. */
  function PassOf(s: seq<Byte>, o: nat, total: nat): Pass {
    if !Parse(s).Got? then Broken
    else if TakesBlock(Parse(s).packet, o, total) then More
    else if Parse(s).packet.cmd == CMD_FILE_END then Ended
    else Broken
  }

  /** One pass through the loop body. The packet received is freed on every path. */
  method TakePacket(sock: Socket, heap: Heap, box: PacketBox, mapPtr: array?<Byte>, writeOffset: nat, total: U64)
    returns (next: nat, pass: Pass)
    requires writeOffset <= total < OFF_T_LIMIT
    requires if mapPtr == null then total == 0 else mapPtr.Length == total
    modifies sock, heap, box, mapPtr
    ensures pass == PassOf(old(sock.inbound), writeOffset, total)
    ensures if pass == More then next == writeOffset + |Parse(old(sock.inbound)).packet.payload| <= total
            else next == writeOffset
    ensures mapPtr != null ==>
              mapPtr[..next] == if pass == More
                                then old(mapPtr[..writeOffset]) + Parse(old(sock.inbound)).packet.payload
                                else old(mapPtr[..writeOffset])
    ensures sock.inbound == AfterPacket(old(sock.inbound))
    ensures heap.live == old(heap.live)
    ensures sock.outbound == old(sock.outbound) && sock.room == old(sock.room)
    ensures sock.interrupts <= old(sock.interrupts)
  {
    var rc := RecvPacket(sock, heap, box);
    if rc != 0 {
      return writeOffset, Broken;
    }
    if box.header.cmd == CMD_FILE_END {
      FreePacket(heap, box);
      return writeOffset, Ended;
    }
    if box.header.cmd != CMD_FILE_DATA {
      FreePacket(heap, box);
      return writeOffset, Broken;
    }
    var len := box.header.dataLen;
    if Add64(writeOffset, len) > total {
      FreePacket(heap, box);
      return writeOffset, Broken;
    }
    if len > 0 && mapPtr != null {
      CopyInto(mapPtr, writeOffset, box.payload);
    }
    next := writeOffset + len;
    FreePacket(heap, box);
    return next, More;
  }

  /**
   * The receive loop of handle_puts. `mapPtr` is null only for an empty target.
   * Whatever the peer sends, every copy stays inside the mapping, and the mapping
   * holds what it held below the resume offset followed by the accepted payloads.
   */
  method ReceiveBlocks(sock: Socket, heap: Heap, mapPtr: array?<Byte>, resume: nat, total: U64)
    returns (writeOffset: nat, success: bool, shouldClose: bool)
    requires resume <= total < OFF_T_LIMIT
    requires if mapPtr == null then total == 0 else mapPtr.Length == total
    modifies sock, heap, mapPtr
    ensures var ps := ParseAll(old(sock.inbound));
            var accepted := Accepted(ps, resume, total);
            && writeOffset == resume + |accepted| <= total
            && (mapPtr != null ==> mapPtr[..writeOffset] == old(mapPtr[..resume]) + accepted)
            && (success <==> EndsWithFileEnd(ps, resume, total) && writeOffset == total)
            && (shouldClose <==> !EndsWithFileEnd(ps, resume, total))
    ensures heap.live == old(heap.live)
    ensures sock.inbound == AfterBlocks(old(sock.inbound), resume, total)
    ensures sock.outbound == old(sock.outbound) && sock.room == old(sock.room)
    ensures sock.interrupts <= old(sock.interrupts)
  {
    hide Parse, ParseAll, Accepted, EndsWithFileEnd, AfterBlocks;
    writeOffset, success, shouldClose := resume, false, false;
    ghost var all := ParseAll(sock.inbound);
    ghost var taken: seq<Byte> := [];
    ghost var start := if mapPtr == null then [] else mapPtr[..resume];
    var box := new PacketBox();
    while true
      invariant writeOffset == resume + |taken| <= total
      invariant mapPtr != null ==> mapPtr[..writeOffset] == start + taken
      invariant Accepted(all, resume, total) == taken + Accepted(ParseAll(sock.inbound), writeOffset, total)
      invariant EndsWithFileEnd(all, resume, total) == EndsWithFileEnd(ParseAll(sock.inbound), writeOffset, total)
      invariant heap.live == old(heap.live)
      invariant AfterBlocks(sock.inbound, writeOffset, total) == AfterBlocks(old(sock.inbound), resume, total)
      invariant sock.outbound == old(sock.outbound) && sock.room == old(sock.room)
      invariant sock.interrupts <= old(sock.interrupts)
      decreases |sock.inbound|
    {
      ghost var stream := sock.inbound;
      LoopTurn(stream, writeOffset, total);
      var next, pass := TakePacket(sock, heap, box, mapPtr, writeOffset, total);
      if pass == Broken {
        return writeOffset, false, true;
      }
      if pass == Ended {
        return writeOffset, writeOffset == total, false;
      }
      ghost var block := Parse(stream).packet.payload;
      Seqs.Assoc(taken, block, Accepted(ParseAll(sock.inbound), next, total));
      Seqs.Assoc(start, taken, block);
      taken := taken + block;
      writeOffset := next;
    }
  }

  // ---------- the whole handler, once the target file is open ----------

  /** Which of the handler's system calls succeed, and the text of its replies. */
  datatype Env = Env(resets: bool, reserves: bool, maps: bool, done: seq<Byte>, failure: seq<Byte>)

  predicate ValidEnv(env: Env) {
    |env.done| <= MAX_PACKET_PAYLOAD && |env.failure| <= MAX_PACKET_PAYLOAD
  }

  /** The part of the old file an attempt builds on: an over-long file is reset. */
  function Kept(before: File, total: nat): (kept: File)
    ensures |kept| <= total && (kept == before || kept == [])
  {
    if |before| > total then [] else before
  }

  /** The upload is complete: FILE_END came and every announced byte is there. */
  predicate Completes(ps: seq<Packet>, o: nat, total: nat) {
    EndsWithFileEnd(ps, o, total) && o + |Accepted(ps, o, total)| == total
  }

  function FinalReply(success: bool, env: Env): (p: Packet)
    requires ValidEnv(env)
    ensures Sendable(p)
  {
    if success then Packet(CMD_ACK, STATUS_OK, env.done) else Packet(CMD_ERROR, STATUS_IO_ERROR, env.failure)
  }

  function Offer(h: Host, before: File, total: U64): (p: Packet)
    ensures Sendable(p)
  {
    Messages.ToPacket(h, PutsResp(|Kept(before, total)|))
  }

  datatype Stage = ResetFailed | Unoffered | Unreserved | Unmapped | Transferred

  /** How far the handler gets before it starts, or fails to start, the receive loop. */
  function Reached(h: Host, before: File, total: U64, room: nat, env: Env): Stage {
    if |before| > total && !env.resets then ResetFailed
    else if |Encode(Offer(h, before, total))| > room then Unoffered
    else if total > 0 && !(total < OFF_T_LIMIT && env.reserves) then Unreserved
    else if total > 0 && !env.maps then Unmapped
    else Transferred
  }

  /** Everything the handler sends, on a connection that takes it all. */
  function Replies(h: Host, before: File, total: U64, stage: Stage, ps: seq<Packet>, env: Env): seq<Byte>
    requires ValidEnv(env)
  {
    match stage
    case ResetFailed => Encode(FinalReply(false, env))
    case Unoffered => Encode(Offer(h, before, total))
    case Transferred =>
      Encode(Offer(h, before, total)) + Encode(FinalReply(Completes(ps, |Kept(before, total)|, total), env))
    case _ => Encode(Offer(h, before, total)) + Encode(FinalReply(false, env))
  }

  /** An upload reaches its receive loop exactly if no system call fails and the offer goes out. */
  lemma ReachesLoop(h: Host, before: File, total: U64, room: nat, env: Env)
    ensures Reached(h, before, total, room, env) == Transferred <==>
              && (|before| <= total || env.resets) && 28 <= room
              && (total == 0 || (total < 0x8000_0000_0000_0000 && env.reserves && env.maps))
  {
    OfferLength(h, before, total);
  }

  /** ftruncate to the announced size; an off_t cannot hold a size of 2^63 or more. */
  method Reserve(file: StoredFile, total: U64, env: Env) returns (ok: bool)
    modifies file
    ensures ok <==> total < OFF_T_LIMIT && env.reserves
    ensures ok ==> fresh(file.data) && file.Content() == Resize(old(file.Content()), total)
    ensures !ok ==> file.data == old(file.data)
  {
    ok := total < OFF_T_LIMIT && env.reserves;
    if ok {
      file.Truncate(total);
    }
  }

  /** Map the extended file, run the receive loop, unmap, and cut back an incomplete upload. */
  method StoreBlocks(sock: Socket, heap: Heap, kernel: Kernel, file: StoredFile, resume: nat, total: U64)
    returns (success: bool, shouldClose: bool)
    requires file in kernel.open && file.data !in kernel.mapped
    requires |file.Content()| == total && resume <= total < OFF_T_LIMIT
    modifies sock, heap, kernel, file, file.data
    ensures var ps := ParseAll(old(sock.inbound));
            var accepted := Accepted(ps, resume, total);
            && file.Content() == old(file.Content())[..resume] + accepted
            && (success <==> EndsWithFileEnd(ps, resume, total) && resume + |accepted| == total)
            && (shouldClose <==> !EndsWithFileEnd(ps, resume, total))
    ensures file.data == old(file.data) || fresh(file.data)
    ensures kernel.open == old(kernel.open) && kernel.mapped == old(kernel.mapped) && heap.live == old(heap.live)
    ensures sock.inbound == AfterBlocks(old(sock.inbound), resume, total) && sock.interrupts <= old(sock.interrupts)
    ensures sock.outbound == old(sock.outbound) && sock.room == old(sock.room)
  {
    hide Parse, ParseAll, Accepted, EndsWithFileEnd, AfterBlocks;
    var mapPtr: array?<Byte> := null;
    if total > 0 {
      mapPtr := kernel.Map(file);
    }
    var end;
    end, success, shouldClose := ReceiveBlocks(sock, heap, mapPtr, resume, total);
    if mapPtr != null {
      kernel.Unmap(mapPtr);
    }
    if !success {
      file.Truncate(end);
    }
  }

  /** handle_puts once the resume offset has been sent, up to its last reply. */
  method StoreUpload(sock: Socket, heap: Heap, kernel: Kernel, file: StoredFile, total: U64, env: Env)
    returns (rc: int, shouldClose: bool)
    requires ValidEnv(env)
    requires file in kernel.open && file.data !in kernel.mapped && |file.Content()| <= total
    modifies sock, heap, kernel, file, file.data
    ensures var kept := old(file.Content());
            var ps := ParseAll(old(sock.inbound));
            if total > 0 && !(total < OFF_T_LIMIT && env.reserves) then
              file.Content() == kept && !shouldClose && sock.inbound == old(sock.inbound)
            else if total > 0 && !env.maps then
              file.Content() == Resize(kept, total) && !shouldClose && sock.inbound == old(sock.inbound)
            else
              && file.Content() == kept + Accepted(ps, |kept|, total)
              && (shouldClose <==> !EndsWithFileEnd(ps, |kept|, total))
              && sock.inbound == AfterBlocks(old(sock.inbound), |kept|, total)
    ensures file.data == old(file.data) || fresh(file.data)
    ensures kernel.open == old(kernel.open) - {file} && kernel.mapped == old(kernel.mapped)
    ensures heap.live == old(heap.live)
    ensures sock.Capacity() == old(sock.Capacity()) && sock.interrupts <= old(sock.interrupts)
    ensures var success := (total == 0 || (total < OFF_T_LIMIT && env.reserves && env.maps))
                           && Completes(ParseAll(old(sock.inbound)), |old(file.Content())|, total);
            && sock.outbound == old(sock.outbound) + Fits(Encode(FinalReply(success, env)), old(sock.room))
            && (rc == 0 <==> |Encode(FinalReply(success, env))| <= old(sock.room))
  {
    hide Parse, ParseAll, Accepted, EndsWithFileEnd, Encode, AfterBlocks;
    ghost var kept := file.Content();
    var resume := file.data.Length;
    if total > 0 {
      var reserved := Reserve(file, total, env);
      if !reserved || !env.maps {
        kernel.Close(file);
        rc := SendPacket(sock, Packet(CMD_ERROR, STATUS_IO_ERROR, env.failure));
        return rc, false;
      }
      assert file.Content()[..resume] == kept;
    }
    var success;
    success, shouldClose := StoreBlocks(sock, heap, kernel, file, resume, total);
    kernel.Close(file);
    if success {
      rc := SendPacket(sock, Packet(CMD_ACK, STATUS_OK, env.done));
    } else {
      rc := SendPacket(sock, Packet(CMD_ERROR, STATUS_IO_ERROR, env.failure));
    }
  }

  /** fstat, and the reset of a file longer than the upload announced. */
  method PrepareTarget(kernel: Kernel, file: StoredFile, total: U64, env: Env) returns (ok: bool)
    requires file !in kernel.open && file.data !in kernel.mapped
    modifies kernel, file
    ensures ok <==> |old(file.Content())| <= total || env.resets
    ensures file.Content() == if ok then Kept(old(file.Content()), total) else old(file.Content())
    ensures file.data == old(file.data) || fresh(file.data)
    ensures kernel.open == (if ok then old(kernel.open) + {file} else old(kernel.open))
    ensures kernel.mapped == old(kernel.mapped)
  {
    kernel.Open(file);
    if file.data.Length > total {
      if !env.resets {
        kernel.Close(file);
        return false;
      }
      file.Truncate(0);
    }
    return true;
  }

  /** Send the resume offset and, if that works, take the upload. */
  method OfferAndStore(h: Host, sock: Socket, heap: Heap, kernel: Kernel, file: StoredFile, total: U64, env: Env)
    returns (rc: int, shouldClose: bool)
    requires ValidEnv(env)
    requires file in kernel.open && file.data !in kernel.mapped && |file.Content()| <= total
    modifies sock, heap, kernel, file, file.data
    ensures var kept := old(file.Content());
            var stage := Reached(h, kept, total, old(sock.room), env);
            var ps := ParseAll(old(sock.inbound));
            && Leaves(kept, total, stage, ps, file.Content(), shouldClose)
            && sock.outbound == old(sock.outbound) + Fits(Replies(h, kept, total, stage, ps, env), old(sock.room))
            && (rc == 0 <==> |Replies(h, kept, total, stage, ps, env)| <= old(sock.room))
            && sock.inbound == AfterUpload(kept, total, stage, old(sock.inbound))
    ensures file.data == old(file.data) || fresh(file.data)
    ensures kernel.open == old(kernel.open) - {file} && kernel.mapped == old(kernel.mapped)
    ensures heap.live == old(heap.live)
    ensures sock.Capacity() == old(sock.Capacity()) && sock.interrupts <= old(sock.interrupts)
  {
    hide Parse, ParseAll, Accepted, EndsWithFileEnd, Messages.ToPacket, Encode, AfterBlocks;
    var writeOffset: U64 := file.data.Length;
    ghost var success := Reached(h, file.Content(), total, sock.room, env) == Transferred
                         && Completes(ParseAll(sock.inbound), writeOffset, total);
    FitsConcat(Encode(Offer(h, file.Content(), total)), Encode(FinalReply(success, env)), sock.room);
    rc := SendPacket(sock, Messages.ToPacket(h, PutsResp(writeOffset)));
    if rc != 0 {
      kernel.Close(file);
      return -1, true;
    }
    rc, shouldClose := StoreUpload(sock, heap, kernel, file, total, env);
  }

  /** The file left on disk, and whether the connection is to be closed. */
  predicate Leaves(before: File, total: U64, stage: Stage, ps: seq<Packet>, after: File, close: bool) {
    var kept := Kept(before, total);
    match stage
    case ResetFailed => after == before && !close
    case Unoffered => after == kept && close
    case Unreserved => after == kept && !close
    case Unmapped => after == Resize(kept, total) && !close
    case Transferred =>
      && after == kept + Accepted(ps, |kept|, total)
      && (close <==> !EndsWithFileEnd(ps, |kept|, total))
  }

  /** The stream the handler leaves to the request loop. */
  function AfterUpload(before: File, total: nat, stage: Stage, s: seq<Byte>): (rest: seq<Byte>)
    ensures |rest| <= |s|
  {
    if stage == Transferred then AfterBlocks(s, |Kept(before, total)|, total) else s
  }

  /** No attempt leaves a file larger than an off_t can express. */
  lemma LeavesLength(h: Host, before: File, total: U64, room: nat, env: Env, ps: seq<Packet>, after: File, close: bool)
    requires |before| < OFF_T_LIMIT
    requires Leaves(before, total, Reached(h, before, total, room, env), ps, after, close)
    ensures |after| < OFF_T_LIMIT
  {
  }

  /**
   * handle_puts from the size check on. The final file is the part of the old file that
   * was kept followed by the payloads accepted, and nothing else, however the peer
   * behaves and wherever the stream ends. What it has not read is left in the stream.
   * Payload blocks, the descriptor and the mapping are all given back.
   */
  method HandlePuts(h: Host, sock: Socket, heap: Heap, kernel: Kernel, file: StoredFile, total: U64, env: Env)
    returns (rc: int, shouldClose: bool)
    requires ValidEnv(env)
    requires file !in kernel.open && file.data !in kernel.mapped && |file.Content()| < OFF_T_LIMIT
    modifies sock, heap, kernel, file, file.data
    ensures var before := old(file.Content());
            var stage := Reached(h, before, total, old(sock.room), env);
            var ps := ParseAll(old(sock.inbound));
            && Leaves(before, total, stage, ps, file.Content(), shouldClose)
            && sock.outbound == old(sock.outbound) + Fits(Replies(h, before, total, stage, ps, env), old(sock.room))
            && (rc == 0 <==> |Replies(h, before, total, stage, ps, env)| <= old(sock.room))
            && sock.inbound == AfterUpload(before, total, stage, old(sock.inbound))
    ensures file.data == old(file.data) || fresh(file.data)
    ensures kernel.open == old(kernel.open) && kernel.mapped == old(kernel.mapped) && heap.live == old(heap.live)
    ensures sock.Capacity() == old(sock.Capacity()) && sock.interrupts <= old(sock.interrupts)
  {
    hide Parse, ParseAll, Accepted, EndsWithFileEnd, Messages.ToPacket, Encode, AfterBlocks;
    var ok := PrepareTarget(kernel, file, total, env);
    if !ok {
      rc := SendPacket(sock, FinalReply(false, env));
      return rc, false;
    }
    rc, shouldClose := OfferAndStore(h, sock, heap, kernel, file, total, env);
  }

  /**
   * The last word on an upload, for every peer stream: ACK if and only if packet n, which
   * stopped the loop, is FILE_END and the file has exactly the announced size; else ERROR.
   */
  lemma LastWord(h: Host, before: File, total: U64, ps: seq<Packet>, env: Env, after: File, close: bool, n: nat)
    requires ValidEnv(env) && Leaves(before, total, Transferred, ps, after, close)
    requires StopsAt(ps, |Kept(before, total)|, total, n)
    ensures after == Kept(before, total) + Payloads(ps[..n])
    ensures close <==> !(n < |ps| && ps[n].cmd == CMD_FILE_END)
    ensures exists reply ::
              && Sendable(reply)
              && Replies(h, before, total, Transferred, ps, env) == Encode(Offer(h, before, total)) + Encode(reply)
              && (reply.cmd == CMD_ACK <==> n < |ps| && ps[n].cmd == CMD_FILE_END && |after| == total)
              && (reply.cmd == CMD_ACK || (reply.cmd == CMD_ERROR && reply.status == STATUS_IO_ERROR))
  {
    hide Encode, Offer, Accepted, EndsWithFileEnd, StopsAt;
    AcceptedExactly(ps, |Kept(before, total)|, total, n);
    var reply := FinalReply(Completes(ps, |Kept(before, total)|, total), env);
    assert Replies(h, before, total, Transferred, ps, env) == Encode(Offer(h, before, total)) + Encode(reply);
  }

  /** A FILE_END that comes early: one byte of two has arrived, and the answer is an error. */
  lemma EarlyEnd(h: Host, env: Env)
    requires ValidEnv(env)
    ensures var ps := [Packet(CMD_FILE_DATA, STATUS_OK, [7]), Packet(CMD_FILE_END, STATUS_OK, [])];
            && Leaves([], 2, Transferred, ps, [7], false)
            && Replies(h, [], 2, Transferred, ps, env) ==
               Encode(Offer(h, [], 2)) + Encode(Packet(CMD_ERROR, STATUS_IO_ERROR, env.failure))
  {
    hide Encode, Offer;
    var ps := [Packet(CMD_FILE_DATA, STATUS_OK, [7]), Packet(CMD_FILE_END, STATUS_OK, [])];
    PayloadsFront(ps, 1);
    PayloadsFront(ps, 2);
    assert ps[1..][..0] == [] && ps[1..][..1] == [ps[1]];
    assert Payloads([ps[1]]) == [] + [];
    assert StopsAt(ps, 0, 2, 1);
    AcceptedExactly(ps, 0, 2, 1);
    assert [] + [7] == [7];
  }

  // ---------- the handler and the server half of the transfer system ----------

  /** The server half taking messages for as long as it is storing, then losing the connection. */
  function StoreAll(c: Core, ms: seq<Msg>, ch: Choice): Core
    requires c.server.Storing? && c.server.total == |c.dst|
    decreases |ms|
  {
    if ms == [] then ServerLoses(c)
    else
      var d := ServerReceives(c, ms[0], ch, true).core;
      if d.server.Storing? then StoreAll(d, ms[1..], ch) else d
  }

  /** One packet, as the loop and as the server half see it. */
  lemma TurnIsServer(h: Host, c: Core, p: Packet, ch: Choice)
    requires c.server.Storing? && c.server.total == |c.dst| && c.server.offset <= c.server.total
    ensures var Storing(o, total) := c.server;
            var d := ServerReceives(c, Messages.FromPacket(h, p), ch, true).core;
            if TakesBlock(p, o, total) then
              && d.server == Storing(o + |p.payload|, total) && |d.dst| == total
              && d.dst[..o + |p.payload|] == c.dst[..o] + p.payload
            else
              && d.dst == c.dst[..o]
              && d.server == if p.cmd == CMD_FILE_END then Ready else Closed
  {
    hide Messages.FromPacket;
    Messages.FromPacketStream(h, p);
  }

  /** The imperative loop and the server half of the transfer system store the same file. */
  lemma {:induction false} LoopIsServer(h: Host, c: Core, ps: seq<Packet>, ch: Choice)
    requires c.server.Storing? && c.server.total == |c.dst| && c.server.offset <= c.server.total
    ensures var Storing(o, total) := c.server;
            var d := StoreAll(c, Messages.FromPackets(h, ps), ch);
            && d.dst == c.dst[..o] + Accepted(ps, o, total)
            && d.server == if EndsWithFileEnd(ps, o, total) then Ready else Closed
    decreases |ps|
  {
    hide Messages.FromPacket, ServerReceives;
    var Storing(o, total) := c.server;
    if ps != [] {
      TurnIsServer(h, c, ps[0], ch);
      var d := ServerReceives(c, Messages.FromPacket(h, ps[0]), ch, true).core;
      assert Messages.FromPackets(h, ps)[1..] == Messages.FromPackets(h, ps[1..]);
      if TakesBlock(ps[0], o, total) {
        LoopIsServer(h, d, ps[1..], ch);
        Seqs.Assoc(c.dst[..o], ps[0].payload, Accepted(ps[1..], o + |ps[0].payload|, total));
      }
    }
  }

  // ---------- when the prefix property fails ----------

  predicate AllZero(s: seq<Byte>) {
    forall i :: 0 <= i < |s| ==> s[i] == 0
  }

  /**
   * If mmap fails, the file stays extended with zero bytes. It is still a prefix of the
   * client's file exactly when the missing bytes are all zero; otherwise the next attempt
   * finds the full size, resumes at the end and acknowledges a file that differs.
   */
  lemma MapFailure(local: File, kept: File)
    requires kept <= local
    ensures var left := Resize(kept, |local|);
            && (Resumable(left, local) <==> AllZero(local[|kept|..]))
            && Kept(left, |local|) == left
            && Completes([Packet(CMD_FILE_END, STATUS_OK, [])], |left|, |local|)
  {
    var left := Resize(kept, |local|);
    assert forall i :: |kept| <= i < |local| ==> local[|kept|..][i - |kept|] == local[i];
    if AllZero(local[|kept|..]) {
      assert left == local;
    }
  }

  /**
   * The failure followed through two attempts. In the first mmap fails, and the server
   * says so; in the second the client is offered the full size, sends only FILE_END and
   * gets an ACK. The file then equals the client's exactly when what was missing before
   * the first attempt is all zero.
   */
  lemma MapFailureFollowed(h: Host, local: File, before: File, first: Env, second: Env, room1: nat, room2: nat,
                           ps: seq<Packet>, left: File, close1: bool, after: File, close2: bool)
    requires |local| < OFF_T_LIMIT && Resumable(before, local) && ValidEnv(first) && ValidEnv(second)
    requires Reached(h, before, |local|, room1, first) == Unmapped
    requires Leaves(before, |local|, Unmapped, ps, left, close1)
    requires Reached(h, left, |local|, room2, second) == Transferred
    requires Leaves(left, |local|, Transferred, [Packet(CMD_FILE_END, STATUS_OK, [])], after, close2)
    ensures Replies(h, before, |local|, Unmapped, ps, first) ==
            Encode(Offer(h, before, |local|)) + Encode(Packet(CMD_ERROR, STATUS_IO_ERROR, first.failure))
    ensures Replies(h, left, |local|, Transferred, [Packet(CMD_FILE_END, STATUS_OK, [])], second) ==
            Encode(Messages.ToPacket(h, PutsResp(|local|))) + Encode(Packet(CMD_ACK, STATUS_OK, second.done))
    ensures !close1 && !close2 && after == left
    ensures after == local <==> AllZero(local[|Kept(before, |local|)|..])
  {
    hide Encode, Messages.ToPacket;
    var kept := Kept(before, |local|);
    MapFailure(local, kept);
    assert left == Resize(kept, |local|) && |left| == |local|;
    assert left + [] == left;
  }

  /** The smallest case: one byte, not zero, and no file on the server. */
  lemma MapFailureExample(h: Host)
    ensures var first, second := Env(true, true, false, [], []), Env(true, true, true, [], []);
            && Reached(h, [], 1, 100, first) == Unmapped && Leaves([], 1, Unmapped, [], [0], false)
            && Reached(h, [0], 1, 100, second) == Transferred
            && Leaves([0], 1, Transferred, [Packet(CMD_FILE_END, STATUS_OK, [])], [0], false)
            && Completes([Packet(CMD_FILE_END, STATUS_OK, [])], |Kept([0], 1)|, 1)
            && [0] != [1]
  {
    hide Encode, Offer, Accepted, EndsWithFileEnd;
    OfferLength(h, [], 1);
    OfferLength(h, [0], 1);
    FileEndStops(1, 1);
    assert Resize([], 1) == [0];
    assert [0] + [] == [0];
  }

  lemma FileEndStops(o: nat, total: nat)
    ensures var end := [Packet(CMD_FILE_END, STATUS_OK, [])];
            Accepted(end, o, total) == [] && EndsWithFileEnd(end, o, total)
  {
  }

  lemma OfferLength(h: Host, before: File, total: U64)
    ensures |Encode(Offer(h, before, total))| == HEADER_SIZE + 8
  {
  }
}
