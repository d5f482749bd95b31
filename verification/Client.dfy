// The client's commands as a whole: request, answer, transfer. And what a client and a
// server running these handlers achieve together, on a whole connection or a broken one.

module Client {
  import opened Endian
  import opened Framing
  import Seqs
  import opened Files
  import opened Link
  import opened Messages
  import Transfer
  import opened Upload
  import opened Download
  import Paths
  import Session

  /** A packet that recv_text_response takes: success and failure alike. */
  predicate IsText(r: Parsed) {
    r.Got? && (r.packet.cmd == CMD_ACK || r.packet.cmd == CMD_ERROR)
  }

  /** recv_text_response: 0 for ACK and for ERROR. */
  method RecvTextResponse(sock: Socket, heap: Heap) returns (rc: int)
    modifies sock, heap
    ensures rc == 0 || rc == -1
    ensures rc == 0 <==> IsText(Parse(old(sock.inbound)))
    ensures sock.inbound == AfterPacket(old(sock.inbound))
    ensures heap.live == old(heap.live)
    ensures sock.outbound == old(sock.outbound) && sock.room == old(sock.room)
  {
    hide Parse;
    var box := new PacketBox();
    rc := RecvPacket(sock, heap, box);
    if rc != 0 {
      return -1;
    }
    if box.header.cmd != CMD_ACK && box.header.cmd != CMD_ERROR {
      FreePacket(heap, box);
      return -1;
    }
    FreePacket(heap, box);
    return 0;
  }

  /** The request packet of a command with a text argument, which may be absent. */
  function SimpleRequest(cmd: U32, arg: string): (p: Packet)
  {
    Packet(cmd, STATUS_OK, if arg == "" then [] else Session.Bytes(arg) + [0])
  }

  /** handle_simple_command: one request, one answer. */
  method HandleSimpleCommand(sock: Socket, heap: Heap, cmd: U32, arg: string) returns (rc: int)
    requires |arg| < 4096
    modifies sock, heap
    ensures rc == 0 || rc == -1
    ensures sock.outbound == old(sock.outbound) + Fits(Encode(SimpleRequest(cmd, arg)), old(sock.room))
    ensures rc == 0 <==> |Encode(SimpleRequest(cmd, arg))| <= old(sock.room) && IsText(Parse(old(sock.inbound)))
    ensures sock.inbound == if |Encode(SimpleRequest(cmd, arg))| > old(sock.room) then old(sock.inbound)
                            else AfterPacket(old(sock.inbound))
    ensures sock.Capacity() == old(sock.Capacity())
    ensures heap.live == old(heap.live)
  {
    hide Parse, Encode, Fits;
    var p := SimpleRequest(cmd, arg);
    rc := SendPacket(sock, p);
    if rc != 0 {
      return -1;
    }
    rc := RecvTextResponse(sock, heap);
  }

  // ---------- uploads ----------

  predicate IsOffer(r: Parsed) {
    r.Got? && r.packet.cmd == CMD_PUTS_RESP && |r.packet.payload| == RESUME_SIZE
  }

  /** Where the client resumes: the server's offer, or the start if the offer is beyond the file. */
  function OfferPoint(h: Host, p: Packet, size: nat): (o: nat)
    requires |p.payload| == RESUME_SIZE
    ensures o <= size
  {
    var r := ReadU64(h, p.payload);
    if r > size then 0 else r
  }

  function PutsRequest(h: Host, f: File, name: seq<Byte>): (p: Packet)
    requires |name| == NAME_SIZE && |f| < OFF_T_LIMIT
    ensures Sendable(p)
  {
    ToPacket(h, Transfer.PutsReq(name, |f|))
  }

  /** Wait for PUTS_RESP; an error, anything else, or the end of the stream stops the upload. */
  method AwaitOffer(h: Host, sock: Socket, heap: Heap, size: nat) returns (ok: bool, resume: nat)
    modifies sock, heap
    ensures ok <==> IsOffer(Parse(old(sock.inbound)))
    ensures ok ==>
              resume == OfferPoint(h, Parse(old(sock.inbound)).packet, size)
    ensures sock.inbound == AfterPacket(old(sock.inbound))
    ensures heap.live == old(heap.live)
    ensures sock.outbound == old(sock.outbound) && sock.room == old(sock.room)
  {
    hide Parse, ReadU64;
    var box := new PacketBox();
    var rc := RecvPacket(sock, heap, box);
    if rc != 0 {
      return false, 0;
    }
    if box.header.cmd == CMD_ERROR {
      FreePacket(heap, box);
      return false, 0;
    }
    if box.header.cmd != CMD_PUTS_RESP || box.header.dataLen != RESUME_SIZE {
      FreePacket(heap, box);
      return false, 0;
    }
    resume := ReadU64(h, box.payload[..]);
    FreePacket(heap, box);
    if resume > size {
      resume := 0;
    }
    return true, resume;
  }

  /** Everything the client sends for an upload, on a connection that takes it all. */
  function UploadBytes(h: Host, f: File, name: seq<Byte>, offered: bool, blocks: seq<Packet>): seq<Byte>
    requires |name| == NAME_SIZE && |f| < OFF_T_LIMIT && AllSendable(blocks)
  {
    var request := Encode(PutsRequest(h, f, name));
    if offered then request + EncodeAll(blocks + [FILE_END_PACKET]) else request
  }

  /** The stream an upload leaves, when its request and all its bytes have these lengths. */
  function AfterPuts(request: nat, bytes: nat, room: nat, s: seq<Byte>): seq<Byte> {
    if request > room then s
    else if !IsOffer(Parse(s)) || bytes > room then AfterPacket(s)
    else AfterPacket(AfterPacket(s))
  }

  /**
   * handle_puts of the client, once its file is open: the request, and after an offer
   * exactly the rest of the file from the offered position, cut into blocks, and
   * FILE_END. It returns 0 also when the server's last word is an error.
   */
  method HandlePuts(h: Host, sock: Socket, heap: Heap, f: File, name: seq<Byte>)
    returns (rc: int, ghost blocks: seq<Packet>)
    requires |name| == NAME_SIZE && |f| < OFF_T_LIMIT
    modifies sock, heap
    ensures var answer := Parse(old(sock.inbound));
            && AllSendable(blocks)
            && (IsOffer(answer) ==> Carries(blocks, f, OfferPoint(h, answer.packet, |f|)))
            && var bytes := UploadBytes(h, f, name, IsOffer(answer), blocks);
            && sock.outbound == old(sock.outbound) + Fits(bytes, old(sock.room))
            && (rc == 0 <==> IsOffer(answer) && |bytes| <= old(sock.room) && IsText(Parse(answer.rest)))
            && sock.inbound == AfterPuts(|Encode(PutsRequest(h, f, name))|, |bytes|, old(sock.room), old(sock.inbound))
    ensures sock.Capacity() == old(sock.Capacity())
    ensures heap.live == old(heap.live)
  {
    hide Parse, ReadU64, Encode, EncodeAll, Fits, PutsRequest, CarriesTo, AfterPacket;
    ghost var room, answer := sock.room, Parse(sock.inbound);
    var request := PutsRequest(h, f, name);
    blocks := [];
    if IsOffer(answer) {
      blocks := Blocks(f, OfferPoint(h, answer.packet, |f|));
      BlocksCarry(f, OfferPoint(h, answer.packet, |f|));
      FitsConcat(Encode(request), EncodeAll(blocks + [FILE_END_PACKET]), room);
    }
    rc := SendPacket(sock, request);
    if rc != 0 {
      return -1, blocks;
    }
    FitsAll(Encode(request), room);
    var ok, resume := AwaitOffer(h, sock, heap, |f|);
    if !ok {
      return -1, blocks;
    }
    rc, blocks := SendFile(sock, f, resume);
    FitsConcat(Encode(request), EncodeAll(blocks + [FILE_END_PACKET]), room);
    if rc != 0 {
      return -1, blocks;
    }
    rc := RecvTextResponse(sock, heap);
  }

  /**
   * The client's return value does not tell success from failure: it takes either final
   * reply of the server. Only the packet's type does.
   */
  lemma FinalReplyIsTaken(success: bool, env: Env, tail: seq<Byte>)
    requires ValidEnv(env)
    ensures var answer := Parse(Encode(FinalReply(success, env)) + tail);
            && IsText(answer) && answer.rest == tail
            && (answer.packet.cmd == CMD_ACK <==> success)
  {
    ParseEncode(FinalReply(success, env), tail);
  }

  // ---------- downloads ----------

  predicate IsInfo(r: Parsed) {
    r.Got? && r.packet.cmd == CMD_GETS_RESP && |r.packet.payload| == FILE_INFO_SIZE
  }

  function InfoSize(h: Host, p: Packet): U64
    requires |p.payload| == FILE_INFO_SIZE
  {
    ReadU64(h, p.payload[NAME_SIZE..])
  }

  function GetsRequest(arg: string): (p: Packet)
    requires |arg| < 4096
    ensures Sendable(p)
  {
    Packet(CMD_GETS_REQ, STATUS_OK, Session.Bytes(arg) + [0])
  }

  /** Wait for GETS_RESP. */
  method AwaitInfo(h: Host, sock: Socket, heap: Heap) returns (ok: bool, size: U64)
    modifies sock, heap
    ensures ok <==> IsInfo(Parse(old(sock.inbound)))
    ensures ok ==>
              size == InfoSize(h, Parse(old(sock.inbound)).packet)
    ensures sock.inbound == AfterPacket(old(sock.inbound))
    ensures heap.live == old(heap.live)
    ensures sock.outbound == old(sock.outbound) && sock.room == old(sock.room)
  {
    hide Parse, ReadU64;
    var box := new PacketBox();
    var rc := RecvPacket(sock, heap, box);
    if rc != 0 {
      return false, 0;
    }
    if box.header.cmd == CMD_ERROR {
      FreePacket(heap, box);
      return false, 0;
    }
    if box.header.cmd != CMD_GETS_RESP || box.header.dataLen != FILE_INFO_SIZE {
      FreePacket(heap, box);
      return false, 0;
    }
    var payload := box.payload[..];
    size := ReadU64(h, payload[NAME_SIZE..]);
    FreePacket(heap, box);
    return true, size;
  }

  /** The file a download leaves, and whether the client reports success. */
  predicate DownloadLeaves(h: Host, before: File, space: nat, resets: bool, request: nat, room: nat, answer: Parsed,
                           after: File, rc: int)
  {
    if request > room || !IsInfo(answer) then after == before && rc == -1
    else
      ReceiveLeaves(before, space, resets, InfoSize(h, answer.packet), room - request, ParseAll(answer.rest), after, rc)
  }

  /** Everything the client sends for a download, on a connection that takes it all. */
  function DownloadBytes(h: Host, arg: string, before: File, resets: bool, answer: Parsed): seq<Byte>
    requires |arg| < 4096
  {
    var request := Encode(GetsRequest(arg));
    if IsInfo(answer) then request + PositionBytes(h, before, InfoSize(h, answer.packet), resets) else request
  }

  /** The stream a download leaves. */
  function AfterGets(h: Host, before: File, space: nat, resets: bool, request: nat, room: nat, s: seq<Byte>): seq<Byte>
  {
    if request > room then s
    else if !IsInfo(Parse(s)) then AfterPacket(s)
    else AfterDownload(before, space, resets, InfoSize(h, Parse(s).packet), room - request, AfterPacket(s))
  }

  /**
   * handle_gets of the client. `file` is what opening the local file gives; the client
   * opens it, and touches it, only after a valid GETS_RESP.
   */
  method HandleGets(h: Host, sock: Socket, heap: Heap, arg: string, file: LocalFile, resets: bool) returns (rc: int)
    requires |arg| < 4096 && |file.content| < OFF_T_LIMIT
    modifies sock, heap, file
    ensures DownloadLeaves(h, old(file.content), old(file.space), resets, |Encode(GetsRequest(arg))|, old(sock.room),
                           Parse(old(sock.inbound)), file.content, rc)
    ensures sock.outbound == old(sock.outbound)
              + Fits(DownloadBytes(h, arg, old(file.content), resets, Parse(old(sock.inbound))), old(sock.room))
    ensures sock.inbound == AfterGets(h, old(file.content), old(file.space), resets, |Encode(GetsRequest(arg))|,
                                      old(sock.room), old(sock.inbound))
    ensures sock.Capacity() == old(sock.Capacity())
    ensures heap.live == old(heap.live)
  {
    hide Parse, ParseAll, InfoSize, Fits, Encode, GetsRequest, PositionBytes, ReceiveLeaves, AfterPacket, AfterDownload;
    ghost var room, answer, before := sock.room, Parse(sock.inbound), file.content;
    var request := GetsRequest(arg);
    if IsInfo(answer) {
      FitsConcat(Encode(request), PositionBytes(h, before, InfoSize(h, answer.packet), resets), room);
    }
    rc := SendPacket(sock, request);
    if rc != 0 {
      return -1;
    }
    FitsAll(Encode(request), room);
    var ok, size := AwaitInfo(h, sock, heap);
    if !ok {
      return -1;
    }
    rc := ReceiveDownload(h, sock, heap, file, size, resets);
  }

  // ---------- requests say what the client was told ----------

  /** The server reads from a command exactly the argument the client was given; without one there is no payload. */
  lemma ArgumentSent(cmd: U32, arg: string)
    requires Session.ByteText(arg) && |arg| < 4096
    ensures var p := SimpleRequest(cmd, arg);
            && p.cmd == cmd && p.status == STATUS_OK && Sendable(p)
            && (arg == "" <==> p.payload == [])
            && (arg != "" ==> Session.HasArg(p.payload) && Session.ArgText(p.payload) == arg)
  {
    if arg != "" {
      Session.ArgumentRoundTrip(arg);
    }
  }

  /** The server reads from a download request exactly the name the client asked for. */
  lemma NameAsked(arg: string)
    requires Session.ByteText(arg) && 0 < |arg| < 4096
    ensures var p := GetsRequest(arg);
            && p.cmd == CMD_GETS_REQ && p.status == STATUS_OK
            && Session.HasArg(p.payload) && Session.ArgText(p.payload) == arg
  {
    Session.ArgumentRoundTrip(arg);
  }

  /** basename: the last component of a path, "." for none at all and "/" for slashes only. */
  function BaseName(path: string): string {
    var ts := Paths.Tokens(path);
    if ts != [] then ts[|ts| - 1] else if path == "" then "." else "/"
  }

  /** Of a file named with or without its directory it is the name; slashes at the end do not matter. */
  lemma BaseNameIsLast(dir: string, name: string)
    requires name != "" && '/' !in name
    ensures BaseName(name) == name && BaseName(dir + "/" + name) == name
    ensures BaseName(dir + "/" + name + "/") == name
  {
    hide Paths.Tokens;
    Paths.TokensEmpty();
    Paths.TokensSlash("");
    Paths.TokensSlash(name);
    Paths.TokensName(name, "");
    assert name + "" == name && "/" + "" == "/";
    assert dir + "/" + name == dir + ("/" + name);
    Paths.TokensConcat(dir, "/" + name);
    Paths.TokensConcat(dir + "/" + name, "/");
  }

  lemma {:induction false} TokensFrom(s: string)
    ensures forall i :: 0 <= i < |Paths.Tokens(s)| ==>
              var t := Paths.Tokens(s)[i]; t != "" && |t| <= |s| && forall c :: c in t ==> c in s
    decreases |s|
  {
    if s != "" {
      TokensFrom(if s[0] == '/' then s[1..] else s[Paths.Run(s)..]);
    }
  }

  lemma BaseNameIsText(path: string)
    requires Session.ByteText(path) && 0 < |path| < 4096
    ensures Session.ByteText(BaseName(path)) && 0 < |BaseName(path)| < 4096
  {
    hide Paths.Tokens;
    TokensFrom(path);
    var name := BaseName(path);
    if name != "/" {
      forall i | 0 <= i < |name| ensures name[i] as int < 256 {
        assert name[i] in path;
      }
    }
  }

  /** The server reads from an upload request exactly the base name and the size of the client's file. */
  lemma FileAnnounced(h: Host, f: File, path: string)
    requires Session.ByteText(path) && 0 < |path| < 4096 && |f| < OFF_T_LIMIT
    ensures var p := PutsRequest(h, f, Session.NameField(BaseName(path)));
            && p.cmd == CMD_PUTS_REQ && p.status == STATUS_OK && |p.payload| == FILE_INFO_SIZE
            && Session.NameText(p.payload) == BaseName(path) != "" && ReadU64(h, p.payload[NAME_SIZE..]) == |f|
  {
    hide WireU64, ReadU64, Session.NameField, Session.ArgText, BaseName;
    BaseNameIsText(path);
    Session.ArgumentRoundTrip(BaseName(path));
    InfoRoundTrip(h, Session.NameField(BaseName(path)), |f|);
  }

  /** An offer read off the wire: the position the server sent, or the start if it lies beyond the file. */
  lemma OfferRead(h: Host, k: U64, size: nat)
    ensures OfferPoint(h, ToPacket(h, Transfer.PutsResp(k)), size) == if k <= size then k else 0
  {
    hide ReadU64, WireU64;
    WireRoundTrip(h, k);
  }

  // ---------- one attempt, cut anywhere ----------

  lemma CarriedFirst(ps: seq<Packet>, f: File, o: nat)
    requires ps != [] && Carries(ps, f, o)
    ensures var b := ps[0].payload;
            && ps[0].cmd == CMD_FILE_DATA && o + |b| <= |f| && b == f[o..o + |b|] && Carries(ps[1..], f, o + |b|)
  {
  }

  lemma SlicesJoin(f: File, o: nat, m: nat, e: nat)
    requires o <= m <= e <= |f|
    ensures f[o..m] + f[m..e] == f[o..e]
  {
  }

  /** How far the first n packets of a carried file reach. */
  function ReachOf(ps: seq<Packet>, o: nat, n: nat): nat {
    if ps == [] || n == 0 then o else ReachOf(ps[1..], o + |ps[0].payload|, n - 1)
  }

  lemma {:induction false} ReachBounds(ps: seq<Packet>, f: File, o: nat, n: nat)
    requires o <= |f| && Carries(ps, f, o)
    ensures o <= ReachOf(ps, o, n) <= |f| && (n >= |ps| ==> ReachOf(ps, o, n) == |f|)
    decreases |ps|
  {
    if ps != [] && n > 0 {
      ReachBounds(ps[1..], f, o + |ps[0].payload|, n - 1);
    }
  }

  lemma ReachStep(ps: seq<Packet>, o: nat, n: nat)
    ensures ps == [] || n == 0 ==> ReachOf(ps, o, n) == o
    ensures ps != [] && n > 0 ==> ReachOf(ps, o, n) == ReachOf(ps[1..], o + |ps[0].payload|, n - 1)
  {
  }

  /** What the upload loop gains from the first n packets of a carried file and FILE_END. */
  lemma {:induction false} UploadPrefix(ps: seq<Packet>, f: File, o: nat, n: nat)
    requires o <= |f| && Carries(ps, f, o) && n <= |ps| + 1
    ensures var all := ps + [FILE_END_PACKET];
            && o <= ReachOf(ps, o, n) <= |f|
            && Accepted(all[..n], o, |f|) == f[o..ReachOf(ps, o, n)]
            && (EndsWithFileEnd(all[..n], o, |f|) <==> n == |all|)
    decreases |ps|
  {
    hide Accepted, EndsWithFileEnd, CarriesTo, ReachOf;
    var all := ps + [FILE_END_PACKET];
    UploadFront(all, o, |f|, n);
    ReachBounds(ps, f, o, n);
    ReachStep(ps, o, n);
    if n > 0 {
      if ps == [] {
        UploadFront([], o, |f|, 0);
        assert all[1..] == [];
      } else {
        CarriedFirst(ps, f, o);
        assert all[1..] == ps[1..] + [FILE_END_PACKET];
        var m := o + |ps[0].payload|;
        UploadPrefix(ps[1..], f, m, n - 1);
        ReachBounds(ps[1..], f, m, n - 1);
        SlicesJoin(f, o, m, ReachOf(ps[1..], m, n - 1));
      }
    }
  }

  /** The same for the client's download loop. */
  lemma {:induction false} DownloadPrefix(ps: seq<Packet>, f: File, o: nat, n: nat)
    requires o <= |f| && Carries(ps, f, o) && n <= |ps| + 1
    ensures var all := ps + [FILE_END_PACKET];
            && o <= ReachOf(ps, o, n) <= |f|
            && Taken(all[..n]) == f[o..ReachOf(ps, o, n)]
            && (StopsAtEnd(all[..n]) <==> n == |all|)
    decreases |ps|
  {
    hide Taken, StopsAtEnd, CarriesTo, ReachOf;
    var all := ps + [FILE_END_PACKET];
    DownloadFront(all, n);
    ReachBounds(ps, f, o, n);
    ReachStep(ps, o, n);
    if n > 0 {
      if ps == [] {
        DownloadFront([], 0);
        assert all[1..] == [];
      } else {
        CarriedFirst(ps, f, o);
        assert all[1..] == ps[1..] + [FILE_END_PACKET];
        var m := o + |ps[0].payload|;
        DownloadPrefix(ps[1..], f, m, n - 1);
        ReachBounds(ps[1..], f, m, n - 1);
        SlicesJoin(f, o, m, ReachOf(ps[1..], m, n - 1));
      }
    }
  }

  /** What arrives of a carried file when the packets stop after the first n. */
  lemma CarriedPrefix(ps: seq<Packet>, f: File, o: nat, n: nat)
    requires o <= |f| && Carries(ps, f, o) && n <= |ps| + 1
    ensures var all := ps + [FILE_END_PACKET];
            var got := Accepted(all[..n], o, |f|);
            && Taken(all[..n]) == got && o + |got| <= |f| && got == f[o..o + |got|]
            && (EndsWithFileEnd(all[..n], o, |f|) <==> n == |all|)
            && (StopsAtEnd(all[..n]) <==> n == |all|)
            && (n == |all| ==> got == f[o..])
  {
    hide CarriesTo, Accepted, Taken, EndsWithFileEnd, StopsAtEnd, ReachOf;
    ReachBounds(ps, f, o, n);
    UploadPrefix(ps, f, o, n);
    DownloadPrefix(ps, f, o, n);
  }

  /** The first n packets of a sequence as the upload loop sees them, one packet at a time. */
  lemma UploadFront(ps: seq<Packet>, o: nat, total: nat, n: nat)
    requires n <= |ps|
    ensures n == 0 ==> Accepted(ps[..n], o, total) == [] && !EndsWithFileEnd(ps[..n], o, total)
    ensures n > 0 ==>
              var p, rest := ps[0], ps[1..][..n - 1];
              && Accepted(ps[..n], o, total) ==
                   (if TakesBlock(p, o, total) then p.payload + Accepted(rest, o + |p.payload|, total) else [])
              && EndsWithFileEnd(ps[..n], o, total) ==
                   (if TakesBlock(p, o, total) then EndsWithFileEnd(rest, o + |p.payload|, total)
                    else p.cmd == CMD_FILE_END)
  {
    if n > 0 {
      assert ps[..n][0] == ps[0] && ps[..n][1..] == ps[1..][..n - 1];
    }
  }

  /** And as the client's download loop sees them. */
  lemma DownloadFront(ps: seq<Packet>, n: nat)
    requires n <= |ps|
    ensures n == 0 ==> Taken(ps[..n]) == [] && !StopsAtEnd(ps[..n])
    ensures n > 0 ==>
              var p, rest := ps[0], ps[1..][..n - 1];
              && Taken(ps[..n]) == (if p.cmd == CMD_FILE_DATA then p.payload + Taken(rest) else [])
              && StopsAtEnd(ps[..n]) == (if p.cmd == CMD_FILE_DATA then StopsAtEnd(rest) else p.cmd == CMD_FILE_END)
  {
    if n > 0 {
      assert ps[..n][0] == ps[0] && ps[..n][1..] == ps[1..][..n - 1];
    }
  }

  /** An attempt gains some of the missing bytes; it gains them all exactly if nothing was cut off. */
  predicate Gains(f: File, kept: File, after: File, complete: bool)
  {
    kept <= after <= f && (complete ==> after == f)
  }

  /** What the receive loop makes of a carried file that is cut after byte k. */
  lemma CutUpload(f: File, blocks: seq<Packet>, o: nat, k: nat)
    requires o <= |f| && Carries(blocks, f, o) && AllSendable(blocks)
    requires k <= |EncodeAll(blocks + [FILE_END_PACKET])|
    ensures var all := blocks + [FILE_END_PACKET];
            var ps := ParseAll(EncodeAll(all)[..k]);
            var got := Accepted(ps, o, |f|);
            && o + |got| <= |f| && got == f[o..o + |got|]
            && (Completes(ps, o, |f|) <==> k == |EncodeAll(all)|)
            && (k == |EncodeAll(all)| ==> got == f[o..])
  {
    hide Encode, EncodeAll, CarriesTo, Accepted, EndsWithFileEnd, Taken, StopsAtEnd, ParseAll, WholePackets;
    var all := blocks + [FILE_END_PACKET];
    CutSafety(all, k);
    CarriedPrefix(blocks, f, o, WholePackets(all, k));
    WholeAll(all, k);
  }

  /**
   * One upload attempt, cut after any byte: the client sends blocks of its file and
   * FILE_END, the first k bytes of that arrive, and the server's handler runs. Unless an
   * over-long file could not be reset, the file on disk is a prefix of the client's file
   * that contains what was kept before; the handler ends with ACK exactly when the stream
   * arrived whole, and then the file is equal. A failing mmap is the subject of MapFailure.
   */
  lemma UploadAttempt(h: Host, f: File, before: File, blocks: seq<Packet>, k: nat, room: nat, env: Env,
                      after: File, close: bool)
    requires AllSendable(blocks) && k <= |EncodeAll(blocks + [FILE_END_PACKET])|
    requires Transfer.Resumable(before, f) && UploadRuns(h, f, before, blocks, k, room, env, after, close)
    ensures if |before| > |f| && !env.resets then after == before else Gains(f, Kept(before, |f|), after, false)
    ensures var all := blocks + [FILE_END_PACKET];
            Completes(ParseAll(EncodeAll(all)[..k]), |Kept(before, |f|)|, |f|) <==> k == |EncodeAll(all)|
    ensures k == |EncodeAll(blocks + [FILE_END_PACKET])| && Reached(h, before, |f|, room, env) == Transferred ==>
              after == f
  {
    hide Encode, EncodeAll, Offer, CarriesTo, Accepted, EndsWithFileEnd, ParseAll, Completes, Reached, Leaves, Gains;
    var kept := Kept(before, |f|);
    var ps := ParseAll(EncodeAll(blocks + [FILE_END_PACKET])[..k]);
    CutUpload(f, blocks, |kept|, k);
    LeavesWhat(h, before, |f|, room, env, ps, after, close);
    GainsSome(f, kept, Accepted(ps, |kept|, |f|));
    GainsSome(f, kept, []);
    assert kept + [] == kept;
  }

  /** The next bytes of a file, put behind a prefix of it. */
  lemma GainsSome(f: File, kept: File, got: seq<Byte>)
    requires kept <= f && |kept| + |got| <= |f| && got == f[|kept|..|kept| + |got|]
    ensures Gains(f, kept, kept + got, false)
    ensures got == f[|kept|..] ==> kept + got == f
  {
  }

  /** The file left by an attempt in which mmap does not fail. */
  lemma LeavesWhat(h: Host, before: File, total: U64, room: nat, env: Env, ps: seq<Packet>, after: File, close: bool)
    requires env.maps && Leaves(before, total, Reached(h, before, total, room, env), ps, after, close)
    ensures var kept := Kept(before, total);
            if |before| > total && !env.resets then after == before
            else if Reached(h, before, total, room, env) == Transferred then after == kept + Accepted(ps, |kept|, total)
            else after == kept
    ensures Reached(h, before, total, room, env) == Transferred ==> |before| <= total || env.resets
  {
    hide Encode, Offer, Accepted, EndsWithFileEnd, Resize;
  }

  /** UploadAttempt, seen from the files alone. */
  ghost predicate UploadTry(h: Host, f: File, before: File, after: File) {
    exists blocks, k, room, env, close :: UploadRuns(h, f, before, blocks, k, room, env, after, close)
  }

  ghost predicate UploadRuns(h: Host, f: File, before: File, blocks: seq<Packet>, k: nat, room: nat, env: Env,
                             after: File, close: bool)
  {
    && |f| < OFF_T_LIMIT && env.maps
    && AllSendable(blocks) && Carries(blocks, f, |Kept(before, |f|)|) && k <= |EncodeAll(blocks + [FILE_END_PACKET])|
    && Leaves(before, |f|, Reached(h, before, |f|, room, env),
              ParseAll(EncodeAll(blocks + [FILE_END_PACKET])[..k]), after, close)
  }

  /** Wherever the stream is cut, there is an attempt that ends there. */
  lemma AttemptsHappen(h: Host, f: File, before: File, k: nat)
    requires |f| < OFF_T_LIMIT && Transfer.Resumable(before, f)
    requires k <= |EncodeAll(Blocks(f, |Kept(before, |f|)|) + [FILE_END_PACKET])|
    ensures exists room, env, after, close ::
              UploadRuns(h, f, before, Blocks(f, |Kept(before, |f|)|), k, room, env, after, close)
  {
    hide Encode, EncodeAll, CarriesTo, Blocks, ParseAll, Accepted, EndsWithFileEnd, Offer;
    var kept := Kept(before, |f|);
    var blocks := Blocks(f, |kept|);
    BlocksCarry(f, |kept|);
    var ps := ParseAll(EncodeAll(blocks + [FILE_END_PACKET])[..k]);
    var env := Env(true, true, true, [], []);
    var after := kept + Accepted(ps, |kept|, |f|);
    var room := |Encode(Offer(h, before, |f|))|;
    assert UploadRuns(h, f, before, blocks, k, room, env, after, !EndsWithFileEnd(ps, |kept|, |f|));
  }

  lemma TryGains(h: Host, f: File, before: File, after: File)
    requires Transfer.Resumable(before, f) && UploadTry(h, f, before, after)
    ensures before <= f ==> before <= after
    ensures after <= f || (after == before && |before| > |f|)
  {
    hide Encode, EncodeAll, CarriesTo, Leaves, Reached, ParseAll, UploadRuns;
    var blocks, k, room, env, close :| UploadRuns(h, f, before, blocks, k, room, env, after, close);
    RunsFit(h, f, before, blocks, k, room, env, after, close);
    UploadAttempt(h, f, before, blocks, k, room, env, after, close);
  }

  lemma RunsFit(h: Host, f: File, before: File, blocks: seq<Packet>, k: nat, room: nat, env: Env,
                after: File, close: bool)
    requires UploadRuns(h, f, before, blocks, k, room, env, after, close)
    ensures AllSendable(blocks) && k <= |EncodeAll(blocks + [FILE_END_PACKET])|
  {
  }

  /** A history of the file on disk: each state follows from the one before by an attempt. */
  ghost predicate UploadHistory(h: Host, f: File, files: seq<File>) {
    && files != [] && Transfer.Resumable(files[0], f)
    && forall i, j :: 0 <= i && j == i + 1 < |files| ==> UploadTry(h, f, files[i], files[j])
  }

  /**
   * Any number of upload attempts, each cut at a byte of its own: the file on disk is a
   * prefix of the client's and only grows, or it is still the over-long file it was.
   */
  lemma {:induction false} UploadTries(h: Host, f: File, files: seq<File>, i: nat, j: nat)
    requires UploadHistory(h, f, files) && i <= j < |files|
    ensures files[j] <= f || (files[j] == files[0] && |files[0]| > |f|)
    ensures files[i] <= f ==> files[i] <= files[j] <= f
    decreases j
  {
    hide UploadTry;
    if j > 0 {
      assert UploadTry(h, f, files[j - 1], files[j]);
      UploadTries(h, f, files, if i < j then i else j - 1, j - 1);
      TryGains(h, f, files[j - 1], files[j]);
    }
  }

  /**
   * One download attempt, cut after any byte, with any amount of space on the client's
   * disk: the local file is a prefix of the server's that contains what was kept before;
   * success is reported exactly when the stream arrived whole and was written, and then
   * the file is equal, although its size is never compared.
   */
  lemma DownloadAttempt(f: File, before: File, k: nat, room: nat, space: nat, resets: bool, after: File, rc: int)
    requires Transfer.Resumable(before, f)
    requires var all := Blocks(f, |Kept(before, |f|)|) + [FILE_END_PACKET];
             && k <= |EncodeAll(all)|
             && ReceiveLeaves(before, space, resets, |f|, room, ParseAll(EncodeAll(all)[..k]), after, rc)
    ensures if |before| > |f| && !resets then after == before else Gains(f, Kept(before, |f|), after, rc == 0)
    ensures rc == 0 <==>
              && (|before| <= |f| || resets) && HEADER_SIZE + RESUME_SIZE <= room
              && k == |EncodeAll(Blocks(f, |Kept(before, |f|)|) + [FILE_END_PACKET])|
              && |f| - |Kept(before, |f|)| <= space
  {
    hide Encode, CarriesTo, Accepted, EndsWithFileEnd, Taken, StopsAtEnd, Blocks, Fits;
    var kept := Kept(before, |f|);
    var blocks := Blocks(f, |kept|);
    var all := blocks + [FILE_END_PACKET];
    BlocksCarry(f, |kept|);
    CutSafety(all, k);
    var n := WholePackets(all, k);
    CarriedPrefix(blocks, f, |kept|, n);
    WholeAll(all, k);
    if n == |all| {
      assert all[..n] == all;
    }
    TakenPart(f, kept, Taken(all[..n]), space);
  }

  /** A part of what continues a prefix of a file leaves a prefix of it. */
  lemma TakenPart(f: File, kept: File, got: seq<Byte>, space: nat)
    requires kept <= f && |kept| + |got| <= |f| && got == f[|kept|..|kept| + |got|]
    ensures kept <= kept + Fits(got, space) <= f
    ensures |got| <= space ==> Fits(got, space) == got
    ensures got == f[|kept|..] ==> kept + got == f && |got| == |f| - |kept|
  {
  }

  // ---------- both programs on one whole connection ----------

  lemma UploadStart(request: Packet, blocks: seq<Packet>, up: seq<Byte>)
    requires Sendable(request) && AllSendable(blocks)
    ensures Parse(Encode(request) + EncodeAll(blocks) + up) == Got(request, EncodeAll(blocks) + up)
  {
    ParseEncode(request, EncodeAll(blocks) + up);
    Seqs.Assoc(Encode(request), EncodeAll(blocks), up);
  }

  lemma TwoReplies(p: Packet, q: Packet, down: seq<Byte>)
    requires Sendable(p) && Sendable(q)
    ensures Parse(Encode(p) + Encode(q) + down) == Got(p, Encode(q) + down)
    ensures Parse(Encode(q) + down) == Got(q, down)
  {
    ParseEncode(p, Encode(q) + down);
    ParseEncode(q, down);
    Seqs.Assoc(Encode(p), Encode(q), down);
  }

  lemma OfferIsRead(h: Host, before: File, size: U64)
    ensures var p := Offer(h, before, size);
            && p.cmd == CMD_PUTS_RESP && |p.payload| == RESUME_SIZE
            && OfferPoint(h, p, size) == |Kept(before, size)|
  {
    WireRoundTrip(h, |Kept(before, size)|);
  }

  /**
   * An upload in step: each program reads of the other's stream exactly what belongs to
   * this upload, whatever follows it, and the last word is ACK.
   */
  lemma UploadInStep(h: Host, f: File, before: File, name: seq<Byte>, blocks: seq<Packet>, room: nat, env: Env,
                     up: seq<Byte>, down: seq<Byte>, clientRoom: nat)
    requires |name| == NAME_SIZE && |f| < OFF_T_LIMIT && ValidEnv(env)
    requires Carries(blocks, f, |Kept(before, |f|)|) && AllSendable(blocks)
    requires Reached(h, before, |f|, room, env) == Transferred
    ensures var bytes := UploadBytes(h, f, name, true, blocks);
            var request := Parse(bytes + up);
            && request.Got? && request.packet == PutsRequest(h, f, name)
            && AfterUpload(before, |f|, Transferred, request.rest) == up
            && var replies := Replies(h, before, |f|, Transferred, ParseAll(request.rest), env);
            var offer := Parse(replies + down);
            && IsOffer(offer) && OfferPoint(h, offer.packet, |f|) == |Kept(before, |f|)|
            && IsText(Parse(offer.rest)) && Parse(offer.rest).packet.cmd == CMD_ACK
            && (|bytes| <= clientRoom ==>
                  AfterPuts(|Encode(PutsRequest(h, f, name))|, |bytes|, clientRoom, replies + down) == down)
  {
    hide Encode, EncodeAll, CarriesTo, PutsRequest, Offer, Parse, OfferPoint, Accepted, EndsWithFileEnd, ParseAll;
    hide AfterBlocks, Reached;
    var all := blocks + [FILE_END_PACKET];
    var o := |Kept(before, |f|)|;
    UploadStart(PutsRequest(h, f, name), all, up);
    UploadAhead(blocks, f, o, up);
    OfferIsRead(h, before, |f|);
    TwoReplies(Offer(h, before, |f|), FinalReply(true, env), down);
  }

  lemma InfoIsRead(h: Host, name: seq<Byte>, size: nat)
    requires |name| == NAME_SIZE && size < OFF_T_LIMIT
    ensures var p := Info(h, name, size);
            && p.cmd == CMD_GETS_RESP && |p.payload| == FILE_INFO_SIZE && InfoSize(h, p) == size
            && p.payload[..NAME_SIZE] == name
  {
    hide WireU64, ReadU64;
    InfoRoundTrip(h, name, size);
  }

  lemma PositionIsRead(h: Host, o: nat, size: nat)
    requires o <= size < OFF_T_LIMIT
    ensures var p := ToPacket(h, Transfer.Resume(o)); IsResume(p) && ResumePoint(h, p, size) == o
  {
    hide ReadU64, WireU64;
    WireRoundTrip(h, o);
  }

  /**
   * A download in step: the server reads exactly the request and the position, the client
   * exactly the file information, the rest of the file and FILE_END.
   */
  lemma DownloadInStep(h: Host, f: File, before: File, name: seq<Byte>, arg: string, space: nat, room: nat,
                       up: seq<Byte>, down: seq<Byte>)
    requires |name| == NAME_SIZE && |f| < OFF_T_LIMIT && |arg| < 4096
    requires |f| - |Kept(before, |f|)| <= space && HEADER_SIZE + RESUME_SIZE + |Encode(GetsRequest(arg))| <= room
    ensures var position := Encode(ToPacket(h, Transfer.Resume(|Kept(before, |f|)|)));
            var request := Parse(Encode(GetsRequest(arg)) + position + up);
            && request.Got? && request.packet == GetsRequest(arg)
            && var answer := Parse(request.rest);
            && GivesPosition(answer) && answer.rest == up
            && var replies := DownloadReplies(h, f, name, answer);
            var info := Parse(replies + down);
            && IsInfo(info) && InfoSize(h, info.packet) == |f|
            && PositionBytes(h, before, |f|, true) == position
            && Taken(ParseAll(info.rest)) == f[|Kept(before, |f|)|..]
            && StopsAtEnd(ParseAll(info.rest))
            && AfterGets(h, before, space, true, |Encode(GetsRequest(arg))|, room, replies + down) == down
  {
    hide Encode, EncodeAll, Parse, InfoSize, ToPacket, ResumePoint, ParseAll, Taken, StopsAtEnd, Blocks, GetsRequest;
    hide Info, AfterData, IsResume;
    var o := |Kept(before, |f|)|;
    var position := ToPacket(h, Transfer.Resume(o));
    TwoReplies(GetsRequest(arg), position, up);
    PositionIsRead(h, o, |f|);
    InfoIsRead(h, name, |f|);
    BlocksCarry(f, o);
    UploadStart(Info(h, name, |f|), Blocks(f, o) + [FILE_END_PACKET], down);
    DownloadAhead(Blocks(f, o), f, o, space, down);
  }
}
