// The imperative handlers and the halves of the transfer system are the same programs:
// what one does with a packet, the other does with the message the packet stands for.

module Agreement {
  import opened Endian
  import opened Framing
  import Seqs
  import Files
  import Link
  import opened Messages
  import opened Transfer
  import opened Upload
  import opened Download
  import Client

  // ---------- one packet ----------

  /**
   * An upload request: both keep the same part of the file, extend it alike and make the
   * same offer. If the offer does not go out, both leave what was kept and hang up.
   */
  lemma RequestAgrees(h: Host, c: Core, name: seq<Byte>, total: U64, ch: Choice, sent: bool)
    requires c.server == Ready && ch.accept && |name| == NAME_SIZE
    ensures var r := ServerReceives(c, FromPacket(h, ToPacket(h, PutsReq(name, total))), ch, sent);
            var kept := Kept(c.dst, total);
            if sent then
              && r.core == c.(server := Storing(|kept|, total), dst := Files.Resize(kept, total))
              && r.out == [FromPacket(h, Offer(h, c.dst, total))]
            else
              && r == Reaction(Hangup(c.(dst := kept)), [])
              && forall ps, after, close ::
                   Leaves(c.dst, total, Unoffered, ps, after, close) ==> after == r.core.dst && close
  {
    hide ReadU64, WireU64;
    MessageRoundTrip(h, PutsReq(name, total));
    MessageRoundTrip(h, PutsResp(|Kept(c.dst, total)|));
  }

  /** From the request to the end of the receive loop, handler and server half store the same file. */
  lemma UploadAgrees(h: Host, c: Core, name: seq<Byte>, total: U64, ch: Choice, ps: seq<Packet>, after: Files.File,
                     close: bool)
    requires c.server == Ready && ch.accept && |name| == NAME_SIZE
    requires Leaves(c.dst, total, Transferred, ps, after, close)
    ensures var start := ServerReceives(c, FromPacket(h, ToPacket(h, PutsReq(name, total))), ch, true).core;
            && start.server.Storing? && start.server.total == |start.dst|
            && var d := StoreAll(start, FromPackets(h, ps), ch);
            && d.dst == after && d.server == (if close then Closed else Ready)
  {
    hide FromPacket, ToPacket, StoreAll, Accepted, EndsWithFileEnd, ServerReceives;
    RequestAgrees(h, c, name, total, ch, true);
    var kept := Kept(c.dst, total);
    var start := c.(server := Storing(|kept|, total), dst := Files.Resize(kept, total));
    LoopIsServer(h, start, ps, ch);
    assert start.dst[..|kept|] == kept;
  }

  /** The server's answer to whatever comes back after GETS_RESP. */
  lemma ResumeAgrees(h: Host, c: Core, p: Packet, ch: Choice)
    requires c.server == AwaitResume(|c.origin|)
    ensures ServerReceives(c, FromPacket(h, p), ch, true).core ==
            if IsResume(p) then c.(server := Streaming(ResumePoint(h, p, |c.origin|), |c.origin|)) else Hangup(c)
  {
  }

  /** The client's reaction to the answer to PUTS_REQ. */
  lemma OfferAgrees(h: Host, c: Core, p: Packet)
    requires c.client == AwaitPutsResp
    ensures ClientReceives(c, FromPacket(h, p), true).core ==
            c.(client := if Client.IsOffer(Got(p, [])) then Sending(Client.OfferPoint(h, p, |c.src|))
                         else if p.cmd == CMD_ERROR then Idle(Rejected)
                         else Transfer.Client.Stopped)
  {
  }

  lemma InfoMessage(h: Host, p: Packet)
    ensures Client.IsInfo(Got(p, [])) <==> FromPacket(h, p).GetsResp?
    ensures Client.IsInfo(Got(p, [])) ==> FromPacket(h, p).total == Client.InfoSize(h, p)
    ensures p.cmd == CMD_ERROR <==> FromPacket(h, p).Error?
  {
    hide ReadU64;
  }

  /**
   * The client's reaction to the answer to GETS_REQ, and the position it announces. If the
   * position does not go out, both leave what was kept and stop; if an over-long file cannot
   * be reset, both leave it and stop.
   */
  lemma InfoAgrees(h: Host, c: Core, p: Packet, sent: bool)
    requires c.client == AwaitInfo
    ensures var r := ClientReceives(c, FromPacket(h, p), sent);
            if Client.IsInfo(Got(p, [])) then
              var size := Client.InfoSize(h, p);
              var kept := Kept(c.copy, size);
              if sent then r == Reaction(c.(client := Receiving(size, |kept|), copy := kept), [Resume(|kept|)])
              else
                && r == Reaction(c.(client := Transfer.Client.Stopped, copy := kept), [])
                && (forall space: nat, room: nat, ps, after, rc ::
                     room < HEADER_SIZE + RESUME_SIZE &&
                     ReceiveLeaves(c.copy, space, true, size, room, ps, after, rc) ==>
                       after == r.core.copy && rc == -1)
                && (forall space: nat, room: nat, ps, after, rc ::
                     |c.copy| > size && ReceiveLeaves(c.copy, space, false, size, room, ps, after, rc) ==>
                       after == ClientStops(c, []).copy && rc == -1)
            else
              r == Reaction(c.(client := if p.cmd == CMD_ERROR then Idle(Rejected) else Transfer.Client.Stopped), [])
  {
    hide FromPacket, Client.InfoSize;
    InfoMessage(h, p);
  }

  lemma FirstPacket(h: Host, p: Packet, ps: seq<Packet>)
    ensures FromPackets(h, [p] + ps) == [FromPacket(h, p)] + FromPackets(h, ps)
  {
    hide FromPacket;
  }

  /** A command without a transfer: request and reply are those of the protocol system. */
  lemma CommandAgrees(h: Host, c: Core, cmd: U32, arg: string, ch: Choice, sent: bool)
    requires c.server == Ready && CMD_PWD <= cmd <= CMD_MKDIR && |arg| < 4096
    ensures var m := FromPacket(h, Client.SimpleRequest(cmd, arg));
            && IsRequest(m, c.src) && m.Command?
            && ServerReceives(c, m, ch, sent) == Reaction(Answered(c, sent), [ch.reply])
  {
  }

  /** The client's reaction to the answer to such a command, and to the last word on an upload. */
  lemma TextAgrees(h: Host, c: Core, p: Packet)
    requires c.client == AwaitText || c.client == AwaitAck
    ensures var next := ClientReceives(c, FromPacket(h, p), true).core;
            if !Client.IsText(Got(p, [])) then next == c.(client := Transfer.Client.Stopped)
            else if c.client == AwaitText then next == c.(client := Idle(Replied))
            else next == c.(client := Idle(if p.cmd == CMD_ACK then Uploaded else Rejected))
  {
  }

  /** A download request: the file information sent is the server half's, or both hang up. */
  lemma GetsRequestAgrees(h: Host, c: Core, arg: string, ch: Choice, sent: bool)
    requires c.server == Ready && ch.accept && |ch.name| == NAME_SIZE
    requires |arg| < 4096 && |c.origin| < Files.OFF_T_LIMIT
    ensures ServerReceives(c, FromPacket(h, Client.GetsRequest(arg)), ch, sent) ==
            if sent then Reaction(c.(server := AwaitResume(|c.origin|)), [FromPacket(h, Info(h, ch.name, |c.origin|))])
            else Reaction(Hangup(c), [])
  {
    hide WireU64, ReadU64;
    MessageRoundTrip(h, GetsResp(ch.name, |c.origin|));
  }

  // ---------- loops ----------

  /** Everything the server half sends from its present position, if nothing stops it. */
  function StreamOut(c: Core): seq<Msg>
    requires c.server.Streaming? && c.server.offset <= c.server.total == |c.origin|
    decreases c.server.total - c.server.offset
  {
    var r := ServerMoves(c);
    if r.core.server.Streaming? then r.out + StreamOut(r.core) else r.out
  }

  /** The download loop sends what the server half sends. */
  lemma {:induction false} StreamAgrees(h: Host, c: Core)
    requires c.server.Streaming? && c.server.offset <= c.server.total == |c.origin|
    ensures StreamOut(c) == FromPackets(h, Blocks(c.origin, c.server.offset) + [FILE_END_PACKET])
    decreases c.server.total - c.server.offset
  {
    hide FromPacket, Blocks;
    var o := c.server.offset;
    var all := Blocks(c.origin, o) + [FILE_END_PACKET];
    FromPacketStream(h, all[0]);
    BlocksStep(c.origin, o);
    if o < |c.origin| {
      var r := ServerMoves(c);
      var p := BlockPacket(c.origin, o, Link.Min(|c.origin| - o, FILE_BLOCK_SIZE));
      StreamAgrees(h, r.core);
      assert all == [p] + (Blocks(c.origin, r.core.server.offset) + [FILE_END_PACKET]);
      FirstPacket(h, p, Blocks(c.origin, r.core.server.offset) + [FILE_END_PACKET]);
    }
  }

  /** Over a connection with so much room, a receiver gets the first of these messages and no others. */
  predicate BreaksInto(h: Host, ps: seq<Packet>, room: nat, ms: seq<Msg>)
    requires AllSendable(ps)
  {
    && |ms| == |ps|
    && FromPackets(h, ParseAll(Link.Fits(EncodeAll(ps), room))) == ms[..WholePackets(ps, room)]
  }

  lemma BrokenStream(h: Host, ps: seq<Packet>, room: nat)
    requires AllSendable(ps)
    ensures BreaksInto(h, ps, room, FromPackets(h, ps))
  {
    hide FromPacket;
    var k := Link.Min(|EncodeAll(ps)|, room);
    CutSafety(ps, k);
    WholeAll(ps, k);
    WholeAll(ps, room);
  }

  /** A download loop that breaks off has sent the first messages of the server half. */
  lemma StreamBreaks(h: Host, c: Core, room: nat)
    requires c.server.Streaming? && c.server.offset <= c.server.total == |c.origin|
    ensures BreaksInto(h, Blocks(c.origin, c.server.offset) + [FILE_END_PACKET], room, StreamOut(c))
  {
    hide FromPacket, EncodeAll, ParseAll, Link.Fits, Blocks, BreaksInto;
    StreamAgrees(h, c);
    BrokenStream(h, Blocks(c.origin, c.server.offset) + [FILE_END_PACKET], room);
  }

  /**
   * The client half taking messages for as long as it is receiving and its disk has room;
   * a block the disk takes only in part stops it.
   */
  function TakeAll(c: Core, ms: seq<Msg>, space: nat): Core
    requires c.client.Receiving?
    decreases |ms|
  {
    if ms == [] then c
    else if ms[0].Data? && |ms[0].block| > space then ClientStops(c, ms[0].block[..space])
    else
      var d := ClientReceives(c, ms[0], true).core;
      if d.client.Receiving? then TakeAll(d, ms[1..], if ms[0].Data? then space - |ms[0].block| else space) else d
  }

  /** The part written of a block that does not fit is one that ClientStop allows. */
  lemma PartialIsStop(s: State, space: nat)
    requires s.core.client.Receiving? && s.down != [] && s.down[0].Data? && |s.down[0].block| > space
    ensures Enabled(s, ClientStop(space))
    ensures Do(s, ClientStop(space)).core == TakeAll(s.core, s.down, space)
  {
  }

  /** The client's receive loop and the client half build the same file and agree on success for every disk. */
  lemma {:induction false} ReceiveAgrees(h: Host, c: Core, ps: seq<Packet>, space: nat)
    requires c.client.Receiving?
    ensures var d := TakeAll(c, FromPackets(h, ps), space);
            && d.copy == c.copy + Link.Fits(Taken(ps), space)
            && (d.client.Idle? && d.client.last.Downloaded? <==> StopsAtEnd(ps) && |Taken(ps)| <= space)
            && (d.client.Idle? && d.client.last.Downloaded? ==>
                  d.client.last == Downloaded(c.client.total, c.client.size + |Taken(ps)|))
    decreases |ps|
  {
    hide FromPacket, Link.Fits;
    FitsNothing(space);
    if ps != [] {
      FromPacketStream(h, ps[0]);
      assert FromPackets(h, ps)[1..] == FromPackets(h, ps[1..]);
      if ps[0].cmd == CMD_FILE_DATA {
        var b := ps[0].payload;
        Link.FitsConcat(b, Taken(ps[1..]), space);
        if |b| <= space {
          ReceiveAgrees(h, ClientReceives(c, FromPacket(h, ps[0]), true).core, ps[1..], space - |b|);
          Seqs.Assoc(c.copy, b, Link.Fits(Taken(ps[1..]), space - |b|));
        } else {
          FitsPart(b, space);
        }
      }
    }
  }

  lemma FitsNothing(space: nat)
    ensures Link.Fits([], space) == []
  {
  }

  lemma FitsPart(b: seq<Byte>, space: nat)
    requires space < |b|
    ensures Link.Fits(b, space) == b[..space]
  {
  }

  // ---------- the messages left over ----------

  /** The messages the server half has not taken when it stops storing. */
  function StoreLeft(c: Core, ms: seq<Msg>, ch: Choice): seq<Msg>
    requires c.server.Storing? && c.server.total == |c.dst|
    decreases |ms|
  {
    if ms == [] then []
    else
      var d := ServerReceives(c, ms[0], ch, true).core;
      if d.server.Storing? then StoreLeft(d, ms[1..], ch) else ms[1..]
  }

  lemma StoreLeftNothing(c: Core, ch: Choice)
    requires c.server.Storing? && c.server.total == |c.dst|
    ensures StoreLeft(c, [], ch) == []
  {
  }

  lemma StoreLeftTurn(c: Core, ms: seq<Msg>, ch: Choice)
    requires c.server.Storing? && c.server.total == |c.dst| && ms != []
    ensures var d := ServerReceives(c, ms[0], ch, true).core;
            StoreLeft(c, ms, ch) == if d.server.Storing? then StoreLeft(d, ms[1..], ch) else ms[1..]
  {
    hide ServerReceives;
  }

  /** The upload loop and the server half leave the same packets unread. */
  lemma {:induction false} StoreLeavesAlike(h: Host, c: Core, ps: seq<Packet>, ch: Choice)
    requires c.server.Storing? && c.server.total == |c.dst| && c.server.offset <= c.server.total
    ensures var read := BlocksRead(ps, c.server.offset, c.server.total);
            StoreLeft(c, FromPackets(h, ps), ch) == FromPackets(h, ps[read..])
    decreases |ps|
  {
    hide FromPacket, ServerReceives, StoreLeft;
    var Storing(o, total) := c.server;
    if ps == [] {
      StoreLeftNothing(c, ch);
    } else {
      TurnIsServer(h, c, ps[0], ch);
      var d := ServerReceives(c, FromPacket(h, ps[0]), ch, true).core;
      StoreLeftTurn(c, FromPackets(h, ps), ch);
      assert FromPackets(h, ps)[1..] == FromPackets(h, ps[1..]);
      if TakesBlock(ps[0], o, total) {
        StoreLeavesAlike(h, d, ps[1..], ch);
        Seqs.DropTwice(ps, BlocksRead(ps[1..], o + |ps[0].payload|, total));
      }
    }
  }

  /** What the server half says while it is storing. */
  function StoreOut(c: Core, ms: seq<Msg>, ch: Choice): seq<Msg>
    requires c.server.Storing? && c.server.total == |c.dst|
    decreases |ms|
  {
    if ms == [] then []
    else
      var r := ServerReceives(c, ms[0], ch, true);
      r.out + if r.core.server.Storing? then StoreOut(r.core, ms[1..], ch) else []
  }

  lemma TurnAnswers(h: Host, c: Core, p: Packet, ch: Choice)
    requires c.server.Storing? && c.server.offset <= c.server.total == |c.dst|
    ensures var Storing(o, total) := c.server;
            ServerReceives(c, FromPacket(h, p), ch, true).out ==
            if TakesBlock(p, o, total) then []
            else if p.cmd == CMD_FILE_END && o == total then [ch.done] else [ch.refusal]
  {
    hide FromPacket;
    FromPacketStream(h, p);
  }

  /** Handler and server half have the same last word; a stream that ends without one gets none from the server half. */
  lemma {:induction false} StoreAnswersAlike(h: Host, c: Core, ps: seq<Packet>, env: Env, ch: Choice, n: nat)
    requires c.server.Storing? && c.server.offset <= c.server.total == |c.dst| && ValidEnv(env)
    requires ch.done == FromPacket(h, FinalReply(true, env)) && ch.refusal == FromPacket(h, FinalReply(false, env))
    requires StopsAt(ps, c.server.offset, c.server.total, n)
    ensures var Storing(o, total) := c.server;
            StoreOut(c, FromPackets(h, ps), ch) ==
            if n < |ps| then [FromPacket(h, FinalReply(Completes(ps, o, total), env))] else []
    decreases n
  {
    hide FromPacket, ServerReceives, StopsAt;
    var Storing(o, total) := c.server;
    AcceptedExactly(ps, o, total, n);
    if ps != [] {
      assert FromPackets(h, ps)[1..] == FromPackets(h, ps[1..]);
      TurnAnswers(h, c, ps[0], ch);
      TurnIsServer(h, c, ps[0], ch);
      StopsHere(ps, o, total, n);
      if n > 0 {
        StopsLater(ps, o, total, n);
        StoreAnswersAlike(h, ServerReceives(c, FromPacket(h, ps[0]), ch, true).core, ps[1..], env, ch, n - 1);
      }
    }
  }

  lemma StopsHere(ps: seq<Packet>, o: nat, total: nat, n: nat)
    requires StopsAt(ps, o, total, n) && ps != []
    ensures n == 0 <==> !TakesBlock(ps[0], o, total)
    ensures n <= |ps|
  {
    if n > 0 {
      StopsLater(ps, o, total, n);
    } else {
      PayloadsFront(ps, 1);
      assert ps[1..][..0] == [];
    }
  }

  /** The messages the client half has not taken when it stops receiving. */
  function TakeLeft(c: Core, ms: seq<Msg>): seq<Msg>
    requires c.client.Receiving?
    decreases |ms|
  {
    if ms == [] then []
    else
      var d := ClientReceives(c, ms[0], true).core;
      if d.client.Receiving? then TakeLeft(d, ms[1..]) else ms[1..]
  }

  /** The client's receive loop and the client half leave the same packets unread. */
  lemma {:induction false} TakeLeavesAlike(h: Host, c: Core, ps: seq<Packet>)
    requires c.client.Receiving?
    ensures TakeLeft(c, FromPackets(h, ps)) == FromPackets(h, ps[DataRead(ps)..])
    decreases |ps|
  {
    hide FromPacket;
    if ps != [] {
      FromPacketStream(h, ps[0]);
      assert FromPackets(h, ps)[1..] == FromPackets(h, ps[1..]);
      if ps[0].cmd == CMD_FILE_DATA {
        TakeLeavesAlike(h, ClientReceives(c, FromPacket(h, ps[0]), true).core, ps[1..]);
        Seqs.DropTwice(ps, DataRead(ps[1..]));
      }
    }
  }

  // ---------- the upload stream ----------

  /** The client half sending its file in blocks of the given sizes, then FILE_END. */
  function SendOut(c: Core, ps: seq<Packet>): seq<Msg>
    requires c.client.Sending? && CarriesTo(ps, c.src, c.client.offset, |c.src|)
    decreases |ps|
  {
    if ps == [] then ClientMoves(c, Finish).out
    else
      var r := ClientMoves(c, Block(|ps[0].payload|));
      r.out + SendOut(r.core, ps[1..])
  }

  /** However read(2) cuts the file, the upload loop sends what the client half sends. */
  lemma {:induction false} SendAgrees(h: Host, c: Core, ps: seq<Packet>)
    requires c.client.Sending? && Carries(ps, c.src, c.client.offset)
    ensures SendOut(c, ps) == FromPackets(h, ps + [FILE_END_PACKET])
    decreases |ps|
  {
    hide FromPacket;
    var all := ps + [FILE_END_PACKET];
    FromPacketStream(h, all[0]);
    if ps != [] {
      assert all == [ps[0]] + (ps[1..] + [FILE_END_PACKET]);
      SendAgrees(h, ClientMoves(c, Block(|ps[0].payload|)).core, ps[1..]);
      FirstPacket(h, ps[0], ps[1..] + [FILE_END_PACKET]);
    }
  }

  /** An upload loop that breaks off has sent the first messages of the client half. */
  lemma SendBreaks(h: Host, c: Core, ps: seq<Packet>, room: nat)
    requires c.client.Sending? && Carries(ps, c.src, c.client.offset) && AllSendable(ps)
    ensures BreaksInto(h, ps + [FILE_END_PACKET], room, SendOut(c, ps))
  {
    hide FromPacket, EncodeAll, ParseAll, Link.Fits, CarriesTo, BreaksInto;
    SendAgrees(h, c, ps);
    BrokenStream(h, ps + [FILE_END_PACKET], room);
  }
}
