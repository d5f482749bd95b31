// A client's command list and a server's session on one whole connection: command by
// command, each program reads of the other's stream exactly what belongs to the command.

module Conversation {
  import opened Endian
  import opened Framing
  import opened Files
  import Link
  import opened Messages
  import Transfer
  import Upload
  import opened Download
  import opened Client
  import opened FileSystem
  import opened Paths
  import opened PathBuffers
  import Session
  import opened Handlers
  import opened Seqs

  /** A command of the client, with the local file it works on. */
  datatype Command =
    | Simple(cmd: U32, arg: string)
    | Puts(f: File, path: string)
    | Gets(arg: string, before: File, space: nat)

  predicate ValidCommand(c: Command) {
    match c
    case Simple(cmd, arg) =>
      cmd in {CMD_PWD, CMD_CD, CMD_LS, CMD_RM, CMD_MKDIR} && Session.ByteText(arg) && |arg| < 4096
    case Puts(f, path) => Session.ByteText(path) && 0 < |path| < 4096 && |f| < OFF_T_LIMIT
    case Gets(arg, before, _) => Session.ByteText(arg) && 0 < |arg| < 4096 && |before| < OFF_T_LIMIT
  }

  function RequestPacket(h: Host, c: Command): (p: Packet)
    requires ValidCommand(c)
    ensures Sendable(p)
  {
    match c
    case Simple(cmd, arg) => SimpleRequest(cmd, arg)
    case Puts(f, path) => PutsRequest(h, f, Session.NameField(BaseName(path)))
    case Gets(arg, _, _) => GetsRequest(arg)
  }

  /**
   * One command: the stream it started on, the blocks of an upload, the bytes sent, the
   * stream left, the file a download leaves and the result returned.
   */
  datatype ClientTurn = ClientTurn(
    command: Command, before: seq<Byte>, blocks: seq<Packet>, sent: seq<Byte>, left: seq<Byte>, after: File, rc: int)

  /**
   * The contracts of the client's three handlers on a connection that takes everything,
   * for a client whose own disk does not fail.
   */
  predicate ClientDoes(h: Host, t: ClientTurn) {
    && ValidCommand(t.command)
    && var answer := Parse(t.before);
    match t.command
    case Simple(cmd, arg) =>
      && t.sent == Encode(SimpleRequest(cmd, arg)) && t.left == AfterPacket(t.before)
      && (t.rc == 0 <==> IsText(answer))
    case Puts(f, path) =>
      var request := PutsRequest(h, f, Session.NameField(BaseName(path)));
      && AllSendable(t.blocks)
      && (IsOffer(answer) ==> Carries(t.blocks, f, OfferPoint(h, answer.packet, |f|)))
      && t.sent == UploadBytes(h, f, Session.NameField(BaseName(path)), IsOffer(answer), t.blocks)
      && t.left == AfterPuts(|Encode(request)|, |t.sent|, |t.sent|, t.before)
      && (t.rc == 0 <==> IsOffer(answer) && IsText(Parse(answer.rest)))
    case Gets(arg, before, space) =>
      && t.sent == DownloadBytes(h, arg, before, true, answer)
      && t.left == AfterGets(h, before, space, true, |Encode(GetsRequest(arg))|, |t.sent|, t.before)
      && DownloadLeaves(h, before, space, true, |Encode(GetsRequest(arg))|, |t.sent|, answer, t.after, t.rc)
      && (IsInfo(answer) ==> |Taken(ParseAll(answer.rest))| <= space)
  }

  /** The stream an upload leaves does not depend on how much more the connection would take. */
  lemma EnoughForPuts(request: nat, bytes: nat, room: nat, s: seq<Byte>)
    requires request <= bytes <= room
    ensures AfterPuts(request, bytes, room, s) == AfterPuts(request, bytes, bytes, s)
  {
  }

  /** Nor do the stream and the file a download leaves. */
  lemma EnoughForGets(h: Host, arg: string, before: File, space: nat, room: nat, s: seq<Byte>, file: File, rc: int)
    requires |arg| < 4096 && |before| < OFF_T_LIMIT && |DownloadBytes(h, arg, before, true, Parse(s))| <= room
    ensures var request, bytes := |Encode(GetsRequest(arg))|, |DownloadBytes(h, arg, before, true, Parse(s))|;
            && AfterGets(h, before, space, true, request, room, s) ==
               AfterGets(h, before, space, true, request, bytes, s)
            && DownloadLeaves(h, before, space, true, request, room, Parse(s), file, rc) ==
               DownloadLeaves(h, before, space, true, request, bytes, Parse(s), file, rc)
  {
    hide Parse, InfoSize, AfterPacket, AfterData, GetsRequest, Encode, ToPacket, ParseAll, Taken, StopsAtEnd, Link.Fits;
    if IsInfo(Parse(s)) {
      PositionLength(h, |Upload.Kept(before, InfoSize(h, Parse(s).packet))|);
    }
  }

  /** The disk takes all that a download brings. */
  predicate DiskTakes(c: Command, before: seq<Byte>) {
    c.Gets? && IsInfo(Parse(before)) ==> |Taken(ParseAll(Parse(before).rest))| <= c.space
  }

  /**
   * process_command, once the command is parsed: the matching handler runs. On a
   * connection and a disk with room enough it does what ClientDoes says.
   */
  method ProcessCommand(h: Host, sock: Link.Socket, heap: Link.Heap, c: Command, file: LocalFile)
    returns (rc: int, ghost t: ClientTurn)
    requires ValidCommand(c) && (c.Gets? ==> file.content == c.before && file.space == c.space)
    modifies sock, heap, file
    ensures t.command == c && t.before == old(sock.inbound)
    ensures |t.sent| <= old(sock.room) && DiskTakes(c, t.before) ==>
              ClientDoes(h, t) && sock.outbound == old(sock.outbound) + t.sent && sock.inbound == t.left
    ensures heap.live == old(heap.live)
  {
    hide Parse, Encode, EncodeAll, CarriesTo, OfferPoint, PutsRequest, GetsRequest, AfterPuts, AfterGets, ParseAll;
    hide Taken, Link.Fits, PositionBytes, InfoSize, DownloadLeaves;
    ghost var stream, room, sent := sock.inbound, sock.room, [];
    ghost var blocks: seq<Packet> := [];
    match c {
      case Simple(cmd, arg) =>
        sent := Encode(SimpleRequest(cmd, arg));
        rc := HandleSimpleCommand(sock, heap, cmd, arg);
      case Puts(f, path) =>
        rc, blocks := Client.HandlePuts(h, sock, heap, f, Session.NameField(BaseName(path)));
        sent := UploadBytes(h, f, Session.NameField(BaseName(path)), IsOffer(Parse(stream)), blocks);
        if |sent| <= room {
          EnoughForPuts(|Encode(PutsRequest(h, f, Session.NameField(BaseName(path))))|, |sent|, room, stream);
        }
      case Gets(arg, before, space) =>
        sent := DownloadBytes(h, arg, before, true, Parse(stream));
        rc := Client.HandleGets(h, sock, heap, arg, file, true);
        if |sent| <= room {
          EnoughForGets(h, arg, before, space, room, stream, file.content, rc);
        }
    }
    t := ClientTurn(c, stream, blocks, sent, sock.inbound, file.content, rc);
    if |sent| <= room {
      Link.FitsAll(sent, room);
    }
  }

  /** A turn of the server in which no reply was lost, nothing made it close, and an upload could be mapped. */
  predicate GoesWell(t: Turn) {
    t.effect.ok && !t.effect.close && t.faults.puts.reserves && t.faults.puts.maps && ValidFaults(t.faults)
  }

  /** Removing, making or entering what `arg` names, or listing or naming where one is. */
  ghost predicate SimpleAchieves(cmd: U32, arg: string, m: Moment, f: Faults, reply: Packet, now: Store, path: string) {
    var leads := arg != "" && Resolves(m.path, arg);
    if cmd == CMD_PWD then
      && IsReply(reply, CMD_ACK, STATUS_OK) && reply.payload == Session.Bytes(m.path) + [0]
      && now == m.store && path == m.path
    else if cmd == CMD_LS then
      && now == m.store && path == m.path
      && (reply.cmd == CMD_ACK <==> Lists(m.store, RealPath(m.path), f))
    else if !leads then IsReply(reply, CMD_ERROR, STATUS_BAD_REQUEST) && now == m.store && path == m.path
    else
      var target := TargetOf(m.path, arg);
      if cmd == CMD_CD then
        && now == m.store && (reply.cmd == CMD_ACK <==> OpensDir(m.store, target, f))
        && path == if reply.cmd == CMD_ACK then Normalize(m.path, arg).text else m.path
      else if cmd == CMD_RM then
        && path == m.path && (reply.cmd == CMD_ACK <==> Removes(m.store, target, f))
        && now == if reply.cmd == CMD_ACK then Without(m.store, target) else m.store
      else
        && path == m.path && (reply.cmd == CMD_ACK <==> MakesDir(m.store, target, f))
        && if reply.cmd == CMD_ACK then Made(m.store, now, target) else now == m.store
  }

  /**
   * An upload to what `name` names: stored and acknowledged if the target can be opened
   * and, where it is over-long, reset; else turned down and nothing changed.
   */
  ghost predicate PutsAchieves(f: File, name: string, m: Moment, faults: Faults, c: ClientTurn, now: Store) {
    var works := Resolves(m.path, name) && OpensToStore(m.store, TargetOf(m.path, name), faults)
                 && (|Before(m.store, TargetOf(m.path, name))| <= |f| || faults.puts.resets);
    var first := Parse(c.before);
    if works then
      var before := Before(m.store, TargetOf(m.path, name));
      var kept := Upload.Kept(before, |f|);
      && now == WithFile(m.store, TargetOf(m.path, name), kept + f[|kept|..])
      && (Transfer.Resumable(before, f) ==> now == WithFile(m.store, TargetOf(m.path, name), f))
      && IsOffer(first) && IsText(Parse(first.rest)) && Parse(first.rest).packet.cmd == CMD_ACK && c.rc == 0
    else first.Got? && first.packet.cmd == CMD_ERROR && c.rc != 0 && now == m.store
  }

  /**
   * A download of what `arg` names: the file is there on the client if it can be opened
   * and stat'ed, else turned down and nothing changed; of a directory, nothing.
   */
  ghost predicate GetsAchieves(arg: string, local: File, m: Moment, faults: Faults, c: ClientTurn, now: Store) {
    && now == m.store
    && var works := Resolves(m.path, arg) && OpensToSend(m.store, TargetOf(m.path, arg), faults)
                    && TargetOf(m.path, arg) !in faults.stat;
    if works then
      && c.rc == 0
      && var target := TargetOf(m.path, arg);
      if target in m.store.files then
        var f := m.store.files[target];
        var kept := Upload.Kept(local, |f|);
        c.after == kept + f[|kept|..] && (Transfer.Resumable(local, f) ==> c.after == f)
      else c.after == Upload.Kept(local, m.store.dirs[target])
    else
      var first := Parse(c.before);
      first.Got? && first.packet.cmd == CMD_ERROR && c.rc != 0 && c.after == local
  }

  /** What a command does, in terms of what the client was told, of the disk and of the faults. */
  ghost predicate Achieves(h: Host, c: ClientTurn, t: Turn)
    requires |t.effect.sent| <= t.before.room
  {
    match c.command
    case Simple(cmd, arg) =>
      var first := Parse(c.before);
      && first.Got? && c.rc == 0
      && SimpleAchieves(cmd, arg, t.before, t.faults, first.packet, After(t).store, After(t).path)
    case Puts(f, path) =>
      PutsAchieves(f, BaseName(path), t.before, t.faults, c, After(t).store) && After(t).path == t.before.path
    case Gets(arg, local, _) =>
      GetsAchieves(arg, local, t.before, t.faults, c, After(t).store) && After(t).path == t.before.path
  }

  /** The two programs are in step over one command: `up` and `down` are what comes after it in the two streams. */
  ghost predicate InStep(h: Host, c: ClientTurn, t: Turn, up: seq<Byte>, down: seq<Byte>) {
    && Happens(h, t) && ClientDoes(h, c) && |t.effect.sent| <= t.before.room
    && t.packet == RequestPacket(h, c.command) && t.effect.left == up && c.left == down
    && Achieves(h, c, t)
  }

  /** The two streams of a command: each begins with what the other program sends during it. */
  ghost predicate Faces(h: Host, c: ClientTurn, t: Turn, up: seq<Byte>, down: seq<Byte>) {
    && Happens(h, t) && ClientDoes(h, c) && GoesWell(t)
    && t.before.inbound == c.sent + up && c.before == t.effect.sent + down
  }

  // ---------- one command ----------

  /** Every command starts with its request. */
  lemma RequestFirst(h: Host, c: ClientTurn, up: seq<Byte>)
    requires ClientDoes(h, c)
    ensures var p := RequestPacket(h, c.command);
            var n := |Encode(p)|;
            && n <= |c.sent| && c.sent[..n] == Encode(p)
            && Parse(c.sent + up) == Got(p, c.sent[n..] + up)
  {
    hide Encode, EncodeAll, Parse, PutsRequest, GetsRequest, CarriesTo, AfterPuts, AfterGets, ParseAll, PositionBytes;
    var p := RequestPacket(h, c.command);
    var n := |Encode(p)|;
    assert c.sent == Encode(p) + c.sent[n..];
    Assoc(Encode(p), c.sent[n..], up);
    ParseEncode(p, c.sent[n..] + up);
  }

  /** A request answered by one packet and nothing else keeps the programs in step. */
  lemma OneReply(c: ClientTurn, reply: Packet, room: nat, sent: seq<Byte>, down: seq<Byte>)
    requires Sendable(reply) && sent == Link.Fits(Encode(reply), room) && |Encode(reply)| <= room
    requires c.before == sent + down
    ensures Parse(c.before) == Got(reply, down) && AfterPacket(c.before) == down
  {
    hide Encode;
    Link.FitsAll(Encode(reply), room);
    ParseEncode(reply, down);
  }

  lemma DoesValid(h: Host, c: ClientTurn)
    requires ClientDoes(h, c)
    ensures ValidCommand(c.command)
  {
  }

  /** An upload request is never answered like a command; a download request only if it names nothing on disk. */
  lemma ReplyKind(path: string, p: Packet, f: Faults, reply: Packet, was: Store, now: Store)
    requires Answers(path, p, f, reply, was, now)
    ensures p.cmd != CMD_PUTS_REQ
    ensures p.cmd == CMD_GETS_REQ ==>
              !AcceptsArg(path, p) && IsReply(reply, CMD_ERROR, STATUS_BAD_REQUEST) && now == was
  {
  }

  /** What the answer to a simple command means, given that the server reads the client's argument. */
  lemma AnswerMeans(cmd: U32, arg: string, m: Moment, p: Packet, f: Faults, reply: Packet, now: Store)
    requires cmd in {CMD_PWD, CMD_CD, CMD_LS, CMD_RM, CMD_MKDIR} && p.cmd == cmd
    requires arg == "" ==> p.payload == []
    requires arg != "" ==> Session.HasArg(p.payload) && Session.ArgText(p.payload) == arg
    requires Answers(m.path, p, f, reply, m.store, now) && Sendable(reply)
    ensures SimpleAchieves(cmd, arg, m, f, reply, now, Session.NextPath(m.path, RequestOf(m.path, p, f, m.store)))
    ensures reply.cmd == CMD_ACK || reply.cmd == CMD_ERROR
  {
    hide Session.ArgText, Normalize, Resolves, RealPath, Made, Without;
  }

  lemma SimpleInStep(h: Host, c: ClientTurn, t: Turn, up: seq<Byte>, down: seq<Byte>)
    requires Faces(h, c, t, up, down) && c.command.Simple?
    ensures InStep(h, c, t, up, down)
  {
    hide Parse, Encode, Link.Fits, Answers, PutsOutcome, GetsOutcome, SimpleAchieves, SimpleRequest, Session.NextPath;
    var Simple(cmd, arg) := c.command;
    RequestFirst(h, c, up);
    ArgumentSent(cmd, arg);
    assert c.sent[|c.sent|..] + up == up;
    OneReply(c, t.service.reply, t.before.room, t.effect.sent, down);
    AnswerMeans(cmd, arg, t.before.(inbound := Parse(t.before.inbound).rest), t.packet, t.faults, t.service.reply,
                t.effect.store);
    AnswerMeans(cmd, arg, t.before, t.packet, t.faults, t.service.reply, t.effect.store);
  }

  // ---------- uploads ----------

  /** An error is the server's only answer: the client sends no more than its request. */
  lemma PutsTurnedDown(h: Host, c: ClientTurn, reply: Packet, up: seq<Byte>, down: seq<Byte>)
    requires ClientDoes(h, c) && c.command.Puts? && Parse(c.before) == Got(reply, down) && reply.cmd == CMD_ERROR
    ensures c.left == down && c.rc != 0 && Parse(c.sent + up) == Got(RequestPacket(h, c.command), up)
  {
    hide Parse, Encode, PutsRequest;
    RequestFirst(h, c, up);
    assert c.sent[|c.sent|..] + up == up;
  }

  /** The server's offer and last word: the client reads both, and the server exactly the blocks and FILE_END. */
  lemma PutsTaken(h: Host, c: ClientTurn, before: File, word: Packet, up: seq<Byte>, down: seq<Byte>)
    requires ClientDoes(h, c) && c.command.Puts? && Sendable(word)
    requires c.before == Encode(Upload.Offer(h, before, |c.command.f|)) + Encode(word) + down
    ensures c.left == down && (c.rc == 0 <==> IsText(Got(word, down)))
    ensures IsOffer(Parse(c.before)) && Parse(Parse(c.before).rest) == Got(word, down)
    ensures var f := c.command.f;
            var o := |Upload.Kept(before, |f|)|;
            var request := Parse(c.sent + up);
            && request.Got? && request.packet == RequestPacket(h, c.command)
            && Upload.AfterBlocks(request.rest, o, |f|) == up
            && Upload.Accepted(ParseAll(request.rest), o, |f|) == f[o..]
            && Upload.Completes(ParseAll(request.rest), o, |f|)
  {
    hide Encode, EncodeAll, CarriesTo, PutsRequest, Upload.Offer, Parse, OfferPoint, ParseAll;
    hide Upload.Accepted, Upload.EndsWithFileEnd, Upload.AfterBlocks, Upload.Completes;
    var Puts(f, path) := c.command;
    var o := |Upload.Kept(before, |f|)|;
    TwoReplies(Upload.Offer(h, before, |f|), word, down);
    OfferIsRead(h, before, |f|);
    UploadStart(PutsRequest(h, f, Session.NameField(BaseName(path))), c.blocks + [FILE_END_PACKET], up);
    UploadAhead(c.blocks, f, o, up);
  }

  /** What a served upload that goes well amounts to. */
  lemma UploadGoesWell(h: Host, m: Moment, target: string, total: U64, env: Upload.Env, e: Effect)
    requires UploadServed(h, m, target, total, env, e) && e.ok && !e.close && env.reserves && env.maps
    requires total < OFF_T_LIMIT
    ensures var before, ps := Before(m.store, target), ParseAll(m.inbound);
            var kept := Upload.Kept(before, total);
            if |before| > total && !env.resets then
              && e.sent == Encode(Upload.FinalReply(false, env)) && e.left == m.inbound
              && e.store == WithFile(m.store, target, before)
            else
              && e.sent == Encode(Upload.Offer(h, before, total))
                           + Encode(Upload.FinalReply(Upload.Completes(ps, |kept|, total), env))
              && e.left == Upload.AfterBlocks(m.inbound, |kept|, total)
              && e.store == WithFile(m.store, target, kept + Upload.Accepted(ps, |kept|, total))
  {
    hide Encode, Upload.Offer, Upload.AfterBlocks, Upload.Accepted, ParseAll, Upload.EndsWithFileEnd, Link.Fits;
    hide WithFile, Upload.Completes;
    var before := Before(m.store, target);
    var stage := Upload.Reached(h, before, total, m.room, env);
    Link.FitsAll(Upload.Replies(h, before, total, stage, ParseAll(m.inbound), env), m.room);
  }

  lemma Rejoined(f: File, before: File)
    requires Transfer.Resumable(before, f)
    ensures var kept := Upload.Kept(before, |f|); kept + f[|kept|..] == f
  {
  }

  /** Writing back what was there changes nothing, unless it creates the file. */
  lemma WriteBack(s: Store, path: string)
    requires path in s.files
    ensures WithFile(s, path, Before(s, path)) == s
  {
  }

  /** A served upload, from the client's turn and the server's effect. */
  lemma PutsEffect(h: Host, c: ClientTurn, m: Moment, target: string, env: Upload.Env, e: Effect,
                   up: seq<Byte>, down: seq<Byte>)
    requires ClientDoes(h, c) && c.command.Puts?
    requires |c.command.f| < OFF_T_LIMIT && UploadServed(h, m, target, |c.command.f|, env, e)
    requires e.ok && !e.close && env.reserves && env.maps && Upload.ValidEnv(env)
    requires c.before == e.sent + down && Parse(c.sent + up) == Got(RequestPacket(h, c.command), m.inbound)
    ensures e.left == up && c.left == down
    ensures var f, before, first := c.command.f, Before(m.store, target), Parse(c.before);
            var kept := Upload.Kept(before, |f|);
            if |before| <= |f| || env.resets then
              && e.store == WithFile(m.store, target, kept + f[|kept|..]) && c.rc == 0
              && IsOffer(first) && IsText(Parse(first.rest)) && Parse(first.rest).packet.cmd == CMD_ACK
            else first.Got? && first.packet.cmd == CMD_ERROR && c.rc != 0 && e.store == m.store
  {
    hide Parse, Encode, Upload.Offer, Upload.AfterBlocks, Upload.Accepted, ParseAll, UploadServed, ClientDoes;
    hide RequestPacket, WithFile, Upload.Completes;
    DoesValid(h, c);
    var f := c.command.f;
    var before := Before(m.store, target);
    UploadGoesWell(h, m, target, |f|, env, e);
    if |before| > |f| && !env.resets {
      var reply := Upload.FinalReply(false, env);
      ParseEncode(reply, down);
      PutsTurnedDown(h, c, reply, up, down);
      WriteBack(m.store, target);
    } else {
      var word := Upload.FinalReply(Upload.Completes(ParseAll(m.inbound), |Upload.Kept(before, |f|)|, |f|), env);
      PutsTaken(h, c, before, word, up, down);
    }
  }

  lemma PutsInStep(h: Host, c: ClientTurn, t: Turn, up: seq<Byte>, down: seq<Byte>)
    requires Faces(h, c, t, up, down) && c.command.Puts?
    ensures InStep(h, c, t, up, down)
  {
    hide Parse, Encode, ReadU64, ClientDoes, UploadServed, GetsOutcome, Session.NameText, PutsRequest, TargetOf;
    hide Answers, Link.Fits, WithFile, OpensToStore, Resolves, Session.NameField, Found, BaseName;
    DoesValid(h, c);
    RequestFirst(h, c, up);
    var Puts(f, path) := c.command;
    FileAnnounced(h, f, path);
    var m := t.before.(inbound := Parse(t.before.inbound).rest);
    if t.service.Reply? {
      ReplyKind(m.path, t.packet, t.faults, t.service.reply, m.store, t.effect.store);
    }
    assert t.service.PutsServed?;
    if t.service.attempt.TurnedDown? {
      var reply := t.service.attempt.reply;
      OneReply(c, reply, m.room, t.effect.sent, down);
      PutsTurnedDown(h, c, reply, up, down);
    } else {
      var target := TargetOf(m.path, BaseName(path));
      PutsEffect(h, c, m, target, t.faults.puts, t.effect, up, down);
      if Transfer.Resumable(Before(m.store, target), f) {
        Rejoined(f, Before(m.store, target));
      }
    }
  }

  // ---------- downloads ----------

  /** An error is the server's only answer: the client sends no more than its request. */
  lemma GetsTurnedDown(h: Host, c: ClientTurn, reply: Packet, up: seq<Byte>, down: seq<Byte>)
    requires ClientDoes(h, c) && c.command.Gets? && Parse(c.before) == Got(reply, down) && reply.cmd == CMD_ERROR
    ensures c.left == down && c.rc != 0 && c.after == c.command.before
    ensures Parse(c.sent + up) == Got(RequestPacket(h, c.command), up)
  {
    hide Parse, Encode, GetsRequest, PositionBytes;
    RequestFirst(h, c, up);
    assert c.sent[|c.sent|..] + up == up;
  }

  /** Told a size, the client answers with its position, which the server reads as meant. */
  lemma GetsAsked(h: Host, c: ClientTurn, size: nat, name: seq<Byte>, tail: seq<Byte>, up: seq<Byte>)
    requires ClientDoes(h, c) && c.command.Gets? && |name| == NAME_SIZE && size < OFF_T_LIMIT
    requires c.before == Encode(Info(h, name, size)) + tail
    ensures Parse(c.before) == Got(Info(h, name, size), tail) && IsInfo(Parse(c.before))
    ensures var request := Parse(c.sent + up);
            && request.Got? && request.packet == RequestPacket(h, c.command)
            && var answer := Parse(request.rest);
            && GivesPosition(answer) && answer.rest == up
            && ResumePoint(h, answer.packet, size) == |Upload.Kept(c.command.before, size)|
    ensures c.left == AfterData(tail, c.command.space) && |Taken(ParseAll(tail))| <= c.command.space
    ensures c.after == Upload.Kept(c.command.before, size) + Link.Fits(Taken(ParseAll(tail)), c.command.space)
    ensures c.rc == 0 <==> StopsAtEnd(ParseAll(tail))
  {
    hide Encode, Parse, InfoSize, ToPacket, ResumePoint, ParseAll, Taken, GetsRequest, Info, AfterData, IsResume;
    hide Link.Fits, StopsAtEnd;
    var Gets(arg, before, space) := c.command;
    var o := |Upload.Kept(before, size)|;
    var position := ToPacket(h, Transfer.Resume(o));
    ParseEncode(Info(h, name, size), tail);
    InfoIsRead(h, name, size);
    PositionLength(h, o);
    PositionIsRead(h, o, size);
    TwoReplies(GetsRequest(arg), position, up);
    assert c.sent == Encode(GetsRequest(arg)) + Encode(position);
  }

  /** A served download, from the client's turn and the server's effect. */
  lemma GetsEffect(h: Host, c: ClientTurn, m: Moment, f: File, arg: string, e: Effect, up: seq<Byte>, down: seq<Byte>)
    requires ClientDoes(h, c) && c.command.Gets? && DownloadServed(h, m, f, arg, e) && e.ok && !e.close
    requires c.before == e.sent + down && Parse(c.sent + up) == Got(RequestPacket(h, c.command), m.inbound)
    ensures e.left == up && c.left == down && e.store == m.store && c.rc == 0
    ensures var kept := Upload.Kept(c.command.before, |f|); c.after == kept + f[|kept|..]
  {
    hide Encode, EncodeAll, Parse, ToPacket, ResumePoint, ParseAll, Taken, Info, AfterData, Blocks, ClientDoes;
    hide RequestPacket, Link.Fits, IsInfo, Session.NameField, StopsAtEnd;
    var name := Session.NameField(arg);
    var answer := Parse(m.inbound);
    var o := |Upload.Kept(c.command.before, |f|)|;
    Link.FitsAll(DownloadReplies(h, f, name, answer), m.room);
    var blocks := Blocks(f, ResumePoint(h, answer.packet, |f|)) + [FILE_END_PACKET];
    Assoc(Encode(Info(h, name, |f|)), EncodeAll(blocks), down);
    GetsAsked(h, c, |f|, name, EncodeAll(blocks) + down, up);
    BlocksCarry(f, o);
    DownloadAhead(Blocks(f, o), f, o, |f|, down);
    DownloadAhead(Blocks(f, o), f, o, c.command.space, down);
    Link.FitsAll(f[o..], c.command.space);
  }

  /** A directory the client already has as many bytes as announced of. */
  lemma DirectoryEffect(h: Host, c: ClientTurn, m: Moment, size: nat, arg: string, e: Effect,
                        up: seq<Byte>, down: seq<Byte>)
    requires ClientDoes(h, c) && c.command.Gets? && Announced(h, m, size, arg, e) && e.ok && !e.close
    requires c.before == e.sent + down && Parse(c.sent + up) == Got(RequestPacket(h, c.command), m.inbound)
    ensures e.left == up && c.left == down && e.store == m.store && c.rc == 0
    ensures c.after == Upload.Kept(c.command.before, size)
  {
    hide Encode, Parse, ToPacket, ResumePoint, ParseAll, Taken, Info, AfterData, IsResume, ClientDoes, RequestPacket;
    hide Link.Fits, IsInfo, Session.NameField, StopsAtEnd;
    var name := Session.NameField(arg);
    Link.FitsAll(DirectoryReplies(h, size, name, Parse(m.inbound)), m.room);
    Assoc(Encode(Info(h, name, size)), Encode(FILE_END_PACKET), down);
    GetsAsked(h, c, size, name, Encode(FILE_END_PACKET) + down, up);
    EndOnly(c.command.space, down);
    Link.FitsAll([], c.command.space);
    assert Upload.Kept(c.command.before, size) + [] == Upload.Kept(c.command.before, size);
  }

  lemma EndOnly(space: nat, down: seq<Byte>)
    ensures var s := Encode(FILE_END_PACKET) + down;
            AfterData(s, space) == down && Taken(ParseAll(s)) == [] && StopsAtEnd(ParseAll(s))
  {
    ParseEncode(FILE_END_PACKET, down);
    ReceiveTakes(Encode(FILE_END_PACKET) + down);
  }

  lemma GetsInStep(h: Host, c: ClientTurn, t: Turn, up: seq<Byte>, down: seq<Byte>)
    requires Faces(h, c, t, up, down) && c.command.Gets?
    ensures InStep(h, c, t, up, down)
  {
    hide Parse, Encode, ClientDoes, DownloadServed, Announced, PutsOutcome, Session.ArgText, GetsRequest, TargetOf;
    hide Link.Fits, Answers, Session.HasArg, OpensToSend, Resolves, Found;
    DoesValid(h, c);
    RequestFirst(h, c, up);
    NameAsked(c.command.arg);
    var m := t.before.(inbound := Parse(t.before.inbound).rest);
    var Gets(arg, local, _) := c.command;
    match t.service
    case Reply(reply) =>
      ReplyKind(m.path, t.packet, t.faults, reply, m.store, t.effect.store);
      OneReply(c, reply, m.room, t.effect.sent, down);
      GetsTurnedDown(h, c, reply, up, down);
    case GetsServed(TurnedDown(reply)) =>
      OneReply(c, reply, m.room, t.effect.sent, down);
      GetsTurnedDown(h, c, reply, up, down);
    case GetsServed(Served) =>
      var f := m.store.files[TargetOf(m.path, arg)];
      GetsEffect(h, c, m, f, arg, t.effect, up, down);
      if Transfer.Resumable(local, f) {
        Rejoined(f, local);
      }
    case GetsServed(OfDirectory(size)) =>
      DirectoryEffect(h, c, m, size, arg, t.effect, up, down);
    case _ =>
  }

  /** One command, whatever it is. */
  lemma CommandInStep(h: Host, c: ClientTurn, t: Turn, up: seq<Byte>, down: seq<Byte>)
    requires Faces(h, c, t, up, down)
    ensures InStep(h, c, t, up, down)
  {
    hide Faces, InStep;
    match c.command
    case Simple(_, _) => SimpleInStep(h, c, t, up, down);
    case Puts(_, _) => PutsInStep(h, c, t, up, down);
    case Gets(_, _, _) => GetsInStep(h, c, t, up, down);
  }

  // ---------- a list of commands ----------

  /** The client's commands one after the other on one stream. */
  predicate ClientTrace(h: Host, down: seq<Byte>, cs: seq<ClientTurn>, left: seq<Byte>)
    decreases |cs|
  {
    if cs == [] then down == left
    else cs[0].before == down && ClientDoes(h, cs[0]) && ClientTrace(h, cs[0].left, cs[1..], left)
  }

  function ClientSent(cs: seq<ClientTurn>): seq<Byte> {
    if cs == [] then [] else cs[0].sent + ClientSent(cs[1..])
  }

  /** A trace of the server read from its front. */
  ghost predicate Chain(h: Host, first: Moment, turns: seq<Turn>, last: Moment)
    decreases |turns|
  {
    if turns == [] then first == last
    else turns[0].before == first && Happens(h, turns[0]) && Chain(h, After(turns[0]), turns[1..], last)
  }

  function ServerSent(turns: seq<Turn>): seq<Byte> {
    if turns == [] then [] else turns[0].effect.sent + ServerSent(turns[1..])
  }

  lemma TurnFits(h: Host, t: Turn)
    requires Happens(h, t)
    ensures |t.effect.sent| <= t.before.room
  {
  }

  lemma ChainOne(h: Host, t: Turn)
    requires Happens(h, t)
    ensures Chain(h, t.before, [t], After(t)) && ServerSent([t]) == t.effect.sent
  {
    hide Serves, Session.NextPath;
    var one := [t];
    assert one[1..] == [];
    assert ServerSent(one) == t.effect.sent + [];
  }

  lemma ChainStep(h: Host, first: Moment, turns: seq<Turn>, last: Moment)
    requires turns != [] && Chain(h, first, turns, last)
    ensures turns[0].before == first && Happens(h, turns[0]) && Chain(h, After(turns[0]), turns[1..], last)
  {
  }

  lemma ChainCons(h: Host, t: Turn, turns: seq<Turn>, last: Moment)
    requires Happens(h, t) && Chain(h, After(t), turns, last)
    ensures Chain(h, t.before, [t] + turns, last) && ServerSent([t] + turns) == t.effect.sent + ServerSent(turns)
  {
    hide Happens, Session.NextPath;
    assert ([t] + turns)[1..] == turns;
  }

  lemma {:induction false} ChainGrows(h: Host, first: Moment, turns: seq<Turn>, t: Turn)
    requires Chain(h, first, turns, t.before) && Happens(h, t)
    ensures Chain(h, first, turns + [t], After(t))
    ensures ServerSent(turns + [t]) == ServerSent(turns) + t.effect.sent
    decreases |turns|
  {
    hide Happens, After;
    TurnFits(h, t);
    if turns == [] {
      ChainOne(h, t);
      assert turns + [t] == [t];
      assert ServerSent(turns) + t.effect.sent == t.effect.sent;
    } else {
      hide Chain;
      ChainStep(h, first, turns, t.before);
      TurnFits(h, turns[0]);
      ChainGrows(h, After(turns[0]), turns[1..], t);
      ChainCons(h, turns[0], turns[1..] + [t], After(t));
      assert turns + [t] == [turns[0]] + (turns[1..] + [t]);
      Assoc(turns[0].effect.sent, ServerSent(turns[1..]), t.effect.sent);
    }
  }

  lemma {:induction false} TraceIsChain(h: Host, first: Moment, turns: seq<Turn>, last: Moment)
    requires Trace(h, first, turns, last)
    ensures Chain(h, first, turns, last) && ServerSent(turns) == SentBy(turns)
    decreases |turns|
  {
    hide Happens;
    if turns != [] {
      var n := |turns| - 1;
      TraceIsChain(h, first, turns[..n], turns[n].before);
      ChainGrows(h, first, turns[..n], turns[n]);
      assert turns == turns[..n] + [turns[n]];
    }
  }

  /** The server has taken the same commands as the client gave, and each achieved what it is for. */
  ghost predicate Matched(h: Host, cs: seq<ClientTurn>, turns: seq<Turn>) {
    && |cs| == |turns|
    && forall i :: 0 <= i < |cs| ==>
         && ValidCommand(cs[i].command) && Happens(h, turns[i]) && turns[i].packet == RequestPacket(h, cs[i].command)
         && |turns[i].effect.sent| <= turns[i].before.room && Achieves(h, cs[i], turns[i])
  }

  lemma MatchedOn(h: Host, c: ClientTurn, t: Turn, cs: seq<ClientTurn>, turns: seq<Turn>,
                  up: seq<Byte>, down: seq<Byte>)
    requires InStep(h, c, t, up, down) && Matched(h, cs, turns)
    ensures Matched(h, [c] + cs, [t] + turns)
  {
    hide Happens, Achieves, RequestPacket;
    DoesValid(h, c);
    var ds, us := [c] + cs, [t] + turns;
    forall i | 0 <= i < |ds|
      ensures ValidCommand(ds[i].command) && Happens(h, us[i]) && us[i].packet == RequestPacket(h, ds[i].command)
              && |us[i].effect.sent| <= us[i].before.room && Achieves(h, ds[i], us[i])
    {
      if i > 0 {
        assert ds[i] == cs[i - 1] && us[i] == turns[i - 1];
      }
    }
  }

  /** By induction over the commands, from the front. */
  lemma {:induction false} ChainInStep(h: Host, first: Moment, turns: seq<Turn>, last: Moment,
                                       cs: seq<ClientTurn>, left: seq<Byte>)
    requires Chain(h, first, turns, last) && ClientTrace(h, ServerSent(turns), cs, left)
    requires first.inbound == ClientSent(cs) && !Parse(last.inbound).Got?
    requires forall i :: 0 <= i < |turns| ==> GoesWell(turns[i])
    ensures Matched(h, cs, turns) && left == [] && last.inbound == []
    decreases |turns| + |cs|
  {
    hide Happens, ClientDoes, Parse, GoesWell, Achieves, RequestPacket, InStep;
    if cs == [] {
      ParseEmpty();
      if turns != [] {
        TurnHasPacket(h, turns[0]);
      }
    } else {
      RequestFirst(h, cs[0], ClientSent(cs[1..]));
      var t := turns[0];
      FirstGoesWell(turns);
      CommandInStep(h, cs[0], t, ClientSent(cs[1..]), ServerSent(turns[1..]));
      InStepLeaves(h, cs[0], t, ClientSent(cs[1..]), ServerSent(turns[1..]));
      ChainInStep(h, After(t), turns[1..], last, cs[1..], left);
      MatchedOn(h, cs[0], t, cs[1..], turns[1..], ClientSent(cs[1..]), ServerSent(turns[1..]));
      assert cs == [cs[0]] + cs[1..] && turns == [t] + turns[1..];
    }
  }

  lemma InStepLeaves(h: Host, c: ClientTurn, t: Turn, up: seq<Byte>, down: seq<Byte>)
    requires InStep(h, c, t, up, down)
    ensures t.effect.left == up && c.left == down
  {
  }

  lemma FirstGoesWell(turns: seq<Turn>)
    requires turns != [] && forall i :: 0 <= i < |turns| ==> GoesWell(turns[i])
    ensures GoesWell(turns[0]) && forall i :: 0 <= i < |turns[1..]| ==> GoesWell(turns[1..][i])
  {
    hide GoesWell;
    assert forall i :: 0 <= i < |turns[1..]| ==> turns[1..][i] == turns[i + 1];
  }

  lemma TurnHasPacket(h: Host, t: Turn)
    requires Happens(h, t)
    ensures Parse(t.before.inbound).Got?
  {
  }

  /**
   * Whole sessions in step. A client gives a list of commands on a connection over which
   * the server runs its request loop; each reads what the other sends and nothing else.
   * If no turn of the server lost a reply, closed or failed to map an upload, then the
   * server has served exactly the client's commands, in order, neither stream has a byte
   * left over, and every transfer that was served ends with equal files.
   */
  lemma SessionInStep(h: Host, first: Moment, turns: seq<Turn>, last: Moment, cs: seq<ClientTurn>, left: seq<Byte>)
    requires Trace(h, first, turns, last) && Over(turns, last) && !first.close
    requires forall i :: 0 <= i < |turns| ==> GoesWell(turns[i])
    requires ClientTrace(h, SentBy(turns), cs, left) && first.inbound == ClientSent(cs)
    ensures Matched(h, cs, turns) && left == [] && last.inbound == []
  {
    hide Happens, ClientDoes, Parse, Matched;
    TraceIsChain(h, first, turns, last);
    if turns != [] {
      assert GoesWell(turns[|turns| - 1]) && last == After(turns[|turns| - 1]);
    }
    ChainInStep(h, first, turns, last, cs, left);
  }

  const PWD_ACK: Packet := Packet(CMD_ACK, STATUS_OK, Session.Bytes("/") + [0])

  function PwdTurn(room: nat): (t: Turn)
    ensures Sendable(PWD_ACK)
  {
    var faults := Faults({}, {}, {}, {}, {}, {}, Upload.Env(true, true, true, [], []));
    Turn(Moment("/", Store(map[], map[]), Encode(SimpleRequest(CMD_PWD, "")), room, false), faults,
         SimpleRequest(CMD_PWD, ""), Reply(PWD_ACK), Effect(Store(map[], map[]), Encode(PWD_ACK), [], false, true))
  }

  function PwdCommand(): ClientTurn
    requires Sendable(PWD_ACK)
  {
    ClientTurn(Simple(CMD_PWD, ""), Encode(PWD_ACK), [], Encode(SimpleRequest(CMD_PWD, "")), [], [], 0)
  }

  lemma ParseOne(p: Packet)
    requires Sendable(p)
    ensures Parse(Encode(p)) == Got(p, []) && !Parse([]).Got?
  {
    hide Encode;
    ParseEmpty();
    ParseEncode(p, []);
    assert Encode(p) + [] == Encode(p);
  }

  lemma PwdHappens(h: Host, room: nat)
    requires |Encode(PWD_ACK)| <= room
    ensures Happens(h, PwdTurn(room)) && GoesWell(PwdTurn(room))
  {
    ParseOne(SimpleRequest(CMD_PWD, ""));
    hide Parse, Encode, PutsOutcome, GetsOutcome, Session.HasArg, Session.ArgText, Session.NextPath, Link.Fits;
    hide Found, Resolves, TargetOf, Made, Lists, RealPath, Normalize, Canonical;
    Link.FitsAll(Encode(PWD_ACK), room);
  }

  lemma PwdDone(h: Host)
    ensures Sendable(PWD_ACK) && ClientDoes(h, PwdCommand())
  {
    ParseOne(PWD_ACK);
    hide Parse, Encode;
  }

  /** The shortest such session: one pwd at the root. */
  lemma PwdSession(h: Host, room: nat)
    requires |Encode(PWD_ACK)| <= room
    ensures var t, c := PwdTurn(room), PwdCommand();
            && Happens(h, t) && Trace(h, t.before, [t], After(t)) && Over([t], After(t)) && GoesWell(t)
            && ClientTrace(h, SentBy([t]), [c], []) && ClientSent([c]) == t.before.inbound
  {
    PwdHappens(h, room);
    PwdDone(h);
    ParseOne(PWD_ACK);
    hide Parse, Encode, Happens, GoesWell, ClientDoes, Session.NextPath;
    var t, c := PwdTurn(room), PwdCommand();
    TurnFits(h, t);
    TraceStarts(h, t.before);
    TraceGrows(h, t.before, [], t);
    assert [] + [t] == [t];
    assert [c][1..] == [] && ClientSent([c]) == c.sent + [] == c.sent;
    assert SentBy([t]) == [] + t.effect.sent == t.effect.sent;
  }
}
