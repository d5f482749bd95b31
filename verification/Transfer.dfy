// The two halves of the upload and download protocol and their composition over a
// pair of channels, across any number of interrupted connections.

module Transfer {
  import Endian
  import Framing
  import opened Files

  datatype Msg =
    | Command(cmd: Endian.U32, arg: seq<Endian.Byte>)   // pwd, cd, ls, rm, mkdir
    | PutsReq(name: seq<Endian.Byte>, total: nat)
    | PutsResp(offset: nat)
    | GetsReq(name: seq<Endian.Byte>)
    | GetsResp(name: seq<Endian.Byte>, total: nat)
    | Resume(offset: nat)
    | Data(block: seq<Endian.Byte>)
    | End
    | Ack(text: seq<Endian.Byte>)
    | Error(status: Endian.U32, text: seq<Endian.Byte>)
    | Garbled(cmd: Endian.U32)                   // anything the handlers cannot interpret

  /** How the client's last command ended. */
  datatype Outcome =
    | Fresh
    | Replied
    | Rejected
    | Uploaded
    | Downloaded(announced: nat, size: nat)

  datatype Client =
    | Idle(last: Outcome)
    | AwaitText
    | AwaitPutsResp
    | Sending(offset: nat)
    | AwaitAck
    | AwaitInfo
    | Receiving(total: nat, size: nat)
    | Stopped

  datatype Server =
    | Ready
    | Storing(offset: nat, total: nat)
    | AwaitResume(total: nat)
    | Streaming(offset: nat, total: nat)
    | Closed

  /**
   * Everything but the channels. `src` is uploaded to `dst`, `origin` is downloaded
   * to `copy`; `src` and `origin` are never changed. `cut` means that nothing more
   * will enter either channel.
   */
  datatype Core = Core(client: Client, server: Server, cut: bool, src: File, dst: File, origin: File, copy: File)

  datatype Reaction = Reaction(core: Core, out: seq<Msg>)

  // ---------- server half: handle_request, handle_puts, handle_gets ----------

  /** What the handlers' surroundings decide: does the path resolve and open, and the text of replies. */
  datatype Choice = Choice(accept: bool, name: seq<Endian.Byte>, reply: Msg, done: Msg, refusal: Msg)

  predicate ValidChoice(c: Choice) {
    (c.reply.Ack? || c.reply.Error?) && c.done.Ack? && c.refusal.Error?
  }

  /** The worker closes the socket when the handler returns. */
  function Hangup(c: Core): Core {
    c.(server := Closed, cut := true)
  }

  /** A reply that cannot be sent makes dispatch_command fail, which ends the handler. */
  function Answered(c: Core, sent: bool): Core {
    if sent then c.(server := Ready) else Hangup(c)
  }

  predicate ServerReceiving(s: Server) {
    s.Ready? || s.Storing? || s.AwaitResume?
  }

  function ServerReceives(c: Core, m: Msg, ch: Choice, sent: bool): (r: Reaction)
    requires ServerReceiving(c.server)
    requires c.server.Storing? ==> c.server.total == |c.dst|
  {
    match c.server
    case Ready =>
      (match m
       case Command(_, _) => Reaction(Answered(c, sent), [ch.reply])
       case PutsReq(_, total) =>
         if !ch.accept then Reaction(Answered(c, sent), [ch.refusal])
         else
           var kept := if |c.dst| > total then [] else c.dst;
           if !sent then Reaction(Hangup(c.(dst := kept)), [])
           else Reaction(c.(dst := Resize(kept, total), server := Storing(|kept|, total)), [PutsResp(|kept|)])
       case GetsReq(_) =>
         if !ch.accept then Reaction(Answered(c, sent), [ch.refusal])
         else if !sent then Reaction(Hangup(c), [])
         else Reaction(c.(server := AwaitResume(|c.origin|)), [GetsResp(ch.name, |c.origin|)])
       case Garbled(cmd) =>
         if cmd == Framing.CMD_PUTS_REQ then Reaction(Answered(c, sent), [ch.refusal])
         else Reaction(Hangup(c), [ch.refusal])
       case _ => Reaction(Hangup(c), [ch.refusal]))
    case Storing(o, total) =>
      (match m
       case End =>
         if o == total then Reaction(Answered(c, sent), [ch.done])
         else Reaction(Answered(c.(dst := Resize(c.dst, o)), sent), [ch.refusal])
       case Data(b) =>
         if o + |b| > total then Reaction(Hangup(c.(dst := Resize(c.dst, o))), [ch.refusal])
         else Reaction(c.(dst := Patch(c.dst, o, b), server := Storing(o + |b|, total)), [])
       case _ => Reaction(Hangup(c.(dst := Resize(c.dst, o))), [ch.refusal]))
    case AwaitResume(total) =>
      (match m
       case Resume(k) => Reaction(c.(server := Streaming(if k > total then 0 else k, total)), [])
       case _ => Reaction(Hangup(c), []))
  }

  /**
   * FILE_END is answered by the sizes alone, whatever state the rest is in: the file is
   * cut to what arrived, and that is acknowledged if and only if it is all.
   */
  lemma EndAnswer(c: Core, ch: Choice, sent: bool)
    requires c.server.Storing? && c.server.offset <= c.server.total == |c.dst| && ValidChoice(ch)
    ensures var r := ServerReceives(c, End, ch, sent);
            && |r.core.dst| == c.server.offset && r.core.dst == c.dst[..c.server.offset]
            && (r.out == [ch.done] <==> |r.core.dst| == c.server.total)
            && (r.out == [ch.done] || r.out == [ch.refusal])
  {
  }

  /** recv_packet fails: the upload loop truncates to what it received, then the handler ends. */
  function ServerLoses(c: Core): Core {
    if c.server.Storing? then Hangup(c.(dst := Resize(c.dst, c.server.offset))) else Hangup(c)
  }

  /** One turn of the download loop: the next block of at most FILE_BLOCK_SIZE bytes, or FILE_END. */
  function ServerMoves(c: Core): Reaction
    requires c.server.Streaming? && c.server.total <= |c.origin|
  {
    var Streaming(o, total) := c.server;
    if o < total then
      var n := if total - o > Framing.FILE_BLOCK_SIZE then Framing.FILE_BLOCK_SIZE else total - o;
      Reaction(c.(server := Streaming(o + n, total)), [Data(c.origin[o..o + n])])
    else
      Reaction(c.(server := Ready), [End])
  }

  // ---------- client half: process_command, handle_puts, handle_gets ----------

  predicate ClientReceiving(c: Client) {
    c.AwaitText? || c.AwaitPutsResp? || c.AwaitAck? || c.AwaitInfo? || c.Receiving?
  }

  function ClientReceives(c: Core, m: Msg, sent: bool): Reaction
    requires ClientReceiving(c.client)
  {
    match c.client
    case AwaitText =>
      if m.Ack? || m.Error? then Reaction(c.(client := Idle(Replied)), []) else Reaction(c.(client := Stopped), [])
    case AwaitPutsResp =>
      (match m
       case Error(_, _) => Reaction(c.(client := Idle(Rejected)), [])
       case PutsResp(r) => Reaction(c.(client := Sending(if r > |c.src| then 0 else r)), [])
       case _ => Reaction(c.(client := Stopped), []))
    case AwaitAck =>
      (match m
       case Ack(_) => Reaction(c.(client := Idle(Uploaded)), [])
       case Error(_, _) => Reaction(c.(client := Idle(Rejected)), [])
       case _ => Reaction(c.(client := Stopped), []))
    case AwaitInfo =>
      (match m
       case Error(_, _) => Reaction(c.(client := Idle(Rejected)), [])
       case GetsResp(_, total) =>
         var kept := if |c.copy| > total then [] else c.copy;
         if !sent then Reaction(c.(client := Stopped, copy := kept), [])
         else Reaction(c.(client := Receiving(total, |kept|), copy := kept), [Resume(|kept|)])
       case _ => Reaction(c.(client := Stopped), []))
    case Receiving(total, size) =>
      (match m
       case End => Reaction(c.(client := Idle(Downloaded(total, size))), [])
       case Error(_, _) => Reaction(c.(client := Idle(Rejected)), [])
       case Data(b) => Reaction(c.(client := Receiving(total, size + |b|), copy := c.copy + b), [])
       case _ => Reaction(c.(client := Stopped), []))
  }

  /** What the client sends of its own accord: a request, a block read from the file, FILE_END. */
  datatype ClientMove = Begin(request: Msg) | Block(count: nat) | Finish

  predicate IsRequest(m: Msg, src: File) {
    || (m.Command? && Framing.CMD_PWD <= m.cmd <= Framing.CMD_MKDIR)
    || (m.PutsReq? && m.total == |src|)
    || m.GetsReq?
  }

  predicate ClientCan(c: Core, mv: ClientMove) {
    match mv
    case Begin(m) => c.client.Idle? && IsRequest(m, c.src)
    case Block(n) => c.client.Sending? && 1 <= n <= Framing.FILE_BLOCK_SIZE && c.client.offset + n <= |c.src|
    case Finish => c.client.Sending? && c.client.offset >= |c.src|
  }

  function ClientMoves(c: Core, mv: ClientMove): Reaction
    requires ClientCan(c, mv)
  {
    match mv
    case Begin(m) =>
      var next := if m.PutsReq? then AwaitPutsResp else if m.GetsReq? then AwaitInfo else AwaitText;
      Reaction(c.(client := next), [m])
    case Block(n) =>
      var o := c.client.offset;
      Reaction(c.(client := Sending(o + n)), [Data(c.src[o..o + n])])
    case Finish => Reaction(c.(client := AwaitAck), [End])
  }

  /** The client stops, perhaps after writing only part of a received block. */
  function ClientStops(c: Core, written: seq<Endian.Byte>): Core {
    c.(client := Stopped, cut := true, copy := c.copy + written)
  }

  // ---------- the composed system ----------

  datatype State = State(core: Core, up: seq<Msg>, down: seq<Msg>)

  datatype Action =
    | ClientSend(move: ClientMove, sent: bool)
    | ClientRecv(sent: bool)
    | ClientLose
    | ClientStop(written: nat)
    | ServerSend(sent: bool)
    | ServerRecv(choice: Choice, sent: bool)
    | ServerLose
    | Cut(keepUp: nat, keepDown: nat)
    | Reconnect

  /** The core's part of an action's guard; m is the message at the head of the channel it reads. */
  predicate CoreEnabled(c: Core, a: Action) {
    match a
    case ClientSend(mv, sent) => ClientCan(c, mv) && (sent || c.cut)
    case ClientRecv(sent) => ClientReceiving(c.client) && (sent || c.cut)
    case ClientLose => ClientReceiving(c.client) && c.cut
    case ClientStop(_) => true
    case ServerSend(sent) => c.server.Streaming? && c.server.total <= |c.origin| && (sent || c.cut)
    case ServerRecv(ch, sent) =>
      && ServerReceiving(c.server)
      && (c.server.Storing? ==> c.server.total == |c.dst|)
      && ValidChoice(ch) && (sent || c.cut)
    case ServerLose => ServerReceiving(c.server) && c.cut
    case Cut(_, _) => true
    case Reconnect => c.cut && c.server.Closed? && (c.client.Idle? || c.client.Stopped?)
  }

  predicate Enabled(s: State, a: Action) {
    && CoreEnabled(s.core, a)
    && match a
       case ClientSend(_, _) => true
       case ClientRecv(_) => s.down != []
       case ClientLose => s.down == []
       case ClientStop(n) => PartialBlock(s, n)
       case ServerSend(_) => true
       case ServerRecv(_, _) => s.up != []
       case ServerLose => s.up == []
       case Cut(i, j) => i <= |s.up| && j <= |s.down|
       case Reconnect => true
  }

  /** write_n may fail after any strict part of the block being written. */
  predicate PartialBlock(s: State, n: nat) {
    n > 0 ==> s.core.client.Receiving? && s.down != [] && s.down[0].Data? && n < |s.down[0].block|
  }

  function Written(s: State, n: nat): seq<Endian.Byte>
    requires PartialBlock(s, n)
  {
    if n == 0 then [] else s.down[0].block[..n]
  }

  function ClientGone(c: Core, sent: bool): Core {
    if sent then c else c.(client := Stopped)
  }

  function ServerGone(c: Core, sent: bool): Core {
    if sent then c else Hangup(c)
  }

  function NewConnection(c: Core): Core {
    c.(client := Idle(Fresh), server := Ready, cut := false)
  }

  function Do(s: State, a: Action): State
    requires Enabled(s, a)
  {
    var c := s.core;
    match a
    case ClientSend(mv, sent) =>
      var r := ClientMoves(c, mv);
      State(ClientGone(r.core, sent), if c.cut then s.up else s.up + r.out, s.down)
    case ClientRecv(sent) =>
      var r := ClientReceives(c, s.down[0], sent);
      State(r.core, if c.cut then s.up else s.up + r.out, s.down[1..])
    case ClientLose => s.(core := c.(client := Stopped))
    case ClientStop(n) => s.(core := ClientStops(c, Written(s, n)))
    case ServerSend(sent) =>
      var r := ServerMoves(c);
      State(ServerGone(r.core, sent), s.up, if c.cut then s.down else s.down + r.out)
    case ServerRecv(ch, sent) =>
      var r := ServerReceives(c, s.up[0], ch, sent);
      State(r.core, s.up[1..], if c.cut then s.down else s.down + r.out)
    case ServerLose => s.(core := ServerLoses(c))
    case Cut(i, j) => State(c.(cut := true), s.up[..i], s.down[..j])
    case Reconnect => State(NewConnection(c), [], [])
  }

  /** A new server, a new client, and files that are prefixes of, or longer than, what they copy. */
  predicate Init(s: State) {
    && s.core.client == Idle(Fresh) && s.core.server == Ready && !s.core.cut
    && s.up == [] && s.down == []
    && Resumable(s.core.dst, s.core.src) && Resumable(s.core.copy, s.core.origin)
  }

  predicate Resumable(f: File, original: File) {
    f <= original || |f| > |original|
  }

  // ---------- invariant ----------

  /** The messages continue `f` from offset o, and FILE_END comes exactly at its end. */
  predicate Feeds(ms: seq<Msg>, f: File, o: nat) {
    ms == [] ||
    match ms[0]
    case Data(b) => o + |b| <= |f| && b == f[o..o + |b|] && Feeds(ms[1..], f, o + |b|)
    case End => o == |f| && |ms| == 1
    case _ => false
  }

  /** The offset the receiver will be at once it has taken every block. */
  function Reach(ms: seq<Msg>, o: nat): nat {
    if ms == [] then o
    else Reach(ms[1..], if ms[0].Data? then o + |ms[0].block| else o)
  }

  predicate Ended(ms: seq<Msg>) {
    ms != [] && ms[|ms| - 1] == End
  }

  predicate Quiet(s: State) {
    s.up == [] && (s.core.server.Ready? || s.core.server.Closed?)
  }

  predicate FilesOk(c: Core) {
    && (match c.server
        case Storing(o, t) => t == |c.src| == |c.dst| && o <= t && c.dst[..o] == c.src[..o]
        case _ => Resumable(c.dst, c.src))
    && (match c.server
        case AwaitResume(t) => t == |c.origin|
        case Streaming(o, t) => t == |c.origin| && o <= t
        case Closed => c.cut
        case _ => true)
    && (match c.client
        case Receiving(t, z) => t == |c.origin| && z == |c.copy| && c.copy <= c.origin
        case _ => Resumable(c.copy, c.origin))
    && (match c.client
        case Sending(o) => o <= |c.src|
        case Idle(Uploaded) => c.dst == c.src
        case Idle(Downloaded(t, z)) => t == z == |c.origin| && c.copy == c.origin
        case Stopped => c.cut
        case _ => true)
  }

  predicate UpOk(s: State) {
    match s.core.server
    case Ready => s.up == [] || (|s.up| == 1 && IsRequest(s.up[0], s.core.src))
    case Storing(o, _) => Feeds(s.up, s.core.src, o)
    case AwaitResume(_) => s.up == [] || (|s.up| == 1 && s.up[0].Resume?)
    case Streaming(_, _) => s.up == []
    case Closed => true
  }

  predicate DownOk(s: State) {
    match s.core.client
    case Idle(_) => s.down == [] && Quiet(s)
    case AwaitText => s.down != [] ==> |s.down| == 1 && (s.down[0].Ack? || s.down[0].Error?) && Quiet(s)
    case AwaitPutsResp =>
      s.down != [] ==>
        |s.down| == 1 && ((s.down[0].PutsResp? && s.down[0].offset <= |s.core.src|) || (s.down[0].Error? && Quiet(s)))
    case Sending(_) => s.down == []
    case AwaitAck => s.down != [] ==> |s.down| == 1 && s.down[0].Ack? && Quiet(s) && s.core.dst == s.core.src
    case AwaitInfo =>
      s.down != [] ==>
        |s.down| == 1 && ((s.down[0].GetsResp? && s.down[0].total == |s.core.origin|) || (s.down[0].Error? && Quiet(s)))
    case Receiving(_, z) => Feeds(s.down, s.core.origin, z) && (Ended(s.down) ==> Quiet(s))
    case Stopped => true
  }

  /** While the connection is whole, client, server and channels agree on where they are. */
  predicate Phase(s: State) {
    match (s.core.client, s.core.server)
    case (Idle(_), Ready) => s.up == [] && s.down == []
    case (AwaitText, Ready) => |s.up| + |s.down| == 1 && (s.up != [] ==> s.up[0].Command?)
    case (AwaitPutsResp, Ready) =>
      |s.up| + |s.down| == 1 && (s.up != [] ==> s.up[0].PutsReq?) && (s.down != [] ==> s.down[0].Error?)
    case (AwaitPutsResp, Storing(o, _)) => s.up == [] && s.down == [PutsResp(o)]
    case (Sending(k), Storing(o, _)) => !Ended(s.up) && Reach(s.up, o) == k
    case (AwaitAck, Storing(_, _)) => Ended(s.up) && s.down == []
    case (AwaitAck, Ready) => s.up == [] && |s.down| == 1
    case (AwaitInfo, Ready) =>
      |s.up| + |s.down| == 1 && (s.up != [] ==> s.up[0].GetsReq?) && (s.down != [] ==> s.down[0].Error?)
    case (AwaitInfo, AwaitResume(_)) => s.up == [] && |s.down| == 1 && s.down[0].GetsResp?
    case (Receiving(_, z), AwaitResume(_)) => s.up == [Resume(z)] && s.down == []
    case (Receiving(_, z), Streaming(o, _)) => !Ended(s.down) && Reach(s.down, z) == o
    case (Receiving(_, _), Ready) => s.up == [] && Ended(s.down)
    case _ => false
  }

  predicate Inv(s: State) {
    FilesOk(s.core) && UpOk(s) && DownOk(s) && (!s.core.cut ==> Phase(s))
  }

  // ---------- chains of blocks ----------

  lemma {:induction false} FeedsSnoc(ms: seq<Msg>, f: File, o: nat, m: Msg)
    requires Feeds(ms, f, o) && !Ended(ms)
    requires Feeds([m], f, Reach(ms, o))
    ensures Feeds(ms + [m], f, o)
    ensures Reach(ms + [m], o) == if m.Data? then Reach(ms, o) + |m.block| else Reach(ms, o)
  {
    if ms == [] {
      assert ms + [m] == [m];
    } else {
      assert ms[0].Data?;
      assert (ms + [m])[1..] == ms[1..] + [m];
      FeedsSnoc(ms[1..], f, o + |ms[0].block|, m);
    }
  }

  lemma {:induction false} FeedsPrefix(ms: seq<Msg>, f: File, o: nat, k: nat)
    requires Feeds(ms, f, o) && k <= |ms|
    ensures Feeds(ms[..k], f, o)
    ensures Ended(ms[..k]) ==> Ended(ms)
  {
    if k > 0 && ms[0].Data? {
      assert ms[..k][1..] == ms[1..][..k - 1];
      FeedsPrefix(ms[1..], f, o + |ms[0].block|, k - 1);
    }
  }

  lemma FeedsHead(ms: seq<Msg>, f: File, o: nat)
    requires Feeds(ms, f, o) && ms != []
    ensures ms[0].Data? || (ms[0] == End && o == |f| && ms == [End])
    ensures ms[0].Data? ==>
              var b := ms[0].block;
              && o + |b| <= |f| && f[..o + |b|] == f[..o] + b
              && Feeds(ms[1..], f, o + |b|)
              && Reach(ms, o) == Reach(ms[1..], o + |b|)
              && (Ended(ms[1..]) <==> Ended(ms))
  {
  }

  lemma InitHolds(s: State)
    requires Init(s)
    ensures Inv(s)
  {
  }

  // ---------- every step keeps the invariant ----------

  lemma BeginKeeps(s: State, m: Msg, sent: bool)
    requires Inv(s) && Enabled(s, ClientSend(Begin(m), sent))
    ensures Inv(Do(s, ClientSend(Begin(m), sent)))
  {
  }

  lemma BlockKeeps(s: State, n: nat, sent: bool)
    requires Inv(s) && Enabled(s, ClientSend(Block(n), sent))
    ensures Inv(Do(s, ClientSend(Block(n), sent)))
  {
    var c := s.core;
    var o := c.client.offset;
    if !c.cut {
      FeedsSnoc(s.up, c.src, c.server.offset, Data(c.src[o..o + n]));
    }
  }

  lemma FinishKeeps(s: State, sent: bool)
    requires Inv(s) && Enabled(s, ClientSend(Finish, sent))
    ensures Inv(Do(s, ClientSend(Finish, sent)))
  {
    if !s.core.cut {
      FeedsSnoc(s.up, s.core.src, s.core.server.offset, End);
    }
  }

  lemma TextKeeps(s: State, sent: bool)
    requires Inv(s) && Enabled(s, ClientRecv(sent)) && s.core.client.AwaitText?
    ensures Inv(Do(s, ClientRecv(sent)))
  {
  }

  lemma OfferKeeps(s: State, sent: bool)
    requires Inv(s) && Enabled(s, ClientRecv(sent)) && s.core.client.AwaitPutsResp?
    ensures Inv(Do(s, ClientRecv(sent)))
  {
  }

  lemma AckKeeps(s: State, sent: bool)
    requires Inv(s) && Enabled(s, ClientRecv(sent)) && s.core.client.AwaitAck?
    ensures Inv(Do(s, ClientRecv(sent)))
  {
  }

  lemma InfoKeeps(s: State, sent: bool)
    requires Inv(s) && Enabled(s, ClientRecv(sent)) && s.core.client.AwaitInfo?
    ensures Inv(Do(s, ClientRecv(sent)))
  {
  }

  lemma BlockReceivedKeeps(s: State, sent: bool)
    requires Inv(s) && Enabled(s, ClientRecv(sent)) && s.core.client.Receiving?
    ensures Inv(Do(s, ClientRecv(sent)))
  {
    FeedsHead(s.down, s.core.origin, s.core.client.size);
  }

  lemma ClientStopKeeps(s: State, a: Action)
    requires Inv(s) && Enabled(s, a) && (a.ClientStop? || a.ClientLose?)
    ensures Inv(Do(s, a))
  {
  }

  lemma StreamBlockKeeps(s: State, sent: bool)
    requires Inv(s) && Enabled(s, ServerSend(sent)) && s.core.server.offset < s.core.server.total
    ensures Inv(Do(s, ServerSend(sent)))
  {
    if !s.core.cut {
      FeedsSnoc(s.down, s.core.origin, s.core.client.size, ServerMoves(s.core).out[0]);
    }
  }

  lemma StreamEndKeeps(s: State, sent: bool)
    requires Inv(s) && Enabled(s, ServerSend(sent)) && s.core.server.offset >= s.core.server.total
    ensures Inv(Do(s, ServerSend(sent)))
  {
    if !s.core.cut {
      FeedsSnoc(s.down, s.core.origin, s.core.client.size, End);
    }
  }

  lemma CommandKeeps(s: State, ch: Choice, sent: bool)
    requires Inv(s) && Enabled(s, ServerRecv(ch, sent)) && s.core.server.Ready? && s.up[0].Command?
    ensures Inv(Do(s, ServerRecv(ch, sent)))
  {
  }

  lemma PutsReqKeeps(s: State, ch: Choice, sent: bool)
    requires Inv(s) && Enabled(s, ServerRecv(ch, sent)) && s.core.server.Ready? && s.up[0].PutsReq?
    ensures Inv(Do(s, ServerRecv(ch, sent)))
  {
  }

  lemma GetsReqKeeps(s: State, ch: Choice, sent: bool)
    requires Inv(s) && Enabled(s, ServerRecv(ch, sent)) && s.core.server.Ready? && s.up[0].GetsReq?
    ensures Inv(Do(s, ServerRecv(ch, sent)))
  {
  }

  lemma StoreBlockKeeps(s: State, ch: Choice, sent: bool)
    requires Inv(s) && Enabled(s, ServerRecv(ch, sent)) && s.core.server.Storing? && s.up[0].Data?
    ensures Inv(Do(s, ServerRecv(ch, sent)))
  {
    hide IsRequest, Feeds, Reach;
    FeedsHead(s.up, s.core.src, s.core.server.offset);
  }

  lemma StoreEndKeeps(s: State, ch: Choice, sent: bool)
    requires Inv(s) && Enabled(s, ServerRecv(ch, sent)) && s.core.server.Storing? && !s.up[0].Data?
    ensures Inv(Do(s, ServerRecv(ch, sent)))
  {
    FeedsHead(s.up, s.core.src, s.core.server.offset);
  }

  lemma StoreKeeps(s: State, ch: Choice, sent: bool)
    requires Inv(s) && Enabled(s, ServerRecv(ch, sent)) && s.core.server.Storing?
    ensures Inv(Do(s, ServerRecv(ch, sent)))
  {
    if s.up[0].Data? {
      StoreBlockKeeps(s, ch, sent);
    } else {
      StoreEndKeeps(s, ch, sent);
    }
  }

  lemma ResumeKeeps(s: State, ch: Choice, sent: bool)
    requires Inv(s) && Enabled(s, ServerRecv(ch, sent)) && s.core.server.AwaitResume?
    ensures Inv(Do(s, ServerRecv(ch, sent)))
  {
  }

  lemma CutKeeps(s: State, i: nat, j: nat)
    requires Inv(s) && Enabled(s, Cut(i, j))
    ensures Inv(Do(s, Cut(i, j)))
  {
    if s.core.server.Storing? {
      FeedsPrefix(s.up, s.core.src, s.core.server.offset, i);
    }
    if s.core.client.Receiving? {
      FeedsPrefix(s.down, s.core.origin, s.core.client.size, j);
    }
  }

  lemma LoseKeeps(s: State, a: Action)
    requires Inv(s) && Enabled(s, a) && (a.ServerLose? || a.Reconnect?)
    ensures Inv(Do(s, a))
  {
  }

  lemma ClientRecvKeeps(s: State, sent: bool)
    requires Inv(s) && Enabled(s, ClientRecv(sent))
    ensures Inv(Do(s, ClientRecv(sent)))
  {
    match s.core.client
    case Receiving(_, _) => BlockReceivedKeeps(s, sent);
    case AwaitInfo => InfoKeeps(s, sent);
    case AwaitText => TextKeeps(s, sent);
    case AwaitPutsResp => OfferKeeps(s, sent);
    case AwaitAck => AckKeeps(s, sent);
  }

  lemma ServerRecvKeeps(s: State, ch: Choice, sent: bool)
    requires Inv(s) && Enabled(s, ServerRecv(ch, sent))
    ensures Inv(Do(s, ServerRecv(ch, sent)))
  {
    match s.core.server
    case Ready =>
      if s.up[0].Command? {
        CommandKeeps(s, ch, sent);
      } else if s.up[0].PutsReq? {
        PutsReqKeeps(s, ch, sent);
      } else {
        GetsReqKeeps(s, ch, sent);
      }
    case Storing(_, _) => StoreKeeps(s, ch, sent);
    case AwaitResume(_) => ResumeKeeps(s, ch, sent);
  }

  lemma StepKeepsInv(s: State, a: Action)
    requires Inv(s) && Enabled(s, a)
    ensures Inv(Do(s, a))
  {
    match a
    case ClientSend(Begin(m), sent) => BeginKeeps(s, m, sent);
    case ClientSend(Block(n), sent) => BlockKeeps(s, n, sent);
    case ClientSend(Finish, sent) => FinishKeeps(s, sent);
    case ClientRecv(sent) => ClientRecvKeeps(s, sent);
    case ClientLose => ClientStopKeeps(s, a);
    case ClientStop(_) => ClientStopKeeps(s, a);
    case ServerSend(sent) =>
      if s.core.server.offset < s.core.server.total {
        StreamBlockKeeps(s, sent);
      } else {
        StreamEndKeeps(s, sent);
      }
    case ServerRecv(ch, sent) => ServerRecvKeeps(s, ch, sent);
    case Cut(i, j) => CutKeeps(s, i, j);
    case _ => LoseKeeps(s, a);
  }
}
