// The composed transfer system over raw byte streams: messages are encoded when sent,
// parsed when received, and the connection may be cut after any byte of either stream.
// It refines the message-level system, so what that system keeps holds of every run.

module Wire {
  import opened Endian
  import opened Framing
  import Files
  import opened Messages
  import opened Transfer
  import opened Progress

  datatype Net = Net(core: Core, up: seq<Byte>, down: seq<Byte>)

  /** What send_packet puts on the stream; a message that does not fit is refused. */
  function Put(h: Host, ms: seq<Msg>): seq<Byte> {
    if AllEncodable(ms) then EncodeAll(ToPackets(h, ms)) else []
  }

  function Head(h: Host, s: seq<Byte>): Msg
    requires Parse(s).Got?
  {
    FromPacket(h, Parse(s).packet)
  }

  function Received(s: seq<Byte>): seq<Byte>
    requires Parse(s).Got?
  {
    Parse(s).rest
  }

  /** recv_packet fails on a bad header, and on an incomplete packet once nothing more can come. */
  predicate RecvFails(s: seq<Byte>, cut: bool) {
    Parse(s) == Malformed || (Parse(s) == NeedMore && cut)
  }

  predicate NetEnabled(h: Host, w: Net, a: Action) {
    var c := w.core;
    match a
    case ClientSend(mv, sent) => CoreEnabled(c, a) && (mv.Begin? ==> Encodable(mv.request))
    case ClientRecv(sent) => CoreEnabled(c, a) && Parse(w.down).Got?
    case ClientLose => ClientReceiving(c.client) && RecvFails(w.down, c.cut)
    case ClientStop(n) =>
      n > 0 ==> c.client.Receiving? && Parse(w.down).Got? && Head(h, w.down).Data? && n < |Head(h, w.down).block|
    case ServerSend(sent) => CoreEnabled(c, a)
    case ServerRecv(ch, sent) =>
      && CoreEnabled(c, a) && Parse(w.up).Got?
      && Encodable(ch.reply) && Encodable(ch.done) && Encodable(ch.refusal) && |ch.name| == NAME_SIZE
    case ServerLose => ServerReceiving(c.server) && RecvFails(w.up, c.cut)
    case Cut(i, j) => i <= |w.up| && j <= |w.down|
    case Reconnect => CoreEnabled(c, a)
  }

  function NetDo(h: Host, w: Net, a: Action): Net
    requires NetEnabled(h, w, a)
  {
    var c := w.core;
    match a
    case ClientSend(mv, sent) =>
      var r := ClientMoves(c, mv);
      Net(ClientGone(r.core, sent), if c.cut then w.up else w.up + Put(h, r.out), w.down)
    case ClientRecv(sent) =>
      var r := ClientReceives(c, Head(h, w.down), sent);
      Net(r.core, if c.cut then w.up else w.up + Put(h, r.out), Received(w.down))
    case ClientLose => w.(core := c.(client := Stopped))
    case ClientStop(n) =>
      w.(core := ClientStops(c, if n == 0 then [] else Head(h, w.down).block[..n]))
    case ServerSend(sent) =>
      var r := ServerMoves(c);
      Net(ServerGone(r.core, sent), w.up, if c.cut then w.down else w.down + Put(h, r.out))
    case ServerRecv(ch, sent) =>
      var r := ServerReceives(c, Head(h, w.up), ch, sent);
      Net(r.core, Received(w.up), if c.cut then w.down else w.down + Put(h, r.out))
    case ServerLose => w.(core := ServerLoses(c))
    case Cut(i, j) => Net(c.(cut := true), w.up[..i], w.down[..j])
    case Reconnect => Net(NewConnection(c), [], [])
  }

  // ---------- abstraction ----------

  function Msgs(h: Host, s: seq<Byte>): seq<Msg> {
    FromPackets(h, ParseAll(s))
  }

  function Abs(h: Host, w: Net): State {
    State(w.core, Msgs(h, w.up), Msgs(h, w.down))
  }

  function AbsAction(h: Host, w: Net, a: Action): Action {
    match a
    case Cut(i, j) =>
      if i <= |w.up| && j <= |w.down| then Cut(|Msgs(h, w.up[..i])|, |Msgs(h, w.down[..j])|) else a
    case _ => a
  }

  /** Whole packets, followed after a cut by at most the beginning of one more. */
  predicate Framed(s: seq<Byte>, cut: bool) {
    Parse(Leftover(s)) == NeedMore && (!cut ==> Leftover(s) == [])
  }

  predicate NetInv(h: Host, w: Net) {
    && Inv(Abs(h, w))
    && Framed(w.up, w.core.cut) && Framed(w.down, w.core.cut)
    && |w.core.src| < Files.OFF_T_LIMIT && |w.core.origin| < Files.OFF_T_LIMIT
  }

  lemma SendRefines(h: Host, s: seq<Byte>, ms: seq<Msg>)
    requires Framed(s, false) && AllEncodable(ms)
    ensures Msgs(h, s + Put(h, ms)) == Msgs(h, s) + ms
    ensures Framed(s + Put(h, ms), false)
  {
    SendAppends(s, ToPackets(h, ms));
    FromPacketsConcat(h, ParseAll(s), ToPackets(h, ms));
    MessagesRoundTrip(h, ms);
    ParseEmpty();
  }

  lemma RecvRefines(h: Host, s: seq<Byte>, cut: bool)
    requires Framed(s, cut)
    ensures Parse(s) != Malformed
    ensures Parse(s).Got? <==> Msgs(h, s) != []
    ensures Parse(s).Got? ==>
              && Head(h, s) == Msgs(h, s)[0] && Msgs(h, Received(s)) == Msgs(h, s)[1..]
              && Framed(Received(s), cut)
  {
    ReceiveTakes(s);
    if Parse(s).Got? {
      FromPacketsConcat(h, [Parse(s).packet], ParseAll(Received(s)));
    }
  }

  lemma CutRefines(h: Host, s: seq<Byte>, cut: bool, k: nat)
    requires Framed(s, cut) && k <= |s|
    ensures var n := |Msgs(h, s[..k])|;
            n <= |Msgs(h, s)| && Msgs(h, s[..k]) == Msgs(h, s)[..n]
    ensures Framed(s[..k], true)
  {
    CutKeepsPrefix(s, k);
  }

  lemma FreshRefines(h: Host)
    ensures Msgs(h, []) == [] && Framed([], false)
  {
    ParseEmpty();
  }

  // ---------- every message the system constructs fits its frame ----------

  lemma ClientMovesEncodable(c: Core, mv: ClientMove)
    requires ClientCan(c, mv) && (mv.Begin? ==> Encodable(mv.request))
    ensures AllEncodable(ClientMoves(c, mv).out)
  {
  }

  lemma ServerMovesEncodable(c: Core)
    requires c.server.Streaming? && c.server.total <= |c.origin|
    ensures AllEncodable(ServerMoves(c).out)
  {
  }

  lemma ClientReceivesEncodable(c: Core, m: Msg, sent: bool)
    requires ClientReceiving(c.client) && |c.origin| < Files.OFF_T_LIMIT
    requires c.client.AwaitInfo? && m.GetsResp? ==> m.total == |c.origin|
    ensures AllEncodable(ClientReceives(c, m, sent).out)
  {
  }

  lemma ServerReceivesEncodable(c: Core, m: Msg, ch: Choice, sent: bool)
    requires ServerReceiving(c.server) && (c.server.Storing? ==> c.server.total == |c.dst|)
    requires |c.src| < Files.OFF_T_LIMIT && |c.origin| < Files.OFF_T_LIMIT
    requires m.PutsReq? ==> m.total == |c.src|
    requires Encodable(ch.reply) && Encodable(ch.done) && Encodable(ch.refusal) && |ch.name| == NAME_SIZE
    ensures AllEncodable(ServerReceives(c, m, ch, sent).out)
  {
  }

  // ---------- each byte-level step is a message-level step ----------

  predicate Refines(h: Host, w: Net, a: Action)
    requires NetEnabled(h, w, a)
  {
    var b := AbsAction(h, w, a);
    var v := NetDo(h, w, a);
    && Enabled(Abs(h, w), b) && Abs(h, v) == Do(Abs(h, w), b)
    && Framed(v.up, v.core.cut) && Framed(v.down, v.core.cut)
  }

  /** Under the invariant a received packet is one its reader expects, also at byte level. */
  lemma HeadExpected(h: Host, w: Net)
    requires NetInv(h, w)
    ensures Parse(w.down).Got? && ClientReceiving(w.core.client) ==> ClientExpects(w.core, Head(h, w.down))
    ensures Parse(w.down).Got? && w.core.client.AwaitInfo? && Head(h, w.down).GetsResp? ==>
              Head(h, w.down).total == |w.core.origin|
    ensures Parse(w.up).Got? && ServerReceiving(w.core.server) ==> ServerExpects(w.core, Head(h, w.up))
    ensures Parse(w.up).Got? && w.core.server.Ready? && Head(h, w.up).PutsReq? ==> Head(h, w.up).total == |w.core.src|
  {
    RecvRefines(h, w.up, w.core.cut);
    RecvRefines(h, w.down, w.core.cut);
    NoMistypedPacket(Abs(h, w));
  }

  lemma ClientSendRefines(h: Host, w: Net, mv: ClientMove, sent: bool)
    requires NetInv(h, w) && NetEnabled(h, w, ClientSend(mv, sent))
    ensures Refines(h, w, ClientSend(mv, sent))
  {
    ClientMovesEncodable(w.core, mv);
    if !w.core.cut {
      SendRefines(h, w.up, ClientMoves(w.core, mv).out);
    }
  }

  lemma ServerSendRefines(h: Host, w: Net, sent: bool)
    requires NetInv(h, w) && NetEnabled(h, w, ServerSend(sent))
    ensures Refines(h, w, ServerSend(sent))
  {
    ServerMovesEncodable(w.core);
    if !w.core.cut {
      SendRefines(h, w.down, ServerMoves(w.core).out);
    }
  }

  lemma ClientRecvRefines(h: Host, w: Net, sent: bool)
    requires NetInv(h, w) && NetEnabled(h, w, ClientRecv(sent))
    ensures Refines(h, w, ClientRecv(sent))
  {
    var c, m := w.core, Head(h, w.down);
    RecvRefines(h, w.down, c.cut);
    HeadExpected(h, w);
    ClientReceivesEncodable(c, m, sent);
    if !c.cut {
      SendRefines(h, w.up, ClientReceives(c, m, sent).out);
    }
  }

  lemma ServerRecvRefines(h: Host, w: Net, ch: Choice, sent: bool)
    requires NetInv(h, w) && NetEnabled(h, w, ServerRecv(ch, sent))
    ensures Refines(h, w, ServerRecv(ch, sent))
  {
    var c, m := w.core, Head(h, w.up);
    RecvRefines(h, w.up, c.cut);
    HeadExpected(h, w);
    ServerReceivesEncodable(c, m, ch, sent);
    if !c.cut {
      SendRefines(h, w.down, ServerReceives(c, m, ch, sent).out);
    }
  }

  lemma CutStepRefines(h: Host, w: Net, i: nat, j: nat)
    requires NetInv(h, w) && NetEnabled(h, w, Cut(i, j))
    ensures Refines(h, w, Cut(i, j))
  {
    CutRefines(h, w.up, w.core.cut, i);
    CutRefines(h, w.down, w.core.cut, j);
  }

  lemma LoseRefines(h: Host, w: Net, a: Action)
    requires NetInv(h, w) && NetEnabled(h, w, a) && (a.ClientLose? || a.ServerLose?)
    ensures Refines(h, w, a)
  {
    RecvRefines(h, w.up, w.core.cut);
    RecvRefines(h, w.down, w.core.cut);
  }

  lemma StopRefines(h: Host, w: Net, n: nat)
    requires NetInv(h, w) && NetEnabled(h, w, ClientStop(n))
    ensures Refines(h, w, ClientStop(n))
  {
    RecvRefines(h, w.down, w.core.cut);
  }

  lemma ReconnectRefines(h: Host, w: Net)
    requires NetInv(h, w) && NetEnabled(h, w, Reconnect)
    ensures Refines(h, w, Reconnect)
  {
    FreshRefines(h);
  }

  lemma RefinedStepKeeps(h: Host, w: Net, a: Action)
    requires NetInv(h, w) && NetEnabled(h, w, a) && Refines(h, w, a)
    ensures NetInv(h, NetDo(h, w, a)) && Grows(w.core, NetDo(h, w, a).core)
  {
    StepKeepsInv(Abs(h, w), AbsAction(h, w, a));
    StepGrows(Abs(h, w), AbsAction(h, w, a));
  }

  /** Refinement: whatever the byte-level system does, the message-level system can do. */
  lemma StepRefines(h: Host, w: Net, a: Action)
    requires NetInv(h, w) && NetEnabled(h, w, a)
    ensures Refines(h, w, a) && NetInv(h, NetDo(h, w, a))
    ensures Grows(w.core, NetDo(h, w, a).core)
  {
    match a {
      case ClientSend(mv, sent) => ClientSendRefines(h, w, mv, sent);
      case ServerSend(sent) => ServerSendRefines(h, w, sent);
      case ClientRecv(sent) => ClientRecvRefines(h, w, sent);
      case ServerRecv(ch, sent) => ServerRecvRefines(h, w, ch, sent);
      case Cut(i, j) => CutStepRefines(h, w, i, j);
      case ClientStop(n) => StopRefines(h, w, n);
      case Reconnect => ReconnectRefines(h, w);
      case _ => LoseRefines(h, w, a);
    }
    RefinedStepKeeps(h, w, a);
  }

  lemma EnabledLifts(h: Host, w: Net, a: Action)
    requires NetInv(h, w) && Enabled(Abs(h, w), a)
    requires a.ClientRecv? || a.ServerSend? || (a.ClientSend? && !a.move.Begin?)
    ensures NetEnabled(h, w, a)
  {
    RecvRefines(h, w.down, w.core.cut);
  }

  lemma ServerRecvLifts(h: Host, w: Net, ch: Choice)
    requires NetInv(h, w) && Enabled(Abs(h, w), ServerRecv(ch, true))
    ensures NetEnabled(h, w, ServerRecv(PLAIN_CHOICE.(name := seq(NAME_SIZE, _ => 0)), true))
  {
    RecvRefines(h, w.up, w.core.cut);
  }

  /** And where the message-level system can move on, so can the byte-level one. */
  lemma NetNoDeadlock(h: Host, w: Net)
    requires NetInv(h, w) && !w.core.cut
    ensures Resting(Abs(h, w)) || exists a :: Advances(a) && NetEnabled(h, w, a)
  {
    NoDeadlock(Abs(h, w));
    if !Resting(Abs(h, w)) {
      var b := NextAction(Abs(h, w));
      if b.ServerRecv? {
        ServerRecvLifts(h, w, b.choice);
        var a := ServerRecv(PLAIN_CHOICE.(name := seq(NAME_SIZE, _ => 0)), true);
        assert Advances(a);
      } else {
        EnabledLifts(h, w, b);
      }
    }
  }

  // ---------- whole runs ----------

  predicate NetInit(w: Net) {
    && w.up == [] && w.down == [] && Init(State(w.core, [], []))
    && |w.core.src| < Files.OFF_T_LIMIT && |w.core.origin| < Files.OFF_T_LIMIT
  }

  ghost predicate NetNext(h: Host, w: Net, v: Net) {
    exists a :: NetEnabled(h, w, a) && v == NetDo(h, w, a)
  }

  /** Any interleaving of the two programs, cut and reconnected any number of times. */
  ghost predicate Run(h: Host, ws: seq<Net>) {
    && ws != [] && NetInit(ws[0])
    && forall i :: 0 <= i < |ws| - 1 ==> NetNext(h, ws[i], ws[i + 1])
  }

  lemma {:induction false} RunKeeps(h: Host, ws: seq<Net>, i: nat)
    requires Run(h, ws) && i < |ws|
    ensures NetInv(h, ws[i])
    ensures i > 0 ==> Grows(ws[i - 1].core, ws[i].core)
  {
    if i == 0 {
      FreshRefines(h);
      InitHolds(Abs(h, ws[0]));
    } else {
      RunKeeps(h, ws, i - 1);
      assert NetNext(h, ws[i - 1], ws[i - 1 + 1]);
      var a :| NetEnabled(h, ws[i - 1], a) && ws[i] == NetDo(h, ws[i - 1], a);
      StepRefines(h, ws[i - 1], a);
    }
  }

  lemma GrowsTransitive(c: Core, d: Core, e: Core)
    requires Grows(c, d) && Grows(d, e)
    ensures Grows(c, e)
  {
  }

  lemma GrowsReflexive(c: Core)
    requires FilesOk(c)
    ensures Grows(c, c)
  {
  }

  lemma {:induction false} RunGrows(h: Host, ws: seq<Net>, i: nat, j: nat)
    requires Run(h, ws) && i <= j < |ws|
    ensures Grows(ws[i].core, ws[j].core) && FilesOk(ws[j].core)
    decreases j
  {
    RunKeeps(h, ws, j);
    if i < j {
      RunGrows(h, ws, i, j - 1);
      GrowsTransitive(ws[i].core, ws[j - 1].core, ws[j].core);
    } else {
      GrowsReflexive(ws[j].core);
    }
  }

  /** What the server's copy is, at a point d of a run that began at `first` and passed c. */
  predicate UploadSafe(first: Core, c: Core, d: Core) {
    && d.src == first.src
    && (!d.server.Storing? && |first.dst| <= |first.src| ==> d.dst <= d.src)
    && (!d.server.Storing? && |d.dst| <= |d.src| ==> d.dst <= d.src)
    && (d.server.Storing? ==> d.server.offset <= |d.dst| && d.dst[..d.server.offset] <= d.src)
    && (Stored(c) <= |c.src| ==> Stored(c) <= Stored(d) <= |d.src|)
    && (d.client == Idle(Uploaded) ==> d.dst == d.src)
  }

  /** What the client's copy is, at a point d of a run that began at `first` and passed c. */
  predicate DownloadSafe(first: Core, c: Core, d: Core) {
    && d.origin == first.origin
    && (|d.copy| <= |d.origin| ==> d.copy <= d.origin)
    && (|c.copy| <= |c.origin| ==> c.copy <= d.copy <= d.origin)
    && (d.client.Idle? && d.client.last.Downloaded? ==>
          d.client.last.announced == d.client.last.size == |d.origin| && d.copy == d.origin)
  }

  lemma GrowsSafe(first: Core, c: Core, d: Core)
    requires FilesOk(d) && Grows(first, d) && Grows(c, d) && !first.server.Storing?
    ensures UploadSafe(first, c, d) && DownloadSafe(first, c, d)
  {
  }

  /**
   * Upload over any run: between attempts the server's file is a prefix of the client's
   * (or was over-long from the start and still untouched); what is stored never shrinks
   * once it is not over-long; and a client that has seen its upload acknowledged finds the
   * server's file equal to its own.
   */
  lemma UploadOverRun(h: Host, ws: seq<Net>, i: nat, j: nat)
    requires Run(h, ws) && i <= j < |ws|
    ensures UploadSafe(ws[0].core, ws[i].core, ws[j].core)
  {
    RunGrows(h, ws, 0, j);
    RunGrows(h, ws, i, j);
    GrowsSafe(ws[0].core, ws[i].core, ws[j].core);
  }

  /**
   * Download over any run: the client's file is always a prefix of the server's (or an
   * untouched over-long one), even after a partial write, and only ever extended; when
   * FILE_END arrives the size the client tracked is the announced one and the files are
   * equal, although the client compares nothing.
   */
  lemma DownloadOverRun(h: Host, ws: seq<Net>, i: nat, j: nat)
    requires Run(h, ws) && i <= j < |ws|
    ensures DownloadSafe(ws[0].core, ws[i].core, ws[j].core)
  {
    RunGrows(h, ws, 0, j);
    RunGrows(h, ws, i, j);
    GrowsSafe(ws[0].core, ws[i].core, ws[j].core);
  }

  // ---------- commands on a whole connection, byte by byte ----------

  predicate NetSchedule(h: Host, w: Net, actions: seq<Action>)
    decreases |actions|
  {
    actions == [] ||
    (Advances(actions[0]) && NetEnabled(h, w, actions[0]) && NetSchedule(h, NetDo(h, w, actions[0]), actions[1..]))
  }

  function NetAfter(h: Host, w: Net, actions: seq<Action>): Net
    requires NetSchedule(h, w, actions)
    decreases |actions|
  {
    if actions == [] then w else NetAfter(h, NetDo(h, w, actions[0]), actions[1..])
  }

  ghost predicate NetStuck(h: Host, w: Net) {
    forall a :: Advances(a) ==> !NetEnabled(h, w, a)
  }

  /** A byte-level schedule is a message-level one. */
  lemma {:induction false} ScheduleRefines(h: Host, w: Net, actions: seq<Action>)
    requires NetInv(h, w) && !w.core.cut && NetSchedule(h, w, actions)
    ensures Schedule(Abs(h, w), actions)
    ensures var v := NetAfter(h, w, actions);
            Abs(h, v) == After(Abs(h, w), actions) && NetInv(h, v) && !v.core.cut
    decreases |actions|
  {
    hide NetInv, NetEnabled, NetDo, Do, Enabled, Abs;
    if actions != [] {
      StepOnWhole(h, w, actions[0]);
      ScheduleRefines(h, NetDo(h, w, actions[0]), actions[1..]);
    }
  }

  lemma StepOnWhole(h: Host, w: Net, a: Action)
    requires NetInv(h, w) && !w.core.cut && Advances(a) && NetEnabled(h, w, a)
    ensures Enabled(Abs(h, w), a)
    ensures var v := NetDo(h, w, a); Abs(h, v) == Do(Abs(h, w), a) && NetInv(h, v) && !v.core.cut
  {
    StepRefines(h, w, a);
    StepWorks(Abs(h, w), a);
  }

  lemma StuckIsResting(h: Host, w: Net)
    requires NetInv(h, w) && !w.core.cut
    ensures NetStuck(h, w) <==> Resting(Abs(h, w))
  {
    NetNoDeadlock(h, w);
    NoDeadlock(Abs(h, w));
    if a :| Advances(a) && NetEnabled(h, w, a) {
      StepOnWhole(h, w, a);
    }
  }

  /** Without cuts every byte-level schedule is finite and can stop only where both sides are idle. */
  lemma NetCommandCompletes(h: Host, w: Net, actions: seq<Action>)
    requires NetInv(h, w) && !w.core.cut && NetSchedule(h, w, actions)
    ensures var v := NetAfter(h, w, actions);
            && NetInv(h, v) && !v.core.cut
            && |actions| + Work(Abs(h, v)) <= Work(Abs(h, w))
            && (NetStuck(h, v) <==> Resting(Abs(h, v)))
  {
    ScheduleRefines(h, w, actions);
    EveryCommandCompletes(Abs(h, w), actions);
    StuckIsResting(h, NetAfter(h, w, actions));
  }

  /** However its byte-level steps are scheduled, an accepted uninterrupted transfer succeeds. */
  lemma NetTransferSucceeds(h: Host, w: Net, actions: seq<Action>)
    requires NetInv(h, w) && !w.core.cut && NetSchedule(h, w, actions) && NetStuck(h, NetAfter(h, w, actions))
    ensures var c := NetAfter(h, w, actions).core;
            && (Uploading(Abs(h, w)) ==> c.client == Idle(Uploaded) && c.dst == w.core.src)
            && (Downloading(Abs(h, w)) ==>
                  c.client == Idle(Downloaded(|w.core.origin|, |w.core.origin|)) && c.copy == w.core.origin)
  {
    ScheduleRefines(h, w, actions);
    StuckIsResting(h, NetAfter(h, w, actions));
    EveryCommandCompletes(Abs(h, w), actions);
    TransferSucceeds(Abs(h, w), actions);
  }

  /** Over any run, the server puts an ACK for an upload on the stream only when the files are equal. */
  lemma NetAckMeansEqual(h: Host, ws: seq<Net>, i: nat, ch: Choice, sent: bool)
    requires Run(h, ws) && i < |ws|
    requires NetEnabled(h, ws[i], ServerRecv(ch, sent)) && ws[i].core.server.Storing?
    ensures var w, v := ws[i], NetDo(h, ws[i], ServerRecv(ch, sent));
            if Head(h, w.up) == End then
              && v.core.dst == v.core.src && (!w.core.cut ==> v.down == w.down + Put(h, [ch.done]))
            else v.down == w.down && v.core.server.Storing?
  {
    RunKeeps(h, ws, i);
    StepRefines(h, ws[i], ServerRecv(ch, sent));
    AckMeansEqual(Abs(h, ws[i]), ch, sent);
  }
}
