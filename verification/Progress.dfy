// What the invariant of the composed transfer system buys: growth of the copies,
// exact results, no mistyped packet, no deadlock, and completion of every command.

module Progress {
  import Framing
  import opened Transfer

  // ---------- interrupted attempts only ever add ----------

  /** How much of the upload the server holds for good: what the next attempt resumes from. */
  function Stored(c: Core): nat {
    if c.server.Storing? then c.server.offset else |c.dst|
  }

  /** Both copies after a step, compared with what was there before it. */
  predicate Grows(c: Core, d: Core) {
    && d.src == c.src && d.origin == c.origin
    && (Stored(c) <= |c.src| ==> Stored(c) <= Stored(d) <= |d.src|)
    && (|c.copy| <= |c.origin| ==> c.copy <= d.copy <= d.origin)
  }

  lemma ServerRecvGrows(s: State, ch: Choice, sent: bool)
    requires Inv(s) && Enabled(s, ServerRecv(ch, sent))
    ensures Grows(s.core, Do(s, ServerRecv(ch, sent)).core)
  {
    if s.core.server.Storing? {
      FeedsHead(s.up, s.core.src, s.core.server.offset);
    }
  }

  lemma BlockReceivedGrows(c: Core, down: seq<Msg>)
    requires c.client.Receiving? && FilesOk(c) && down != [] && Feeds(down, c.origin, c.client.size)
    requires down[0].Data?
    ensures c.copy <= c.copy + down[0].block <= c.origin
  {
    FeedsHead(down, c.origin, c.client.size);
  }

  /** A received message changes the client's own file only, and only by appending or resetting it. */
  lemma ClientRecvCore(c: Core, m: Msg, sent: bool)
    requires ClientReceiving(c.client)
    ensures var d := ClientReceives(c, m, sent).core;
            && d == c.(client := d.client, copy := d.copy)
            && d.copy == if c.client.Receiving? && m.Data? then c.copy + m.block
                         else if c.client.AwaitInfo? && m.GetsResp? && |c.copy| > m.total then []
                         else c.copy
  {
  }

  lemma ClientRecvGrows(s: State, sent: bool)
    requires FilesOk(s.core) && DownOk(s) && Enabled(s, ClientRecv(sent))
    ensures Grows(s.core, ClientReceives(s.core, s.down[0], sent).core)
  {
    ClientRecvCore(s.core, s.down[0], sent);
    if s.core.client.Receiving? && s.down[0].Data? {
      BlockReceivedGrows(s.core, s.down);
    }
  }

  lemma ClientStopGrows(s: State, n: nat)
    requires Inv(s) && Enabled(s, ClientStop(n))
    ensures Grows(s.core, Do(s, ClientStop(n)).core)
  {
    if n > 0 {
      BlockReceivedGrows(s.core, s.down);
    }
  }

  /** No step, cut or reconnection shrinks an upload or a download that is not over-long. */
  lemma StepGrows(s: State, a: Action)
    requires Inv(s) && Enabled(s, a)
    ensures Grows(s.core, Do(s, a).core)
  {
    match a
    case ServerRecv(ch, sent) => ServerRecvGrows(s, ch, sent);
    case ClientRecv(sent) => ClientRecvGrows(s, sent);
    case ClientStop(n) => ClientStopGrows(s, n);
    case _ =>
  }

  /** The server acknowledges an upload exactly when the stored file is the client's file. */
  lemma AckMeansEqual(s: State, ch: Choice, sent: bool)
    requires Inv(s) && Enabled(s, ServerRecv(ch, sent)) && s.core.server.Storing?
    ensures var r := ServerReceives(s.core, s.up[0], ch, sent);
            && (r.out == [ch.done] <==> s.up[0] == End)
            && (r.out == [ch.done] ==> r.core.dst == s.core.src)
            && (r.out != [ch.done] ==> r.out == [] && r.core.server.Storing?)
  {
    FeedsHead(s.up, s.core.src, s.core.server.offset);
  }

  // ---------- agreement of the two halves ----------

  /** The packet types each receive point of the server's code handles without an error. */
  predicate ServerExpects(c: Core, m: Msg) {
    match c.server
    case Ready => m.Command? || m.PutsReq? || m.GetsReq?
    case Storing(o, total) => m == End || (m.Data? && o + |m.block| <= total)
    case AwaitResume(total) => m.Resume?
    case _ => false
  }

  predicate ClientExpects(c: Core, m: Msg) {
    match c.client
    case AwaitText => m.Ack? || m.Error?
    case AwaitPutsResp => m.PutsResp? || m.Error?
    case AwaitAck => m.Ack? || m.Error?
    case AwaitInfo => m.GetsResp? || m.Error?
    case Receiving(_, _) => m.Data? || m == End || m.Error?
    case _ => false
  }

  /** Even on a cut connection, whatever is read next is of a type its reader handles. */
  lemma NoMistypedPacket(s: State)
    requires Inv(s)
    ensures s.up != [] && ServerReceiving(s.core.server) ==> ServerExpects(s.core, s.up[0])
    ensures s.down != [] && ClientReceiving(s.core.client) ==> ClientExpects(s.core, s.down[0])
  {
    if s.core.server.Storing? && s.up != [] {
      FeedsHead(s.up, s.core.src, s.core.server.offset);
    }
    if s.core.client.Receiving? && s.down != [] {
      FeedsHead(s.down, s.core.origin, s.core.client.size);
    }
  }

  /**
   * On a whole connection a channel that holds anything has its reader waiting on
   * it, so no bound on what a channel can hold makes two senders block each other.
   */
  lemma ReaderIsWaiting(s: State)
    requires Inv(s) && !s.core.cut
    ensures s.up != [] ==> ServerReceiving(s.core.server) && s.down == []
    ensures s.down != [] ==> ClientReceiving(s.core.client) && s.up == []
  {
  }

  // ---------- no deadlock, and every command completes ----------

  /** The steps that carry a command forward, as opposed to new commands and failures. */
  predicate Advances(a: Action) {
    (a.ClientSend? && !a.move.Begin?) || a.ClientRecv? || a.ServerSend? || a.ServerRecv?
  }

  predicate Resting(s: State) {
    s.core.client.Idle? && s.core.server.Ready? && s.up == [] && s.down == []
  }

  ghost predicate Stuck(s: State) {
    forall a | Enabled(s, a) :: !Advances(a)
  }

  const PLAIN_CHOICE := Choice(true, [], Ack([]), Ack([]), Error(Framing.STATUS_IO_ERROR, []))

  /** A step that can be taken now. */
  function NextAction(s: State): Action {
    if s.up != [] then ServerRecv(PLAIN_CHOICE, true)
    else if s.down != [] then ClientRecv(true)
    else if s.core.client.Sending? then
      var left := |s.core.src| - s.core.client.offset;
      if left <= 0 then ClientSend(Finish, true)
      else ClientSend(Block(if left > Framing.FILE_BLOCK_SIZE then Framing.FILE_BLOCK_SIZE else left), true)
    else ServerSend(true)
  }

  lemma NoDeadlock(s: State)
    requires Inv(s) && !s.core.cut
    ensures Stuck(s) <==> Resting(s)
    ensures !Resting(s) ==> Enabled(s, NextAction(s)) && Advances(NextAction(s))
  {
    ReaderIsWaiting(s);
    if !Resting(s) {
      assert Enabled(s, NextAction(s)) && Advances(NextAction(s));
    }
  }

  function ClientWork(c: Core): nat
    requires c.client.Sending? ==> c.client.offset <= |c.src|
  {
    match c.client
    case AwaitPutsResp => 3 * |c.src| + 6
    case Sending(o) => 3 * (|c.src| - o) + 5
    case AwaitInfo => 3
    case _ => 0
  }

  function ServerWork(c: Core): nat
    requires c.server.Streaming? ==> c.server.offset <= c.server.total
  {
    match c.server
    case AwaitResume(total) => 3 * total + 4
    case Streaming(o, total) => 3 * (total - o) + 3
    case _ => 0
  }

  function UpWork(s: State): nat {
    2 * |s.up| + if s.up != [] && s.up[0].GetsReq? then 3 * |s.core.origin| + 6 else 0
  }

  /** An upper bound on the steps a command still needs. */
  function Work(s: State): nat
    requires FilesOk(s.core)
  {
    ClientWork(s.core) + ServerWork(s.core) + UpWork(s) + |s.down|
  }

  lemma ClientSendWorks(s: State, mv: ClientMove, sent: bool)
    requires Inv(s) && !s.core.cut && Enabled(s, ClientSend(mv, sent)) && !mv.Begin?
    requires Inv(Do(s, ClientSend(mv, sent)))
    ensures Work(Do(s, ClientSend(mv, sent))) < Work(s)
  {
  }

  lemma ClientRecvWorks(s: State, sent: bool)
    requires Inv(s) && !s.core.cut && Enabled(s, ClientRecv(sent))
    requires Inv(Do(s, ClientRecv(sent)))
    ensures Work(Do(s, ClientRecv(sent))) < Work(s) && !Do(s, ClientRecv(sent)).core.cut
  {
  }

  lemma ServerSendWorks(s: State, sent: bool)
    requires Inv(s) && !s.core.cut && Enabled(s, ServerSend(sent))
    requires Inv(Do(s, ServerSend(sent)))
    ensures Work(Do(s, ServerSend(sent))) < Work(s)
  {
  }

  lemma ServerRecvWorks(s: State, ch: Choice, sent: bool)
    requires Inv(s) && !s.core.cut && Enabled(s, ServerRecv(ch, sent))
    requires Inv(Do(s, ServerRecv(ch, sent)))
    ensures Work(Do(s, ServerRecv(ch, sent))) < Work(s) && !Do(s, ServerRecv(ch, sent)).core.cut
  {
    NoMistypedPacket(s);
  }

  lemma StepWorks(s: State, a: Action)
    requires Inv(s) && !s.core.cut && Enabled(s, a) && Advances(a)
    ensures Inv(Do(s, a)) && !Do(s, a).core.cut
    ensures Work(Do(s, a)) < Work(s)
  {
    StepKeepsInv(s, a);
    match a
    case ClientSend(mv, sent) => ClientSendWorks(s, mv, sent);
    case ClientRecv(sent) => ClientRecvWorks(s, sent);
    case ServerSend(sent) => ServerSendWorks(s, sent);
    case ServerRecv(ch, sent) => ServerRecvWorks(s, ch, sent);
  }

  /** A schedule of advancing steps, each enabled when it is taken. */
  predicate Schedule(s: State, actions: seq<Action>)
    decreases |actions|
  {
    actions == [] ||
    (Advances(actions[0]) && Enabled(s, actions[0]) && Schedule(Do(s, actions[0]), actions[1..]))
  }

  function After(s: State, actions: seq<Action>): State
    requires Schedule(s, actions)
    decreases |actions|
  {
    if actions == [] then s else After(Do(s, actions[0]), actions[1..])
  }

  /**
   * Without cuts or local failures every schedule is finite, and it can stop only
   * where both sides are idle with empty channels.
   */
  lemma {:induction false} EveryCommandCompletes(s: State, actions: seq<Action>)
    requires Inv(s) && !s.core.cut && Schedule(s, actions)
    ensures var t := After(s, actions);
            && Inv(t) && !t.core.cut
            && |actions| + Work(t) <= Work(s)
            && (Stuck(t) <==> Resting(t))
    decreases |actions|
  {
    if actions == [] {
      NoDeadlock(s);
    } else {
      StepWorks(s, actions[0]);
      EveryCommandCompletes(Do(s, actions[0]), actions[1..]);
    }
  }

  /** The server has accepted the upload; only the transfer itself is left, or it is done. */
  predicate Uploading(s: State) {
    s.core.server.Storing? || s.core.client.AwaitAck? || s.core.client == Idle(Uploaded)
  }

  predicate Downloading(s: State) {
    || s.core.server.AwaitResume? || s.core.client.Receiving?
    || s.core.client == Idle(Downloaded(|s.core.origin|, |s.core.origin|))
  }

  lemma ClientRecvStays(s: State, sent: bool)
    requires Inv(s) && !s.core.cut && Enabled(s, ClientRecv(sent))
    ensures Uploading(s) ==> Uploading(Do(s, ClientRecv(sent)))
    ensures Downloading(s) ==> Downloading(Do(s, ClientRecv(sent)))
  {
    NoMistypedPacket(s);
  }

  lemma ServerRecvStays(s: State, ch: Choice, sent: bool)
    requires Inv(s) && !s.core.cut && Enabled(s, ServerRecv(ch, sent))
    ensures Uploading(s) ==> Uploading(Do(s, ServerRecv(ch, sent)))
    ensures Downloading(s) ==> Downloading(Do(s, ServerRecv(ch, sent)))
  {
    NoMistypedPacket(s);
  }

  lemma TransferStays(s: State, a: Action)
    requires Inv(s) && !s.core.cut && Enabled(s, a) && Advances(a)
    ensures Uploading(s) ==> Uploading(Do(s, a))
    ensures Downloading(s) ==> Downloading(Do(s, a))
    ensures Do(s, a).core.src == s.core.src && Do(s, a).core.origin == s.core.origin
  {
    match a
    case ClientRecv(sent) => ClientRecvStays(s, sent);
    case ServerRecv(ch, sent) => ServerRecvStays(s, ch, sent);
    case _ =>
  }

  lemma {:induction false} ScheduleStays(s: State, actions: seq<Action>)
    requires Inv(s) && !s.core.cut && Schedule(s, actions)
    ensures Uploading(s) ==> Uploading(After(s, actions))
    ensures Downloading(s) ==> Downloading(After(s, actions))
    ensures After(s, actions).core.src == s.core.src && After(s, actions).core.origin == s.core.origin
    decreases |actions|
  {
    if actions != [] {
      StepWorks(s, actions[0]);
      TransferStays(s, actions[0]);
      ScheduleStays(Do(s, actions[0]), actions[1..]);
    }
  }

  /**
   * However its steps are scheduled, an accepted and uninterrupted transfer that can
   * go no further has succeeded: the files are equal and the client knows it.
   */
  lemma TransferSucceeds(s: State, actions: seq<Action>)
    requires Inv(s) && !s.core.cut && Schedule(s, actions) && Stuck(After(s, actions))
    ensures var c := After(s, actions).core;
            && (Uploading(s) ==> c.client == Idle(Uploaded) && c.dst == s.core.src)
            && (Downloading(s) ==>
                  c.client == Idle(Downloaded(|s.core.origin|, |s.core.origin|)) && c.copy == s.core.origin)
  {
    EveryCommandCompletes(s, actions);
    ScheduleStays(s, actions);
  }
}
