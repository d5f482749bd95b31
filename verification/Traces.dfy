// What whole sessions come to: which packets of the stream they serve, which bytes they
// send, where their current path leads and which files they can touch.

module Traces {
  import opened Endian
  import opened Framing
  import Files
  import Link
  import Messages
  import Upload
  import Download
  import opened FileSystem
  import Paths
  import PathBuffers
  import opened Session
  import opened Handlers

  /** The current path of a session is what the log of its requests makes of the first one. */
  lemma {:induction false} TracePath(h: Host, first: Moment, turns: seq<Turn>, last: Moment)
    requires Trace(h, first, turns, last)
    ensures last.path == PathAfter(first.path, Requests(turns))
    decreases |turns|
  {
    hide Serves, NextPath;
    if turns != [] {
      var n := |turns| - 1;
      TracePath(h, first, turns[..n], turns[n].before);
      assert Requests(turns)[..n] == Requests(turns[..n]);
    }
  }

  /** A session never changes a file or a directory outside the virtual tree. */
  lemma {:induction false} TraceConfined(h: Host, first: Moment, turns: seq<Turn>, last: Moment)
    requires Trace(h, first, turns, last)
    ensures Confined(first.store, last.store)
    decreases |turns|
  {
    hide Serves, NextPath, AgreeExcept, Targets, Confined;
    if turns == [] {
      ConfinedToItself(first.store);
    } else {
      var n := |turns| - 1;
      var t := turns[n];
      TraceConfined(h, first, turns[..n], t.before);
      ServesTouches(h, t.before.(inbound := Parse(t.before.inbound).rest), t.packet, t.faults, t.service, t.effect);
      TargetsAreInside(t.before.path, t.packet, t.before.store, t.effect.store);
      ConfinedTransitive(first.store, t.before.store, t.effect.store);
    }
  }

  /** A session that started at the root is always at a good path, where its walk has led it. */
  lemma TraceGood(h: Host, first: Moment, turns: seq<Turn>, last: Moment)
    requires Trace(h, first, turns, last) && first.path == "/"
    ensures GoodPath(last.path) && Paths.RealFits(last.path)
    ensures last.path == Paths.Render(Paths.Walk([], Steps("/", Requests(turns))))
  {
    TracePath(h, first, turns, last);
    SessionPath(Requests(turns));
    SessionIsOneWalk(Requests(turns));
  }

  lemma ConfinedTransitive(a: Store, b: Store, c: Store)
    requires Confined(a, b) && Confined(b, c)
    ensures Confined(a, c)
  {
  }

  lemma ConfinedToItself(a: Store)
    ensures Confined(a, a)
  {
  }

  // ---------- the packets a session reads ----------

  /** The packets a turn reads after its own: the blocks of an upload, the answer of a download. */
  function Inner(h: Host, t: Turn): seq<Packet>
    requires Parse(t.before.inbound).Got?
  {
    var stream := Parse(t.before.inbound).rest;
    match t.service
    case Reply(_) => []
    case PutsServed(Served) => UploadReads(h, t.before.(inbound := stream), t.packet, t.faults.puts)
    case PutsServed(_) => []
    case GetsServed(TurnedDown(_)) => []
    case GetsServed(_) => if t.effect.left == stream then [] else ParseAll(stream)[..Link.Min(1, |ParseAll(stream)|)]
  }

  function UploadReads(h: Host, m: Moment, p: Packet, env: Upload.Env): seq<Packet> {
    if !AcceptsPuts(m.path, p) then []
    else
      var total := ReadU64(h, p.payload[Messages.NAME_SIZE..]);
      var before := Before(m.store, TargetOf(m.path, NameText(p.payload)));
      StageReads(before, total, Upload.Reached(h, before, total, m.room, env), ParseAll(m.inbound))
  }

  /** Only an upload that gets as far as its receive loop reads anything. */
  function StageReads(before: Files.File, total: nat, stage: Upload.Stage, ps: seq<Packet>): seq<Packet> {
    if stage == Upload.Transferred then ps[..Upload.BlocksRead(ps, |Upload.Kept(before, total)|, total)] else []
  }

  /** The packets read by all the turns, each turn's request first. */
  function ReadBy(h: Host, turns: seq<Turn>): seq<Packet>
    requires forall i :: 0 <= i < |turns| ==> Parse(turns[i].before.inbound).Got?
  {
    if turns == [] then []
    else
      var t := turns[|turns| - 1];
      ReadBy(h, turns[..|turns| - 1]) + ([t.packet] + Inner(h, t))
  }

  /** What is left of `all` once `mine` has been read from its front; nothing need be if the session closes. */
  predicate Reads(all: seq<Packet>, mine: seq<Packet>, left: seq<Packet>, close: bool) {
    mine <= all && (!close ==> left == all[|mine|..])
  }

  lemma StageIsRead(before: Files.File, total: U64, stage: Upload.Stage, stream: seq<Byte>,
                    after: Files.File, close: bool)
    requires Upload.Leaves(before, total, stage, ParseAll(stream), after, close)
    ensures Reads(ParseAll(stream), StageReads(before, total, stage, ParseAll(stream)),
                  ParseAll(Upload.AfterUpload(before, total, stage, stream)), close)
  {
    hide Parse, ParseAll, Upload.AfterBlocks, Upload.Accepted, Upload.EndsWithFileEnd, Upload.BlocksRead;
    var o := |Upload.Kept(before, total)|;
    if stage == Upload.Transferred && !close {
      Upload.BlocksLeft(stream, o, total);
    }
  }

  lemma UploadIsRead(h: Host, m: Moment, p: Packet, f: Faults, e: Effect)
    requires PutsOutcome(h, m, p, f, Served, e)
    ensures Reads(ParseAll(m.inbound), UploadReads(h, m, p, f.puts), ParseAll(e.left), e.close)
  {
    hide ReadU64, NameText, TargetOf, PathBuffers.Resolves, Link.Fits, ParseAll, Reads, StageReads;
    hide Upload.Leaves, Upload.Reached, Upload.Replies, Upload.AfterUpload;
    var total := ReadU64(h, p.payload[Messages.NAME_SIZE..]);
    var target := TargetOf(m.path, NameText(p.payload));
    var before := Before(m.store, target);
    var stage := Upload.Reached(h, before, total, m.room, f.puts);
    StageIsRead(before, total, stage, m.inbound, e.store.files[target], e.close);
  }

  lemma AnswerIsRead(h: Host, m: Moment, f: Files.File, name: string, e: Effect)
    requires DownloadServed(h, m, f, name, e)
    ensures var all := ParseAll(m.inbound);
            Reads(all, if e.left == m.inbound then [] else all[..Link.Min(1, |all|)], ParseAll(e.left), e.close)
  {
    hide Parse, Encode, EncodeAll, Link.Fits, NameField, Download.Info, Download.Blocks, ParseAll;
    ReceiveTakes(m.inbound);
    var answer := Parse(m.inbound);
    if Download.GivesPosition(answer) {
      Download.EndLength(Download.Blocks(f, Download.ResumePoint(h, answer.packet, |f|)));
    }
  }

  lemma DirectoryAnswerIsRead(h: Host, m: Moment, size: nat, name: string, e: Effect)
    requires Announced(h, m, size, name, e)
    ensures var all := ParseAll(m.inbound);
            Reads(all, if e.left == m.inbound then [] else all[..Link.Min(1, |all|)], ParseAll(e.left), e.close)
  {
    hide Parse, Encode, Link.Fits, NameField, Download.Info, Download.DirectoryReplies, ParseAll;
    ReceiveTakes(m.inbound);
  }

  /** A turn reads its own packets from the front of the stream, and unless it closes, leaves the others. */
  lemma TurnReads(h: Host, t: Turn)
    requires Happens(h, t)
    ensures Reads(ParseAll(t.before.inbound), [t.packet] + Inner(h, t), ParseAll(t.effect.left), t.effect.close)
  {
    hide Parse, ParseAll, UploadServed, DownloadServed, Announced, RefusedWith, UploadReads, Answers, AcceptsPuts;
    hide PathBuffers.Resolves, TargetOf, HasArg, ArgText, NameText, Encode, Link.Fits, NextPath;
    var stream := Parse(t.before.inbound).rest;
    var m := t.before.(inbound := stream);
    ReceiveTakes(t.before.inbound);
    InnerIsRead(h, m, t);
    var all := ParseAll(stream);
    assert ([t.packet] + all)[1..] == all;
  }

  lemma InnerIsRead(h: Host, m: Moment, t: Turn)
    requires Parse(t.before.inbound).Got? && m == t.before.(inbound := Parse(t.before.inbound).rest)
    requires Serves(h, m, t.packet, t.faults, t.service, t.effect)
    ensures Reads(ParseAll(m.inbound), Inner(h, t), ParseAll(t.effect.left), t.effect.close)
  {
    hide Parse, ParseAll, UploadServed, DownloadServed, Announced, UploadReads, Answers, AcceptsPuts;
    hide PathBuffers.Resolves, TargetOf, HasArg, ArgText, NameText, Encode, Link.Fits;
    var arg := ArgText(t.packet.payload);
    match t.service
    case PutsServed(Served) => UploadIsRead(h, m, t.packet, t.faults, t.effect);
    case GetsServed(Served) => AnswerIsRead(h, m, m.store.files[TargetOf(m.path, arg)], arg, t.effect);
    case GetsServed(OfDirectory(size)) => DirectoryAnswerIsRead(h, m, size, arg, t.effect);
    case _ =>
  }

  lemma {:induction false} TraceTurns(h: Host, first: Moment, turns: seq<Turn>, last: Moment)
    requires Trace(h, first, turns, last)
    ensures forall i :: 0 <= i < |turns| ==> Parse(turns[i].before.inbound).Got?
    decreases |turns|
  {
    hide Serves, NextPath, Parse;
    if turns != [] {
      var n := |turns| - 1;
      TraceTurns(h, first, turns[..n], turns[n].before);
      assert forall i :: 0 <= i < n ==> turns[..n][i] == turns[i];
    }
  }

  lemma ReadsOn(all: seq<Packet>, first: seq<Packet>, mid: seq<Packet>, second: seq<Packet>, left: seq<Packet>,
                close: bool)
    requires Reads(all, first, mid, false) && Reads(mid, second, left, close)
    ensures Reads(all, first + second, left, close)
  {
    assert all == first + mid;
  }

  lemma TraceStep(h: Host, first: Moment, turns: seq<Turn>, last: Moment)
    requires Trace(h, first, turns, last) && turns != []
    ensures var n := |turns| - 1;
            && Trace(h, first, turns[..n], turns[n].before) && !turns[n].before.close && Happens(h, turns[n])
            && last == After(turns[n])
  {
    hide Serves, NextPath;
  }

  /**
   * The packets the turns read, each turn's request first, are the front of the packet
   * sequence the peer sent; while the connection is open what is left of the stream holds
   * exactly the others.
   */
  lemma {:induction false} TraceReads(h: Host, first: Moment, turns: seq<Turn>, last: Moment)
    requires Trace(h, first, turns, last)
    ensures forall i :: 0 <= i < |turns| ==> Parse(turns[i].before.inbound).Got?
    ensures Reads(ParseAll(first.inbound), ReadBy(h, turns), ParseAll(last.inbound), last.close)
    decreases |turns|
  {
    hide Parse, ParseAll, Happens, Trace, Inner, Reads, NextPath;
    TraceTurns(h, first, turns, last);
    if turns == [] {
      TraceEmpty(h, first, last);
      ReadsNothing(ParseAll(first.inbound), last.close);
    } else {
      var n := |turns| - 1;
      var t := turns[n];
      TraceStep(h, first, turns, last);
      TraceReads(h, first, turns[..n], t.before);
      TurnReads(h, t);
      ReadsOn(ParseAll(first.inbound), ReadBy(h, turns[..n]), ParseAll(t.before.inbound), [t.packet] + Inner(h, t),
              ParseAll(last.inbound), last.close);
    }
  }

  lemma TraceEmpty(h: Host, first: Moment, last: Moment)
    requires Trace(h, first, [], last)
    ensures first == last
  {
  }

  lemma ReadsNothing(all: seq<Packet>, close: bool)
    ensures Reads(all, [], all, close)
  {
  }

  /** The place of each served packet in the peer's sequence; later turns serve later packets. */
  lemma {:induction false} ServedInOrder(h: Host, first: Moment, turns: seq<Turn>, last: Moment, i: nat, j: nat)
    requires Trace(h, first, turns, last) && i < j <= |turns|
    ensures forall k :: 0 <= k < |turns| ==> Parse(turns[k].before.inbound).Got?
    ensures var all := ParseAll(first.inbound);
            var place := |ReadBy(h, turns[..i])|;
            place < |ReadBy(h, turns[..j])| <= |all| && all[place] == turns[i].packet
    decreases j
  {
    hide Parse, ParseAll, Happens, Trace, Inner, NextPath;
    TraceTurns(h, first, turns, last);
    TracePrefix(h, first, turns, last, j);
    var t := turns[j - 1];
    assert turns[..j][..j - 1] == turns[..j - 1];
    assert ReadBy(h, turns[..j]) == ReadBy(h, turns[..j - 1]) + ([t.packet] + Inner(h, t));
    if i < j - 1 {
      ServedInOrder(h, first, turns, last, i, j - 1);
    }
  }

  lemma {:induction false} TracePrefix(h: Host, first: Moment, turns: seq<Turn>, last: Moment, j: nat)
    requires Trace(h, first, turns, last) && j <= |turns|
    ensures forall k :: 0 <= k < |turns| ==> Parse(turns[k].before.inbound).Got?
    ensures ReadBy(h, turns[..j]) <= ParseAll(first.inbound)
    decreases |turns|
  {
    hide Parse, ParseAll, Happens, Trace, Inner, NextPath;
    TraceTurns(h, first, turns, last);
    if j == |turns| {
      assert turns[..j] == turns;
      TraceReads(h, first, turns, last);
    } else {
      var n := |turns| - 1;
      TraceStep(h, first, turns, last);
      TracePrefix(h, first, turns[..n], turns[n].before, j);
      assert turns[..n][..j] == turns[..j];
    }
  }

  /** A session takes no more turns than the peer sent packets. */
  lemma TurnsAreFew(h: Host, first: Moment, turns: seq<Turn>, last: Moment)
    requires Trace(h, first, turns, last)
    ensures |turns| <= |ParseAll(first.inbound)|
  {
    hide Parse, ParseAll, Trace, Inner;
    TraceReads(h, first, turns, last);
    ReadByLength(h, turns);
  }

  lemma {:induction false} ReadByLength(h: Host, turns: seq<Turn>)
    requires forall i :: 0 <= i < |turns| ==> Parse(turns[i].before.inbound).Got?
    ensures |turns| <= |ReadBy(h, turns)|
  {
    hide Parse, Inner;
    if turns != [] {
      ReadByLength(h, turns[..|turns| - 1]);
    }
  }

  /** A session that ends without closing and without losing a reply has read every packet sent to it. */
  lemma TraceReadsAll(h: Host, first: Moment, turns: seq<Turn>, last: Moment)
    requires Trace(h, first, turns, last) && Over(turns, last)
    requires !last.close && (turns == [] || turns[|turns| - 1].effect.ok)
    ensures forall k :: 0 <= k < |turns| ==> Parse(turns[k].before.inbound).Got?
    ensures ReadBy(h, turns) == ParseAll(first.inbound)
  {
    hide Parse, Trace, ReadBy;
    TraceReads(h, first, turns, last);
    ReceiveTakes(last.inbound);
  }

  // ---------- the bytes a session sends ----------

  /** What serving a request sends on a connection that takes it all. */
  function ServiceBytes(h: Host, m: Moment, p: Packet, f: Faults, service: Service): seq<Byte> {
    match service
    case Reply(reply) => Reported(reply)
    case PutsServed(TurnedDown(reply)) => Reported(reply)
    case GetsServed(TurnedDown(reply)) => Reported(reply)
    case PutsServed(_) =>
      if AcceptsPuts(m.path, p) && ValidFaults(f) then
        var before := Before(m.store, TargetOf(m.path, NameText(p.payload)));
        var total := ReadU64(h, p.payload[Messages.NAME_SIZE..]);
        Upload.Replies(h, before, total, Upload.Reached(h, before, total, m.room, f.puts), ParseAll(m.inbound), f.puts)
      else []
    case GetsServed(_) =>
      var arg := ArgText(p.payload);
      if AcceptsArg(m.path, p) then SentOf(h, m.store, TargetOf(m.path, arg), arg, m.inbound) else []
  }

  function Reported(reply: Packet): seq<Byte> {
    if Sendable(reply) then Encode(reply) else []
  }

  /** A download of the file, or the directory, at a path. */
  function SentOf(h: Host, s: Store, target: string, arg: string, stream: seq<Byte>): seq<Byte> {
    if target in s.files && |s.files[target]| < Files.OFF_T_LIMIT then
      Download.DownloadReplies(h, s.files[target], NameField(arg), Parse(stream))
    else if target in s.dirs && s.dirs[target] < Files.OFF_T_LIMIT then
      Download.DirectoryReplies(h, s.dirs[target], NameField(arg), Parse(stream))
    else []
  }

  function Wanted(h: Host, t: Turn): seq<Byte>
    requires Parse(t.before.inbound).Got?
  {
    ServiceBytes(h, t.before.(inbound := Parse(t.before.inbound).rest), t.packet, t.faults, t.service)
  }

  lemma ServiceSends(h: Host, m: Moment, p: Packet, f: Faults, service: Service, e: Effect)
    requires Serves(h, m, p, f, service, e)
    ensures e.sent == Link.Fits(ServiceBytes(h, m, p, f, service), m.room)
  {
    hide Parse, ParseAll, ReadU64, NameText, ArgText, TargetOf, PathBuffers.Resolves, NameField, Encode, Link.Fits;
    hide Answers, HasArg, Upload.Leaves, Upload.Reached, Upload.Replies, Upload.AfterUpload, Download.DownloadReplies;
    hide Download.DirectoryReplies, Download.AfterInfo;
  }

  lemma TurnSends(h: Host, t: Turn)
    requires Happens(h, t)
    ensures t.effect.sent == Link.Fits(Wanted(h, t), t.before.room)
  {
    hide Serves, ServiceBytes, Parse, Link.Fits;
    ServiceSends(h, t.before.(inbound := Parse(t.before.inbound).rest), t.packet, t.faults, t.service, t.effect);
  }

  function WantedBy(h: Host, turns: seq<Turn>): seq<Byte>
    requires forall i :: 0 <= i < |turns| ==> Parse(turns[i].before.inbound).Got?
  {
    if turns == [] then [] else WantedBy(h, turns[..|turns| - 1]) + Wanted(h, turns[|turns| - 1])
  }

  lemma FitsOn(done: seq<Byte>, more: seq<Byte>, room: nat)
    ensures Link.Fits(done, room) + Link.Fits(more, room - |Link.Fits(done, room)|) == Link.Fits(done + more, room)
  {
  }

  /** The peer gets everything the turns wanted to send, or as much of it as the connection takes. */
  lemma {:induction false} TraceSends(h: Host, first: Moment, turns: seq<Turn>, last: Moment)
    requires Trace(h, first, turns, last)
    ensures forall i :: 0 <= i < |turns| ==> Parse(turns[i].before.inbound).Got?
    ensures SentBy(turns) == Link.Fits(WantedBy(h, turns), first.room)
    ensures last.room == first.room - |SentBy(turns)|
    decreases |turns|
  {
    hide Parse, Happens, Trace, Wanted, NextPath, Link.Fits;
    TraceTurns(h, first, turns, last);
    if turns == [] {
      TraceEmpty(h, first, last);
    } else {
      var n := |turns| - 1;
      TraceStep(h, first, turns, last);
      TraceSends(h, first, turns[..n], turns[n].before);
      assert forall i :: 0 <= i < n ==> turns[..n][i] == turns[i];
      TurnSends(h, turns[n]);
      FitsOn(WantedBy(h, turns[..n]), Wanted(h, turns[n]), first.room);
    }
  }
}
