// The request handlers of the server and the loop that feeds them, for one connection.

module Handlers {
  import opened Endian
  import opened Framing
  import opened Files
  import opened Link
  import Messages
  import Upload
  import Download
  import opened FileSystem
  import opened Paths
  import opened PathBuffers
  import opened Session

  // ---------- which files a request may change ----------

  /** Two states of the disk agree on every path but those in `paths`. */
  ghost predicate AgreeExcept(a: Store, b: Store, paths: set<string>) {
    forall p :: p !in paths ==> SameAt(a, b, p)
  }

  predicate SameAt(a: Store, b: Store, p: string) {
    && (p in a.files <==> p in b.files) && (p in a.files ==> a.files[p] == b.files[p])
    && (p in a.dirs <==> p in b.dirs) && (p in a.dirs ==> a.dirs[p] == b.dirs[p])
  }

  /** The one path on disk that a request may create, change or remove. */
  function Targets(path: string, p: Packet): set<string> {
    if p.cmd == CMD_PUTS_REQ then
      (if AcceptsPuts(path, p) then {TargetOf(path, NameText(p.payload))} else {})
    else if (p.cmd == CMD_RM || p.cmd == CMD_MKDIR) && AcceptsArg(path, p) then
      {TargetOf(path, ArgText(p.payload))}
    else {}
  }

  /** A request whose argument leads to a path on disk. */
  predicate AcceptsArg(path: string, p: Packet) {
    HasArg(p.payload) && Resolves(path, ArgText(p.payload))
  }

  predicate AcceptsPuts(path: string, p: Packet) {
    |p.payload| == Messages.FILE_INFO_SIZE && NameText(p.payload) != "" && Resolves(path, NameText(p.payload))
  }

  function TargetOf(path: string, arg: string): string
    requires Resolves(path, arg)
  {
    RealPath(Normalize(path, arg).text)
  }

  /** A path on disk that some good virtual path names. */
  ghost predicate Inside(path: string) {
    exists v :: GoodPath(v) && path == RealPath(v)
  }

  /** Nothing outside the virtual tree has changed. */
  ghost predicate Confined(a: Store, b: Store) {
    forall p :: !Inside(p) ==> SameAt(a, b, p)
  }

  lemma TargetIsInside(path: string, arg: string)
    requires Resolves(path, arg)
    ensures GoodPath(Normalize(path, arg).text)
    ensures Inside(TargetOf(path, arg))
  {
    hide Canonical, Normalize;
    NormalizeCanonical(path, arg);
    RealFitsExactly(Normalize(path, arg).text);
  }

  lemma TargetsAreInside(path: string, p: Packet, a: Store, b: Store)
    requires AgreeExcept(a, b, Targets(path, p))
    ensures Confined(a, b)
  {
    hide Resolves, TargetOf, NameText, ArgText, Inside, SameAt;
    forall t | t in Targets(path, p) ensures Inside(t) {
      if p.cmd == CMD_PUTS_REQ {
        TargetIsInside(path, NameText(p.payload));
      } else {
        TargetIsInside(path, ArgText(p.payload));
      }
    }
  }

  // ---------- sessions and replies ----------

  /** session_t */
  class Connection {
    const sock: Socket
    const currentPath: array<char>
    var shouldClose: bool

    constructor (sock: Socket)
      ensures this.sock == sock && fresh(currentPath) && !shouldClose
      ensures Valid() && Path() == "/"
    {
      this.sock := sock;
      currentPath := new char[PATH_MAX](_ => NUL);
      shouldClose := false;
      new;
      var n := PrintInto(currentPath, "/");
      assert "/"[..1] == "/";
      RootIsCanonical();
    }

    ghost function Path(): string
      reads this, currentPath
    {
      Text(currentPath[..])
    }

    ghost predicate Valid()
      reads this, currentPath
    {
      currentPath.Length == PATH_MAX && Terminated(currentPath[..]) && GoodPath(Path())
    }
  }

  /** What the peer gets when one packet is sent with so much room left, and whether that is all of it. */
  ghost predicate Delivered(before: seq<Byte>, room: nat, after: seq<Byte>, reply: Packet, ok: bool) {
    Sendable(reply) && after == before + Fits(Encode(reply), room) && (ok <==> |Encode(reply)| <= room)
  }

  /** The wording of a reply. */
  method Wording() returns (msg: seq<Byte>)
    ensures |msg| < MAX_TEXT_PAYLOAD
  {
    msg := *;
    if |msg| >= MAX_TEXT_PAYLOAD {
      msg := [];
    }
  }

  /** send_text_reply: the text goes out with its NUL. */
  method SendTextReply(sock: Socket, cmd: U32, status: U32, msg: seq<Byte>) returns (rc: int, ghost reply: Packet)
    requires |msg| < MAX_TEXT_PAYLOAD
    modifies sock
    ensures reply == Packet(cmd, status, msg + [0])
    ensures Delivered(old(sock.outbound), old(sock.room), sock.outbound, reply, rc == 0)
    ensures sock.inbound == old(sock.inbound) && sock.interrupts <= old(sock.interrupts)
    ensures sock.Capacity() == old(sock.Capacity())
  {
    reply := Packet(cmd, status, msg + [0]);
    rc := SendPacket(sock, Packet(cmd, status, msg + [0]));
  }

  // ---------- commands answered with one reply ----------

  predicate IsReply(reply: Packet, cmd: U32, status: U32) {
    reply.cmd == cmd && reply.status == status && Sendable(reply)
  }

  /** opendir succeeds and the listing fits a reply. */
  predicate Lists(s: Store, path: string, f: Faults) {
    OpensDir(s, path, f) && path !in f.listing
  }

  /** One new directory, of whatever size. */
  predicate Made(was: Store, now: Store, target: string) {
    target in now.dirs && now == WithDir(was, target, now.dirs[target])
  }

  /** handle_pwd */
  method HandlePwd(s: Connection) returns (rc: int, ghost reply: Packet)
    requires s.Valid()
    modifies s.sock
    ensures reply == Packet(CMD_ACK, STATUS_OK, Bytes(s.Path()) + [0])
    ensures Delivered(old(s.sock.outbound), old(s.sock.room), s.sock.outbound, reply, rc == 0)
    ensures s.sock.inbound == old(s.sock.inbound) && s.sock.interrupts <= old(s.sock.interrupts)
    ensures s.sock.Capacity() == old(s.sock.Capacity())
  {
    rc, reply := SendTextReply(s.sock, CMD_ACK, STATUS_OK, Bytes(Text(s.currentPath[..])));
  }

  /** handle_cd: the path changes exactly when the target resolves and is a directory that opens. */
  method HandleCd(s: Connection, arg: array<char>, disk: Disk, faults: Faults) returns (rc: int, ghost reply: Packet)
    requires s.Valid() && Terminated(arg[..]) && arg != s.currentPath
    modifies s.sock, s.currentPath
    ensures s.Valid()
    ensures var path, text := old(s.Path()), old(Text(arg[..]));
            if !Resolves(path, text) then IsReply(reply, CMD_ERROR, STATUS_BAD_REQUEST) && s.Path() == path
            else if !OpensDir(disk.store, TargetOf(path, text), faults) then
              IsReply(reply, CMD_ERROR, STATUS_NOT_FOUND) && s.Path() == path
            else IsReply(reply, CMD_ACK, STATUS_OK) && s.Path() == Normalize(path, text).text
    ensures Delivered(old(s.sock.outbound), old(s.sock.room), s.sock.outbound, reply, rc == 0)
    ensures s.sock.inbound == old(s.sock.inbound) && s.sock.interrupts <= old(s.sock.interrupts)
    ensures s.sock.Capacity() == old(s.sock.Capacity())
  {
    hide Text, Terminated, Normalize, Resolves, Canonical;
    ghost var path, text := s.Path(), Text(arg[..]);
    RootIsNotEmpty(path);
    var next := new char[PATH_MAX](_ => NUL);
    var target := new char[PATH_MAX](_ => NUL);
    var msg := Wording();
    rc := ResolveTargetPath(s.currentPath, arg, next, target);
    if rc != 0 {
      rc, reply := SendTextReply(s.sock, CMD_ERROR, STATUS_BAD_REQUEST, msg);
      return;
    }
    var opens := disk.OpenDirectory(Text(target[..]), faults);
    if !opens {
      rc, reply := SendTextReply(s.sock, CMD_ERROR, STATUS_NOT_FOUND, msg);
      return;
    }
    TargetIsInside(path, text);
    ghost var v := Text(next[..]);
    assert v[..|v|] == v;
    var n := PrintInto(s.currentPath, Text(next[..]));
    rc, reply := SendTextReply(s.sock, CMD_ACK, STATUS_OK, msg);
  }

  lemma RootIsNotEmpty(path: string)
    requires Canonical(path)
    ensures path != ""
  {
    if Tokens(path) != [] {
      FlatSlash(Tokens(path));
    }
  }

  /**
   * handle_ls. Its first branch answers that the path is too long; the contract leaves no
   * room for that answer, because the real path of a good path fits.
   */
  method HandleLs(s: Connection, disk: Disk, faults: Faults) returns (rc: int, ghost reply: Packet)
    requires s.Valid()
    modifies s.sock
    ensures if Lists(disk.store, RealPath(s.Path()), faults) then IsReply(reply, CMD_ACK, STATUS_OK)
            else IsReply(reply, CMD_ERROR, STATUS_IO_ERROR)
    ensures Delivered(old(s.sock.outbound), old(s.sock.room), s.sock.outbound, reply, rc == 0)
    ensures s.sock.inbound == old(s.sock.inbound) && s.sock.interrupts <= old(s.sock.interrupts)
    ensures s.sock.Capacity() == old(s.sock.Capacity())
  {
    hide Text, Terminated, Canonical;
    var target := new char[PATH_MAX](_ => NUL);
    RealFitsExactly(s.Path());
    var fits := BuildRealPath(s.currentPath, target);
    var cmd, status := CMD_ERROR, STATUS_BAD_REQUEST;
    if fits == 0 {
      var path := Text(target[..]);
      var opens := disk.OpenDirectory(path, faults);
      // reading the entries: too many of them for one reply is an error too
      var lists := opens && path !in faults.listing;
      cmd := if lists then CMD_ACK else CMD_ERROR;
      status := if lists then STATUS_OK else STATUS_IO_ERROR;
    }
    var msg := Wording();
    rc, reply := SendTextReply(s.sock, cmd, status, msg);
  }

  /** handle_rm: removes what the argument names, and nothing else, exactly when remove succeeds. */
  method HandleRm(s: Connection, arg: array<char>, disk: Disk, faults: Faults) returns (rc: int, ghost reply: Packet)
    requires s.Valid() && Terminated(arg[..]) && disk.Valid()
    modifies s.sock, disk
    ensures disk.Valid()
    ensures var path, text, was := s.Path(), Text(arg[..]), old(disk.store);
            if !Resolves(path, text) then IsReply(reply, CMD_ERROR, STATUS_BAD_REQUEST) && disk.store == was
            else if !Removes(was, TargetOf(path, text), faults) then
              IsReply(reply, CMD_ERROR, STATUS_IO_ERROR) && disk.store == was
            else IsReply(reply, CMD_ACK, STATUS_OK) && disk.store == Without(was, TargetOf(path, text))
    ensures Delivered(old(s.sock.outbound), old(s.sock.room), s.sock.outbound, reply, rc == 0)
    ensures s.sock.inbound == old(s.sock.inbound) && s.sock.interrupts <= old(s.sock.interrupts)
    ensures s.sock.Capacity() == old(s.sock.Capacity())
  {
    hide Text, Terminated, Normalize, Resolves, Canonical, ValidStore, Without;
    RootIsNotEmpty(s.Path());
    var next := new char[PATH_MAX](_ => NUL);
    var target := new char[PATH_MAX](_ => NUL);
    var msg := Wording();
    rc := ResolveTargetPath(s.currentPath, arg, next, target);
    if rc != 0 {
      rc, reply := SendTextReply(s.sock, CMD_ERROR, STATUS_BAD_REQUEST, msg);
      return;
    }
    var ok := disk.Remove(Text(target[..]), faults);
    var cmd, status := if ok then CMD_ACK else CMD_ERROR, if ok then STATUS_OK else STATUS_IO_ERROR;
    rc, reply := SendTextReply(s.sock, cmd, status, msg);
  }

  /** handle_mkdir: makes the directory the argument names exactly when mkdir succeeds. */
  method HandleMkdir(s: Connection, arg: array<char>, disk: Disk, faults: Faults) returns (rc: int, ghost reply: Packet)
    requires s.Valid() && Terminated(arg[..]) && disk.Valid()
    modifies s.sock, disk
    ensures disk.Valid()
    ensures var path, text, was := s.Path(), Text(arg[..]), old(disk.store);
            if !Resolves(path, text) then IsReply(reply, CMD_ERROR, STATUS_BAD_REQUEST) && disk.store == was
            else
              var target := TargetOf(path, text);
              if !MakesDir(was, target, faults) then IsReply(reply, CMD_ERROR, STATUS_IO_ERROR) && disk.store == was
              else IsReply(reply, CMD_ACK, STATUS_OK) && Made(was, disk.store, target)
    ensures Delivered(old(s.sock.outbound), old(s.sock.room), s.sock.outbound, reply, rc == 0)
    ensures s.sock.inbound == old(s.sock.inbound) && s.sock.interrupts <= old(s.sock.interrupts)
    ensures s.sock.Capacity() == old(s.sock.Capacity())
  {
    hide Text, Terminated, Normalize, Resolves, Canonical, ValidStore;
    RootIsNotEmpty(s.Path());
    var next := new char[PATH_MAX](_ => NUL);
    var target := new char[PATH_MAX](_ => NUL);
    var msg := Wording();
    rc := ResolveTargetPath(s.currentPath, arg, next, target);
    if rc != 0 {
      rc, reply := SendTextReply(s.sock, CMD_ERROR, STATUS_BAD_REQUEST, msg);
      return;
    }
    var ok := disk.MakeDirectory(Text(target[..]), faults);
    var cmd, status := if ok then CMD_ACK else CMD_ERROR, if ok then STATUS_OK else STATUS_IO_ERROR;
    rc, reply := SendTextReply(s.sock, cmd, status, msg);
  }

  // ---------- what handling a request comes to ----------

  /** What a session's future depends on. */
  datatype Moment = Moment(path: string, store: Store, inbound: seq<Byte>, room: nat, close: bool)

  ghost function Now(s: Connection, disk: Disk): Moment
    reads s, s.currentPath, s.sock, disk
  {
    Moment(s.Path(), disk.store, s.sock.inbound, s.sock.room, s.shouldClose)
  }

  /**
   * What a handler has done: the disk it leaves, the bytes it sent, the stream it has not
   * read, whether the connection is to be closed, and whether it returned 0.
   */
  datatype Effect = Effect(store: Store, sent: seq<Byte>, left: seq<Byte>, close: bool, ok: bool)

  ghost function Done(s: Connection, disk: Disk, sent: seq<Byte>, rc: int): Effect
    reads s, s.sock, disk
  {
    Effect(disk.store, sent, s.sock.inbound, s.shouldClose, rc == 0)
  }

  /** One error with this status is all that came of the request. */
  ghost predicate RefusedWith(m: Moment, reply: Packet, status: U32, e: Effect) {
    && reply.cmd == CMD_ERROR && reply.status == status && Sendable(reply)
    && e == Effect(m.store, Fits(Encode(reply), m.room), m.inbound, false, |Encode(reply)| <= m.room)
  }

  // ---------- transfers ----------

  /** A transfer request is turned down with one error, or served; gets may be asked for a directory. */
  datatype Attempt = TurnedDown(reply: Packet) | Served | OfDirectory(size: nat)

  method TurnDown(s: Connection, disk: Disk, status: U32)
    returns (rc: int, ghost attempt: Attempt, ghost sent: seq<Byte>)
    requires !s.shouldClose
    modifies s.sock
    ensures attempt.TurnedDown? && RefusedWith(old(Now(s, disk)), attempt.reply, status, Done(s, disk, sent, rc))
    ensures s.sock.outbound == old(s.sock.outbound) + sent
    ensures s.sock.Capacity() == old(s.sock.Capacity()) && s.sock.interrupts <= old(s.sock.interrupts)
  {
    var msg := Wording();
    ghost var reply;
    rc, reply := SendTextReply(s.sock, CMD_ERROR, status, msg);
    return rc, TurnedDown(reply), Fits(Encode(reply), old(s.sock.room));
  }

  /** What a served upload does. */
  ghost predicate UploadServed(h: Host, m: Moment, target: string, total: U64, env: Upload.Env, e: Effect) {
    var before := Before(m.store, target);
    var stage := Upload.Reached(h, before, total, m.room, env);
    && Upload.ValidEnv(env)
    && target in e.store.files && e.store == WithFile(m.store, target, e.store.files[target])
    && Upload.Leaves(before, total, stage, ParseAll(m.inbound), e.store.files[target], e.close)
    && e.left == Upload.AfterUpload(before, total, stage, m.inbound)
    && var replies := Upload.Replies(h, before, total, stage, ParseAll(m.inbound), env);
    && e.sent == Fits(replies, m.room) && (e.ok <==> |replies| <= m.room)
  }

  /** What an upload request comes to: turned down with an error, or served, and exactly when. */
  ghost predicate PutsOutcome(h: Host, m: Moment, p: Packet, f: Faults, attempt: Attempt, e: Effect) {
    if !AcceptsPuts(m.path, p) then
      attempt.TurnedDown? && RefusedWith(m, attempt.reply, STATUS_BAD_REQUEST, e)
    else
      var target := TargetOf(m.path, NameText(p.payload));
      if !OpensToStore(m.store, target, f) then
        attempt.TurnedDown? && RefusedWith(m, attempt.reply, STATUS_IO_ERROR, e)
      else
        attempt == Served && UploadServed(h, m, target, ReadU64(h, p.payload[Messages.NAME_SIZE..]), f.puts, e)
  }

  lemma ZerosTerminated(s: seq<char>)
    requires |s| > 0 && s[0] == NUL
    ensures Terminated(s)
  {
  }

  /** The size and the target an upload request announces, if it is acceptable. */
  method PutsTarget(h: Host, s: Connection, box: PacketBox, ghost p: Packet, target: array<char>)
    returns (rc: int, total: U64)
    requires s.Valid() && box.Holds(p) && target.Length == PATH_MAX && target != s.currentPath
    modifies target
    ensures rc == 0 <==> AcceptsPuts(s.Path(), p)
    ensures rc == 0 ==>
              && total == ReadU64(h, p.payload[Messages.NAME_SIZE..])
              && Text(target[..]) == TargetOf(s.Path(), NameText(p.payload))
  {
    hide Text, Terminated, Normalize, Resolves, Canonical, NameText, ReadU64;
    RootIsNotEmpty(s.Path());
    var name := new char[PATH_MAX](_ => NUL);
    var next := new char[PATH_MAX](_ => NUL);
    ZerosTerminated(name[..]);
    rc, total := ExtractFileInfo(h, box, p, name);
    if rc != 0 || Text(name[..]) == "" {
      return -1, total;
    }
    rc := ResolveTargetPath(s.currentPath, name, next, target);
  }

  /** Take the upload into the opened target, and close it. */
  method StoreOpened(h: Host, s: Connection, heap: Heap, kernel: Upload.Kernel, file: Upload.StoredFile, total: U64,
                     env: Upload.Env)
    returns (rc: int, ghost sent: seq<Byte>)
    requires !s.shouldClose && Upload.ValidEnv(env)
    requires file !in kernel.open && file.data !in kernel.mapped && |file.Content()| < OFF_T_LIMIT
    modifies s`shouldClose, s.sock, heap, kernel, file, file.data
    ensures var before := old(file.Content());
            var stage := Upload.Reached(h, before, total, old(s.sock.room), env);
            var ps := ParseAll(old(s.sock.inbound));
            var replies := Upload.Replies(h, before, total, stage, ps, env);
            && Upload.Leaves(before, total, stage, ps, file.Content(), s.shouldClose)
            && s.sock.inbound == Upload.AfterUpload(before, total, stage, old(s.sock.inbound))
            && sent == Fits(replies, old(s.sock.room)) && (rc == 0 <==> |replies| <= old(s.sock.room))
    ensures |file.Content()| < OFF_T_LIMIT
    ensures s.sock.outbound == old(s.sock.outbound) + sent
    ensures kernel.open == old(kernel.open) && kernel.mapped == old(kernel.mapped) && heap.live == old(heap.live)
    ensures s.sock.Capacity() == old(s.sock.Capacity()) && s.sock.interrupts <= old(s.sock.interrupts)
  {
    hide ParseAll, Upload.Leaves, Upload.Reached, Upload.Replies, Upload.AfterUpload, Fits;
    ghost var before, ps := file.Content(), ParseAll(s.sock.inbound);
    ghost var stage := Upload.Reached(h, before, total, s.sock.room, env);
    sent := Fits(Upload.Replies(h, before, total, stage, ps, env), s.sock.room);
    var close;
    rc, close := Upload.HandlePuts(h, s.sock, heap, kernel, file, total, env);
    Upload.LeavesLength(h, before, total, old(s.sock.room), env, ps, file.Content(), close);
    s.shouldClose := close;
  }

  /** Open the target, take the upload and close the target. */
  method StoreAt(h: Host, s: Connection, heap: Heap, kernel: Upload.Kernel, disk: Disk, path: string, total: U64,
                 faults: Faults)
    returns (rc: int, ghost attempt: Attempt, ghost sent: seq<Byte>)
    requires !s.shouldClose && disk.Valid() && ValidFaults(faults)
    modifies s`shouldClose, s.sock, heap, kernel, disk
    ensures disk.Valid()
    ensures if OpensToStore(old(disk.store), path, faults) then
              attempt == Served && UploadServed(h, old(Now(s, disk)), path, total, faults.puts, Done(s, disk, sent, rc))
            else
              && attempt.TurnedDown?
              && RefusedWith(old(Now(s, disk)), attempt.reply, STATUS_IO_ERROR, Done(s, disk, sent, rc))
    ensures s.sock.outbound == old(s.sock.outbound) + sent
    ensures kernel.open == old(kernel.open) && kernel.mapped == old(kernel.mapped) && heap.live == old(heap.live)
    ensures s.sock.Capacity() == old(s.sock.Capacity()) && s.sock.interrupts <= old(s.sock.interrupts)
  {
    hide ParseAll, RefusedWith, Upload.Leaves, Upload.Reached, Upload.Replies, Upload.AfterUpload, Fits, Text;
    var file := disk.OpenToStore(path, faults);
    if file == null {
      rc, attempt, sent := TurnDown(s, disk, STATUS_IO_ERROR);
      return;
    }
    attempt := Served;
    rc, sent := StoreOpened(h, s, heap, kernel, file, total, faults.puts);
    disk.Release(path, file);
  }

  /** handle_puts from the request packet to the last reply. */
  method HandlePuts(h: Host, s: Connection, heap: Heap, kernel: Upload.Kernel, disk: Disk, box: PacketBox,
                    ghost p: Packet, faults: Faults)
    returns (rc: int, ghost attempt: Attempt, ghost sent: seq<Byte>)
    requires s.Valid() && !s.shouldClose && disk.Valid() && ValidFaults(faults) && box.Holds(p)
    modifies s`shouldClose, s.sock, heap, kernel, disk
    ensures disk.Valid()
    ensures PutsOutcome(h, old(Now(s, disk)), p, faults, attempt, Done(s, disk, sent, rc))
    ensures s.sock.outbound == old(s.sock.outbound) + sent
    ensures kernel.open == old(kernel.open) && kernel.mapped == old(kernel.mapped) && heap.live == old(heap.live)
    ensures s.sock.Capacity() == old(s.sock.Capacity()) && s.sock.interrupts <= old(s.sock.interrupts)
  {
    hide Text, Terminated, Canonical, AcceptsPuts, TargetOf, NameText, ReadU64, RefusedWith, UploadServed, OpensToStore;
    var target := new char[PATH_MAX](_ => NUL);
    var total;
    rc, total := PutsTarget(h, s, box, p, target);
    if rc != 0 {
      rc, attempt, sent := TurnDown(s, disk, STATUS_BAD_REQUEST);
      return;
    }
    rc, attempt, sent := StoreAt(h, s, heap, kernel, disk, Text(target[..]), total, faults);
  }

  /** What a served download does; an unusable answer, or a block that does not go out, closes the connection. */
  ghost predicate DownloadServed(h: Host, m: Moment, f: File, name: string, e: Effect) {
    var answer := Parse(m.inbound);
    var answered := Download.GivesPosition(answer);
    && |f| < OFF_T_LIMIT && e.store == m.store
    && e.left == Download.AfterInfo(|Encode(Download.Info(h, NameField(name), |f|))|, m.room, m.inbound)
    && var replies := Download.DownloadReplies(h, f, NameField(name), answer);
    && e.sent == Fits(replies, m.room) && (e.ok <==> answered && |replies| <= m.room)
    && (e.close <==> !answered || |replies| - |Encode(Download.FILE_END_PACKET)| > m.room)
  }

  /** What a download of a directory does: its size can be announced, but nothing of it can be sent. */
  ghost predicate Announced(h: Host, m: Moment, size: nat, name: string, e: Effect) {
    && size < OFF_T_LIMIT && e.store == m.store
    && var answer, info := Parse(m.inbound), Encode(Download.Info(h, NameField(name), size));
    && e.left == Download.AfterInfo(|info|, m.room, m.inbound)
    && var atEnd := Download.GivesPosition(answer) && Download.ResumePoint(h, answer.packet, size) == size;
    var replies := Download.DirectoryReplies(h, size, NameField(name), answer);
    && e.sent == Fits(replies, m.room) && (e.ok <==> atEnd && |replies| <= m.room)
    && (e.close <==> !atEnd || |info| > m.room)
  }

  /** What a download request comes to: turned down, and why, or served, and exactly when. */
  ghost predicate GetsOutcome(h: Host, m: Moment, arg: string, f: Faults, attempt: Attempt, e: Effect) {
    if !Resolves(m.path, arg) then
      attempt.TurnedDown? && RefusedWith(m, attempt.reply, STATUS_BAD_REQUEST, e)
    else
      var target := TargetOf(m.path, arg);
      if !OpensToSend(m.store, target, f) then
        attempt.TurnedDown? && RefusedWith(m, attempt.reply, STATUS_NOT_FOUND, e)
      else if target in f.stat then
        attempt.TurnedDown? && RefusedWith(m, attempt.reply, STATUS_IO_ERROR, e)
      else if target in m.store.files then
        attempt == Served && DownloadServed(h, m, m.store.files[target], arg, e)
      else
        attempt == OfDirectory(m.store.dirs[target]) && Announced(h, m, m.store.dirs[target], arg, e)
  }

  /** What open and fstat find at a path; a descriptor stands for a directory too. */
  datatype Opened =
    | NotOpened(status: U32)
    | OpenedFile(file: Upload.StoredFile)
    | OpenedDirectory(dir: Upload.StoredFile, size: nat)

  /** open and fstat on what is to be sent; the descriptor is closed again if fstat fails. */
  method OpenStored(kernel: Upload.Kernel, disk: Disk, path: string, faults: Faults) returns (r: Opened)
    requires disk.Valid()
    modifies kernel
    ensures kernel.open == old(kernel.open) && kernel.mapped == old(kernel.mapped)
    ensures r == NotOpened(STATUS_NOT_FOUND) <==> !OpensToSend(disk.store, path, faults)
    ensures r == NotOpened(STATUS_IO_ERROR) <==> OpensToSend(disk.store, path, faults) && path in faults.stat
    ensures OpensToSend(disk.store, path, faults) && path !in faults.stat ==>
              if path in disk.store.files then
                && r.OpenedFile? && fresh(r.file) && r.file.Content() == disk.store.files[path]
                && r.file !in kernel.open && |r.file.Content()| < OFF_T_LIMIT
              else
                && r.OpenedDirectory? && fresh(r.dir) && r.size == disk.store.dirs[path] < OFF_T_LIMIT
                && r.dir !in kernel.open
  {
    var file := disk.OpenToSend(path, faults);
    if file == null {
      return NotOpened(STATUS_NOT_FOUND);
    }
    if path in faults.stat {
      kernel.Open(file);
      kernel.Close(file);
      return NotOpened(STATUS_IO_ERROR);
    }
    return if path in disk.store.files then OpenedFile(file) else OpenedDirectory(file, disk.store.dirs[path]);
  }

  /** Send an opened file, and close it. */
  method SendStored(h: Host, s: Connection, heap: Heap, kernel: Upload.Kernel, file: Upload.StoredFile, name: string,
                    ghost disk: Disk)
    returns (rc: int, ghost sent: seq<Byte>)
    requires !s.shouldClose && file !in kernel.open && |file.Content()| < OFF_T_LIMIT
    modifies s`shouldClose, s.sock, heap, kernel
    ensures DownloadServed(h, old(Now(s, disk)), file.Content(), name, Done(s, disk, sent, rc))
    ensures s.sock.outbound == old(s.sock.outbound) + sent
    ensures kernel.open == old(kernel.open) && kernel.mapped == old(kernel.mapped) && heap.live == old(heap.live)
    ensures s.sock.Capacity() == old(s.sock.Capacity()) && s.sock.interrupts <= old(s.sock.interrupts)
  {
    hide Parse, Fits, NameField, Encode, EncodeAll, Text, Download.Blocks, Download.Info, Download.AfterInfo;
    ghost var answer := Parse(s.sock.inbound);
    if Download.GivesPosition(answer) {
      Download.EndLength(Download.Blocks(file.Content(), Download.ResumePoint(h, answer.packet, |file.Content()|)));
    }
    var close;
    sent := Fits(Download.DownloadReplies(h, file.Content(), NameField(name), Parse(s.sock.inbound)), s.sock.room);
    rc, close := Download.HandleGets(h, s.sock, heap, kernel, file, NameField(name));
    s.shouldClose := close;
  }

  /** Announce an opened directory, and close it. */
  method SendDirectory(h: Host, s: Connection, heap: Heap, kernel: Upload.Kernel, dir: Upload.StoredFile, size: nat,
                       name: string, ghost disk: Disk)
    returns (rc: int, ghost sent: seq<Byte>)
    requires !s.shouldClose && dir !in kernel.open && size < OFF_T_LIMIT
    modifies s`shouldClose, s.sock, heap, kernel
    ensures Announced(h, old(Now(s, disk)), size, name, Done(s, disk, sent, rc))
    ensures s.sock.outbound == old(s.sock.outbound) + sent
    ensures kernel.open == old(kernel.open) && kernel.mapped == old(kernel.mapped) && heap.live == old(heap.live)
    ensures s.sock.Capacity() == old(s.sock.Capacity()) && s.sock.interrupts <= old(s.sock.interrupts)
  {
    hide Parse, Fits, NameField, Encode, Text, Download.Info, Download.AfterInfo, Download.DirectoryReplies;
    var close;
    sent := Fits(Download.DirectoryReplies(h, size, NameField(name), Parse(s.sock.inbound)), s.sock.room);
    kernel.Open(dir);
    rc, close := Download.HandleGetsDirectory(h, s.sock, heap, size, NameField(name));
    kernel.Close(dir);
    s.shouldClose := close;
  }

  /** handle_gets */
  method HandleGets(h: Host, s: Connection, heap: Heap, kernel: Upload.Kernel, disk: Disk, arg: array<char>,
                    faults: Faults)
    returns (rc: int, ghost attempt: Attempt, ghost sent: seq<Byte>)
    requires s.Valid() && !s.shouldClose && disk.Valid() && Terminated(arg[..])
    modifies s`shouldClose, s.sock, heap, kernel
    ensures GetsOutcome(h, old(Now(s, disk)), Text(arg[..]), faults, attempt, Done(s, disk, sent, rc))
    ensures s.sock.outbound == old(s.sock.outbound) + sent
    ensures kernel.open == old(kernel.open) && kernel.mapped == old(kernel.mapped) && heap.live == old(heap.live)
    ensures s.sock.Capacity() == old(s.sock.Capacity()) && s.sock.interrupts <= old(s.sock.interrupts)
  {
    hide Text, Terminated, Normalize, Resolves, Canonical, RefusedWith, DownloadServed, Announced, OpensToSend;
    hide ValidStore;
    var name := Text(arg[..]);
    RootIsNotEmpty(s.Path());
    var next := new char[PATH_MAX](_ => NUL);
    var target := new char[PATH_MAX](_ => NUL);
    rc := ResolveTargetPath(s.currentPath, arg, next, target);
    if rc != 0 {
      rc, attempt, sent := TurnDown(s, disk, STATUS_BAD_REQUEST);
      return;
    }
    var what := OpenStored(kernel, disk, Text(target[..]), faults);
    match what
    case NotOpened(status) =>
      rc, attempt, sent := TurnDown(s, disk, status);
    case OpenedFile(file) =>
      attempt := Served;
      rc, sent := SendStored(h, s, heap, kernel, file, name, disk);
    case OpenedDirectory(dir, size) =>
      attempt := OfDirectory(size);
      rc, sent := SendDirectory(h, s, heap, kernel, dir, size, name, disk);
  }

  // ---------- dispatch ----------

  predicate Known(cmd: U32) {
    cmd in {CMD_PWD, CMD_LS, CMD_CD, CMD_RM, CMD_MKDIR, CMD_PUTS_REQ, CMD_GETS_REQ}
  }

  predicate TakesPath(cmd: U32) {
    cmd in {CMD_CD, CMD_RM, CMD_MKDIR, CMD_GETS_REQ}
  }

  /** The one packet that answers a request, and what has become of the disk: determined by both and the faults. */
  ghost predicate Answers(path: string, p: Packet, f: Faults, reply: Packet, was: Store, now: Store) {
    if TakesPath(p.cmd) && !AcceptsArg(path, p) then
      IsReply(reply, CMD_ERROR, STATUS_BAD_REQUEST) && now == was
    else if p.cmd == CMD_PWD then reply == Packet(CMD_ACK, STATUS_OK, Bytes(path) + [0]) && now == was
    else if p.cmd == CMD_LS then
      && now == was
      && if Lists(was, RealPath(path), f) then IsReply(reply, CMD_ACK, STATUS_OK)
         else IsReply(reply, CMD_ERROR, STATUS_IO_ERROR)
    else if p.cmd == CMD_CD then
      && now == was
      && if Found(path, p, f, was) then IsReply(reply, CMD_ACK, STATUS_OK)
         else IsReply(reply, CMD_ERROR, STATUS_NOT_FOUND)
    else if p.cmd == CMD_MKDIR then
      var target := TargetOf(path, ArgText(p.payload));
      if MakesDir(was, target, f) then IsReply(reply, CMD_ACK, STATUS_OK) && Made(was, now, target)
      else IsReply(reply, CMD_ERROR, STATUS_IO_ERROR) && now == was
    else if p.cmd == CMD_RM then
      var target := TargetOf(path, ArgText(p.payload));
      if Removes(was, target, f) then IsReply(reply, CMD_ACK, STATUS_OK) && now == Without(was, target)
      else IsReply(reply, CMD_ERROR, STATUS_IO_ERROR) && now == was
    else !Known(p.cmd) && IsReply(reply, CMD_ERROR, STATUS_PROTOCOL_ERROR) && now == was
  }

  /** The outcome of the opendir that a cd makes. */
  predicate Found(path: string, p: Packet, f: Faults, s: Store) {
    AcceptsArg(path, p) && OpensDir(s, TargetOf(path, ArgText(p.payload)), f)
  }

  /** How a request was served. */
  datatype Service = Reply(reply: Packet) | PutsServed(attempt: Attempt) | GetsServed(attempt: Attempt)

  /** Everything a request does: to the disk, to the peer, and to the connection. */
  ghost predicate Serves(h: Host, m: Moment, p: Packet, f: Faults, service: Service, e: Effect) {
    match service
    case Reply(reply) =>
      && Answers(m.path, p, f, reply, m.store, e.store) && (e.close <==> !Known(p.cmd))
      && Sendable(reply) && e.sent == Fits(Encode(reply), m.room) && (e.ok <==> |Encode(reply)| <= m.room)
      && e.left == m.inbound
    case PutsServed(attempt) =>
      p.cmd == CMD_PUTS_REQ && PutsOutcome(h, m, p, f, attempt, e)
    case GetsServed(attempt) =>
      p.cmd == CMD_GETS_REQ && HasArg(p.payload) && GetsOutcome(h, m, ArgText(p.payload), f, attempt, e)
  }

  /** No file or directory but the target of a request changes. */
  lemma ServesTouches(h: Host, m: Moment, p: Packet, f: Faults, service: Service, e: Effect)
    requires Serves(h, m, p, f, service, e)
    ensures AgreeExcept(m.store, e.store, Targets(m.path, p))
  {
    hide AcceptsPuts, Resolves, HasArg, ArgText, NameText, TargetOf, ReadU64, Encode, Fits, Parse, ParseAll;
    hide Upload.Leaves, Upload.Reached, Upload.Replies, Download.DownloadReplies, Download.DirectoryReplies;
  }

  /** The commands whose argument is the text of the payload. */
  method HandleWithArg(s: Connection, disk: Disk, ghost p: Packet, cmd: U32, arg: array<char>, faults: Faults)
    returns (rc: int, ghost reply: Packet)
    requires s.Valid() && disk.Valid() && Terminated(arg[..]) && arg != s.currentPath
    requires cmd == p.cmd && cmd in {CMD_CD, CMD_RM, CMD_MKDIR}
    requires HasArg(p.payload) && Text(arg[..]) == ArgText(p.payload)
    modifies s.sock, s.currentPath, disk
    ensures s.Valid() && disk.Valid()
    ensures s.Path() == NextPath(old(s.Path()), RequestOf(old(s.Path()), p, faults, old(disk.store)))
    ensures Answers(old(s.Path()), p, faults, reply, old(disk.store), disk.store)
    ensures Delivered(old(s.sock.outbound), old(s.sock.room), s.sock.outbound, reply, rc == 0)
    ensures s.sock.inbound == old(s.sock.inbound) && s.sock.interrupts <= old(s.sock.interrupts)
    ensures s.sock.Capacity() == old(s.sock.Capacity())
  {
    hide Text, Terminated, Normalize, Resolves, Canonical, TargetOf, HasArg, ArgText, Encode, Fits;
    if cmd == CMD_CD {
      rc, reply := HandleCd(s, arg, disk, faults);
    } else if cmd == CMD_RM {
      rc, reply := HandleRm(s, arg, disk, faults);
    } else {
      rc, reply := HandleMkdir(s, arg, disk, faults);
    }
  }

  /** A request with what opendir says of it. */
  function RequestOf(path: string, p: Packet, f: Faults, s: Store): Request {
    Request(p.cmd, p.payload, Found(path, p, f, s))
  }

  /** The requests that carry a text argument. */
  method DispatchArgument(h: Host, s: Connection, heap: Heap, kernel: Upload.Kernel, disk: Disk, box: PacketBox,
                          ghost p: Packet, faults: Faults)
    returns (rc: int, ghost service: Service, ghost sent: seq<Byte>)
    requires s.Valid() && !s.shouldClose && disk.Valid() && box.Holds(p) && TakesPath(p.cmd)
    modifies s`shouldClose, s.sock, s.currentPath, heap, kernel, disk
    ensures s.Valid() && disk.Valid()
    ensures s.Path() == NextPath(old(s.Path()), RequestOf(old(s.Path()), p, faults, old(disk.store)))
    ensures Serves(h, old(Now(s, disk)), p, faults, service, Done(s, disk, sent, rc))
    ensures s.sock.outbound == old(s.sock.outbound) + sent
    ensures kernel.open == old(kernel.open) && kernel.mapped == old(kernel.mapped) && heap.live == old(heap.live)
    ensures s.sock.Capacity() == old(s.sock.Capacity()) && s.sock.interrupts <= old(s.sock.interrupts)
  {
    hide Text, Terminated, Canonical, Normalize, Resolves, TargetOf, HasArg, ArgText, Encode, Fits, GetsOutcome;
    ghost var reply;
    var arg := new char[PATH_MAX](_ => NUL);
    rc := CopyStringPayload(box, p, arg, false);
    if rc != 0 {
      var msg := Wording();
      rc, reply := SendTextReply(s.sock, CMD_ERROR, STATUS_BAD_REQUEST, msg);
    } else if box.header.cmd == CMD_GETS_REQ {
      ghost var attempt;
      rc, attempt, sent := HandleGets(h, s, heap, kernel, disk, arg, faults);
      service := GetsServed(attempt);
      return;
    } else {
      rc, reply := HandleWithArg(s, disk, p, box.header.cmd, arg, faults);
    }
    service, sent := Reply(reply), Fits(Encode(reply), old(s.sock.room));
  }

  /**
   * dispatch_command. Each request is served as Serves says, the path moves as NextPath
   * says, and whatever memory, descriptors and mappings the handler took have been given
   * back.
   */
  method DispatchCommand(h: Host, s: Connection, heap: Heap, kernel: Upload.Kernel, disk: Disk, box: PacketBox,
                         ghost p: Packet, faults: Faults)
    returns (rc: int, ghost service: Service, ghost sent: seq<Byte>)
    requires s.Valid() && !s.shouldClose && disk.Valid() && ValidFaults(faults) && box.Holds(p)
    modifies s`shouldClose, s.sock, s.currentPath, heap, kernel, disk
    ensures s.Valid() && disk.Valid()
    ensures s.Path() == NextPath(old(s.Path()), RequestOf(old(s.Path()), p, faults, old(disk.store)))
    ensures Serves(h, old(Now(s, disk)), p, faults, service, Done(s, disk, sent, rc))
    ensures s.sock.outbound == old(s.sock.outbound) + sent
    ensures kernel.open == old(kernel.open) && kernel.mapped == old(kernel.mapped) && heap.live == old(heap.live)
    ensures s.sock.Capacity() == old(s.sock.Capacity()) && s.sock.interrupts <= old(s.sock.interrupts)
  {
    hide Text, Terminated, Canonical, Normalize, Resolves, TargetOf, HasArg, ArgText, Encode, Fits, PutsOutcome;
    hide GetsOutcome;
    ghost var reply;
    var cmd := box.header.cmd;
    if cmd == CMD_PWD {
      rc, reply := HandlePwd(s);
    } else if cmd == CMD_LS {
      rc, reply := HandleLs(s, disk, faults);
    } else if cmd == CMD_PUTS_REQ {
      ghost var attempt;
      rc, attempt, sent := HandlePuts(h, s, heap, kernel, disk, box, p, faults);
      service := PutsServed(attempt);
      return;
    } else if cmd == CMD_CD || cmd == CMD_RM || cmd == CMD_MKDIR || cmd == CMD_GETS_REQ {
      rc, service, sent := DispatchArgument(h, s, heap, kernel, disk, box, p, faults);
      return;
    } else {
      s.shouldClose := true;
      var msg := Wording();
      rc, reply := SendTextReply(s.sock, CMD_ERROR, STATUS_PROTOCOL_ERROR, msg);
    }
    service, sent := Reply(reply), Fits(Encode(reply), old(s.sock.room));
  }

  // ---------- whole sessions ----------

  /** One turn of the request loop, under the faults of its moment. */
  datatype Turn = Turn(before: Moment, faults: Faults, packet: Packet, service: Service, effect: Effect)

  function TurnRequest(t: Turn): Request {
    RequestOf(t.before.path, t.packet, t.faults, t.before.store)
  }

  /** The turn takes the packet at the front of the stream and serves it. */
  ghost predicate Happens(h: Host, t: Turn) {
    var next := Parse(t.before.inbound);
    && next.Got? && next.packet == t.packet && !t.before.close
    && Serves(h, t.before.(inbound := next.rest), t.packet, t.faults, t.service, t.effect)
    && |t.effect.sent| <= t.before.room
  }

  /** Where a turn leaves the session. */
  function After(t: Turn): Moment
    requires |t.effect.sent| <= t.before.room
  {
    Moment(NextPath(t.before.path, TurnRequest(t)), t.effect.store, t.effect.left, t.before.room - |t.effect.sent|,
           t.effect.close)
  }

  /** A session so far: each turn starts where the one before it ended. */
  ghost predicate Trace(h: Host, first: Moment, turns: seq<Turn>, last: Moment) {
    if turns == [] then first == last
    else
      var t := turns[|turns| - 1];
      Happens(h, t) && After(t) == last && Trace(h, first, turns[..|turns| - 1], t.before)
  }

  function Requests(turns: seq<Turn>): (log: seq<Request>)
    ensures |log| == |turns|
  {
    seq(|turns|, i requires 0 <= i < |turns| => TurnRequest(turns[i]))
  }

  function SentBy(turns: seq<Turn>): seq<Byte> {
    if turns == [] then [] else SentBy(turns[..|turns| - 1]) + turns[|turns| - 1].effect.sent
  }

  lemma TraceGrows(h: Host, first: Moment, turns: seq<Turn>, t: Turn)
    requires Trace(h, first, turns, t.before) && Happens(h, t)
    ensures Trace(h, first, turns + [t], After(t))
    ensures SentBy(turns + [t]) == SentBy(turns) + t.effect.sent
  {
    assert (turns + [t])[..|turns|] == turns;
  }

  /** Nothing more is served: the connection closes, no packet comes, or the last reply was lost. */
  predicate Over(turns: seq<Turn>, last: Moment) {
    last.close || !Parse(last.inbound).Got? || (turns != [] && !turns[|turns| - 1].effect.ok)
  }

  /** Each turn meets the faults of its place in the session. */
  predicate UnderWeather(turns: seq<Turn>, weather: nat -> Faults) {
    forall i :: 0 <= i < |turns| ==> turns[i].faults == weather(i)
  }

  lemma NoWeather(weather: nat -> Faults)
    ensures UnderWeather([], weather)
  {
  }

  lemma WeatherGrows(turns: seq<Turn>, t: Turn, weather: nat -> Faults)
    requires UnderWeather(turns, weather) && t.faults == weather(|turns|)
    ensures UnderWeather(turns + [t], weather)
  {
  }

  /** The body of the request loop: false means that the loop is left. */
  method TakeTurn(h: Host, s: Connection, heap: Heap, kernel: Upload.Kernel, disk: Disk, box: PacketBox, faults: Faults)
    returns (goOn: bool, ghost turn: Turn)
    requires s.Valid() && !s.shouldClose && disk.Valid() && ValidFaults(faults)
    modifies s`shouldClose, s.sock, s.currentPath, heap, kernel, disk, box
    ensures s.Valid() && disk.Valid()
    ensures var was := old(Now(s, disk));
            if Parse(was.inbound).Got? then
              && Happens(h, turn) && turn.before == was && turn.faults == faults && Now(s, disk) == After(turn)
              && s.sock.outbound == old(s.sock.outbound) + turn.effect.sent
              && (goOn <==> turn.effect.ok || turn.effect.close)
            else
              && !goOn && s.sock.outbound == old(s.sock.outbound)
              && Now(s, disk) == was.(inbound := AfterPacket(was.inbound))
    ensures kernel.open == old(kernel.open) && kernel.mapped == old(kernel.mapped) && heap.live == old(heap.live)
  {
    hide Text, Terminated, Canonical, Parse, NextPath, Serves, Happens, AfterPacket;
    ghost var before := Now(s, disk);
    var rc := RecvPacket(s.sock, heap, box);
    if rc != 0 {
      turn := *;
      return false, turn;
    }
    ghost var p := Parse(before.inbound).packet;
    ghost var service, sent;
    rc, service, sent := DispatchCommand(h, s, heap, kernel, disk, box, p, faults);
    turn := Turn(before, faults, p, service, Done(s, disk, sent, rc));
    TurnHappens(h, turn);
    if rc != 0 && !s.shouldClose {
      FreePacket(heap, box);
      return false, turn;
    }
    FreePacket(heap, box);
    return true, turn;
  }

  /**
   * handle_request. Terminates whatever the peer sends, because every turn shortens the
   * stream. What it does is a trace of turns, each serving the next packet, until the
   * connection closes, the stream holds no further packet or a reply could not be sent;
   * the peer gets what the turns sent and nothing else. At the end every payload block
   * has been freed, every file closed and every mapping removed. `weather` gives the
   * faults of each turn.
   */
  method HandleRequest(h: Host, s: Connection?, heap: Heap, kernel: Upload.Kernel, disk: Disk, weather: nat -> Faults)
    returns (rc: int, ghost turns: seq<Turn>, ghost last: Moment)
    requires s != null ==> s.Valid()
    requires disk.Valid() && forall i: nat :: ValidFaults(weather(i))
    modifies if s != null then {s, s.sock, s.currentPath, heap, kernel, disk} else {}
    ensures rc == if s == null then -1 else 0
    ensures s != null ==>
              && s.Valid() && Trace(h, old(Now(s, disk)), turns, last) && Over(turns, last)
              && s.sock.outbound == old(s.sock.outbound) + SentBy(turns)
              && Now(s, disk) == last.(inbound := LeftBehind(turns, last))
    ensures UnderWeather(turns, weather)
    ensures disk.Valid()
    ensures kernel.open == old(kernel.open) && kernel.mapped == old(kernel.mapped) && heap.live == old(heap.live)
  {
    hide Text, Terminated, Canonical, Parse, Trace, Happens, SentBy, AfterPacket, ValidFaults, ValidStore;
    hide UnderWeather, After;
    NoWeather(weather);
    turns := [];
    if s == null {
      last := Moment("", disk.store, [], 0, false);
      return -1, turns, last;
    }
    ghost var first := Now(s, disk);
    last := first;
    TraceStarts(h, first);
    var box := new PacketBox();
    var n := 0;
    while !s.shouldClose
      invariant n == |turns| && UnderWeather(turns, weather)
      invariant s.Valid() && disk.Valid()
      invariant Trace(h, first, turns, last) && last == Now(s, disk)
      invariant last.close || turns == [] || turns[|turns| - 1].effect.ok
      invariant s.sock.outbound == old(s.sock.outbound) + SentBy(turns)
      invariant kernel.open == old(kernel.open) && kernel.mapped == old(kernel.mapped) && heap.live == old(heap.live)
      decreases |s.sock.inbound|
    {
      ghost var turn;
      var goOn;
      goOn, turn := TakeTurn(h, s, heap, kernel, disk, box, weather(n));
      if Parse(last.inbound).Got? {
        TurnShortens(h, turn);
        TraceGrows(h, first, turns, turn);
        WeatherGrows(turns, turn, weather);
        turns, last := turns + [turn], After(turn);
      }
      if !goOn {
        break;
      }
      n := n + 1;
    }
    rc := 0;
  }

  /** After the loop one failed recv_packet has been tried, unless the last turn ended the session. */
  function LeftBehind(turns: seq<Turn>, last: Moment): seq<Byte> {
    if last.close || (turns != [] && !turns[|turns| - 1].effect.ok) then last.inbound else AfterPacket(last.inbound)
  }

  /** A turn takes at least its own packet from the stream. */
  lemma TurnShortens(h: Host, t: Turn)
    requires Happens(h, t)
    ensures |t.effect.left| < |t.before.inbound| && |t.effect.sent| <= t.before.room
    ensures After(t).close == t.effect.close && After(t).inbound == t.effect.left
  {
    hide Parse, ReadU64, Encode, Fits, AcceptsPuts, TargetOf, NameText, ArgText, Resolves, Answers, HasArg, ParseAll;
    hide Upload.Leaves, Upload.Reached, Upload.Replies, Download.DownloadReplies, Download.DirectoryReplies, NextPath;
  }

  lemma TraceStarts(h: Host, first: Moment)
    ensures Trace(h, first, [], first) && SentBy([]) == []
  {
  }

  lemma TurnHappens(h: Host, t: Turn)
    requires Parse(t.before.inbound).Got? && Parse(t.before.inbound).packet == t.packet && !t.before.close
    requires Serves(h, t.before.(inbound := Parse(t.before.inbound).rest), t.packet, t.faults, t.service, t.effect)
    requires |t.effect.sent| <= t.before.room
    ensures Happens(h, t)
  {
    hide Serves;
  }
}
