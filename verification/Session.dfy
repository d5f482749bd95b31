// One client connection on the server: the request loop, the dispatch of each packet to
// its handler, the current path, and everything the loop must give back.

module Session {
  import opened Endian
  import Framing
  import Link
  import opened Messages
  import opened Paths
  import opened PathBuffers

  const MAX_TEXT_PAYLOAD: int := 4096

  // ---------- text in payloads ----------

  function Chars(b: seq<Byte>): (s: string)
    ensures |s| == |b| && forall i :: 0 <= i < |b| ==> s[i] == b[i] as char
  {
    seq(|b|, i requires 0 <= i < |b| => b[i] as char)
  }

  function Bytes(s: string): (b: seq<Byte>)
    ensures |b| == |s|
  {
    seq(|s|, i requires 0 <= i < |s| => s[i] as int % 256)
  }

  /** The argument text of a request: up to the first NUL, cut to fit a path buffer. */
  function ArgText(payload: seq<Byte>): string {
    Clip(Text(Chars(payload)), PATH_MAX)
  }

  predicate HasArg(payload: seq<Byte>) {
    0 < |payload| <= PATH_MAX && ArgText(payload) != ""
  }

  function NameText(payload: seq<Byte>): string
    requires |payload| == FILE_INFO_SIZE
  {
    ArgText(payload[..NAME_SIZE])
  }

  /** char file_name[PATH_MAX] filled by snprintf over zeros. */
  function NameField(name: string): (b: seq<Byte>)
    ensures |b| == NAME_SIZE
  {
    var text := Bytes(Clip(name, PATH_MAX));
    text + seq(NAME_SIZE - |text|, _ => 0)
  }

  /** C text as the client holds it: single-byte characters and no NUL inside. */
  predicate ByteText(t: string) {
    NUL !in t && forall i :: 0 <= i < |t| ==> t[i] as int < 256
  }

  /** Characters after the terminator of a payload do not matter. */
  lemma ArgTextIs(t: string, rest: seq<Byte>)
    requires ByteText(t) && (rest == [] || rest[0] == 0)
    ensures ArgText(Bytes(t) + rest) == Clip(t, PATH_MAX)
  {
    var s := Chars(Bytes(t) + rest);
    assert s[..|t|] == t;
    if rest == [] {
      assert s == t;
      NoTerminator(t);
    } else {
      assert s[|t|] == NUL;
      TextIs(s, t);
    }
  }

  lemma {:induction false} NoTerminator(t: string)
    requires NUL !in t
    ensures Text(t) == t
  {
    if t != [] {
      NoTerminator(t[1..]);
    }
  }

  /**
   * What is read from any payload whose first NUL is byte n, or that has none and n bytes:
   * the bytes before it, 4095 of them at most; a payload that begins with NUL has no argument.
   */
  lemma ArgumentExactly(payload: seq<Byte>, n: nat)
    requires n <= |payload| && 0 !in payload[..n] && (n < |payload| ==> payload[n] == 0)
    ensures ArgText(payload) == Chars(payload[..if n < 4096 then n else 4095])
    ensures HasArg(payload) <==> 0 < |payload| <= 4096 && n > 0
  {
    hide Text;
    var s := Chars(payload);
    NulIsZero(payload[..n]);
    assert s[..n] == Chars(payload[..n]);
    if n < |payload| {
      TextIs(s, s[..n]);
    } else {
      NoTerminator(s);
    }
  }

  /** Command arguments and file names reach the server as they were sent. */
  lemma ArgumentRoundTrip(t: string)
    requires ByteText(t) && 0 < |t| < PATH_MAX
    ensures HasArg(Bytes(t) + [0]) && ArgText(Bytes(t) + [0]) == t
    ensures ArgText(NameField(t)) == t
  {
    hide Text;
    assert Clip(t, PATH_MAX) == t;
    ArgTextIs(t, [0]);
    ArgTextIs(t, seq(NAME_SIZE - |t|, _ => 0));
  }

  /** memcpy of a payload into a zeroed buffer, whose last character is then made NUL. */
  method Load(buf: array<char>, payload: seq<Byte>)
    requires buf.Length == PATH_MAX && |payload| <= PATH_MAX
    modifies buf
    ensures Terminated(buf[..]) && Text(buf[..]) == ArgText(payload)
  {
    forall i | 0 <= i < buf.Length {
      buf[i] := if i < |payload| && i < PATH_MAX - 1 then payload[i] as char else NUL;
    }
    LoadedText(buf[..], payload);
  }

  lemma LoadedText(s: seq<char>, payload: seq<Byte>)
    requires |s| == PATH_MAX && |payload| <= PATH_MAX
    requires forall i :: 0 <= i < PATH_MAX ==>
               s[i] == if i < |payload| && i < PATH_MAX - 1 then payload[i] as char else NUL
    ensures Terminated(s) && Text(s) == ArgText(payload)
  {
    var t := ArgText(payload);
    var full := Text(Chars(payload));
    assert forall i :: 0 <= i < |t| ==> t[i] == full[i] == Chars(payload)[i] == s[i];
    assert s[..|t|] == t;
    if |full| < PATH_MAX {
      assert t == full;
      assert |t| < |payload| ==> Chars(payload)[|t|] == NUL;
    }
    TextIs(s, t);
  }

  /** copy_string_payload */
  method CopyStringPayload(box: Link.PacketBox, ghost p: Framing.Packet, buf: array<char>, allowEmpty: bool)
    returns (rc: int)
    requires box.Holds(p) && buf.Length == PATH_MAX
    modifies buf
    ensures rc == 0 || rc == -1
    ensures rc == 0 <==> HasArg(p.payload) || (allowEmpty && |p.payload| <= PATH_MAX)
    ensures rc == 0 ==> Terminated(buf[..]) && Text(buf[..]) == ArgText(p.payload)
  {
    hide Text, Terminated, Clip;
    Load(buf, []);
    if box.header.dataLen == 0 {
      return if allowEmpty then 0 else -1;
    }
    if box.payload == null || box.header.dataLen > buf.Length {
      return -1;
    }
    Load(buf, box.payload[..]);
    return if Text(buf[..]) == "" && !allowEmpty then -1 else 0;
  }

  /** extract_file_info */
  method ExtractFileInfo(h: Host, box: Link.PacketBox, ghost p: Framing.Packet, name: array<char>)
    returns (rc: int, total: U64)
    requires box.Holds(p) && name.Length == PATH_MAX && Terminated(name[..])
    modifies name
    ensures rc == 0 || rc == -1
    ensures rc == 0 <==> |p.payload| == FILE_INFO_SIZE
    ensures rc == 0 ==>
              && Terminated(name[..]) && Text(name[..]) == NameText(p.payload)
              && total == ReadU64(h, p.payload[NAME_SIZE..])
  {
    hide Text, Terminated, ReadU64;
    if box.payload == null || box.header.dataLen != FILE_INFO_SIZE {
      return -1, 0;
    }
    Load(name, box.payload[..NAME_SIZE]);
    assert box.payload[..][..NAME_SIZE] == box.payload[..NAME_SIZE];
    assert box.payload[..][NAME_SIZE..] == box.payload[NAME_SIZE..];
    return 0, ReadU64(h, box.payload[NAME_SIZE..]);
  }

  /** A text looked at through its first k characters only. */
  lemma {:induction false} TextPrefix(s: seq<char>, k: nat)
    requires k <= |s|
    ensures |Text(s)| < k <==> NUL in s[..k]
    ensures Text(s[..k]) == Text(s)[..Link.Min(|Text(s)|, k)]
  {
    if k > 0 && s[0] != NUL {
      assert s[..k][1..] == s[1..][..k - 1];
      TextPrefix(s[1..], k - 1);
    }
  }

  /**
   * extract_file_info lets snprintf scan from the start of file_name, through the size
   * and into whatever memory follows the payload, until it meets a NUL. It takes the name
   * from the field alone in any case; the scan itself ends inside the field, or inside
   * the payload, if and only if there is a NUL there.
   */
  lemma NameIsScanned(payload: seq<Byte>, beyond: seq<Byte>)
    requires |payload| == FILE_INFO_SIZE
    ensures var scanned := Text(Chars(payload + beyond));
            && Clip(scanned, PATH_MAX) == NameText(payload)
            && (|scanned| < NAME_SIZE <==> 0 in payload[..NAME_SIZE])
            && (|scanned| < FILE_INFO_SIZE <==> 0 in payload)
  {
    hide Text;
    var s := Chars(payload + beyond);
    assert s[..NAME_SIZE] == Chars(payload[..NAME_SIZE]);
    assert s[..FILE_INFO_SIZE] == Chars(payload);
    TextPrefix(s, NAME_SIZE);
    TextPrefix(s, FILE_INFO_SIZE);
    NulIsZero(payload[..NAME_SIZE]);
    NulIsZero(payload);
  }

  /** A payload of the right size without any NUL: the scan runs past its end. */
  lemma ScanOverruns(beyond: seq<Byte>)
    ensures var payload: seq<Byte> := seq(FILE_INFO_SIZE, _ => 65);
            |payload| == FILE_INFO_SIZE && |Text(Chars(payload + beyond))| >= FILE_INFO_SIZE
  {
    var payload: seq<Byte> := seq(FILE_INFO_SIZE, _ => 65);
    NameIsScanned(payload, beyond);
  }

  lemma NulIsZero(b: seq<Byte>)
    ensures NUL in Chars(b) <==> 0 in b
  {
    assert forall i :: 0 <= i < |b| ==> (Chars(b)[i] == NUL <==> b[i] == 0);
    if 0 in b {
      var i :| 0 <= i < |b| && b[i] == 0;
      assert Chars(b)[i] == NUL;
    }
  }

  // ---------- the current path over a session ----------

  /** A request as far as the current path is concerned; `found` is the outcome of opendir. */
  datatype Request = Request(cmd: U32, payload: seq<Byte>, found: bool)

  predicate Enters(path: string, r: Request) {
    r.cmd == Framing.CMD_CD && HasArg(r.payload) && Resolves(path, ArgText(r.payload)) && r.found
  }

  function NextPath(path: string, r: Request): string {
    if Enters(path, r) then Normalize(path, ArgText(r.payload)).text else path
  }

  function PathAfter(path: string, log: seq<Request>): string {
    if log == [] then path else NextPath(PathAfter(path, log[..|log| - 1]), log[|log| - 1])
  }

  /** What every session keeps of its current path. */
  predicate GoodPath(path: string) {
    Canonical(path) && |path| <= 4087
  }

  lemma NextPathKeeps(path: string, r: Request)
    requires GoodPath(path)
    ensures GoodPath(NextPath(path, r))
  {
    hide Canonical, Normalize, ArgText;
    if Enters(path, r) {
      NormalizeCanonical(path, ArgText(r.payload));
      RealFitsExactly(NextPath(path, r));
    }
  }

  /**
   * Over every session the current path is in normal form and at most 4087 characters
   * long, so its real path always fits a path buffer.
   */
  lemma {:induction false} SessionPath(log: seq<Request>)
    ensures GoodPath(PathAfter("/", log))
    ensures RealFits(PathAfter("/", log))
  {
    hide Canonical;
    if log == [] {
      RootIsCanonical();
    } else {
      SessionPath(log[..|log| - 1]);
      NextPathKeeps(PathAfter("/", log[..|log| - 1]), log[|log| - 1]);
    }
    RealFitsExactly(PathAfter("/", log));
  }

  lemma RootIsCanonical()
    ensures Canonical("/")
  {
    TokensNone();
  }

  /** The components of the arguments of the directory changes that took effect. */
  function Steps(path: string, log: seq<Request>): seq<string> {
    if log == [] then []
    else
      var front, last := log[..|log| - 1], log[|log| - 1];
      Steps(path, front) + if Enters(PathAfter(path, front), last) then Tokens(ArgText(last.payload)) else []
  }

  /** The current path is where those components lead from the root, whatever came between. */
  lemma {:induction false} SessionIsOneWalk(log: seq<Request>)
    ensures PathAfter("/", log) == Render(Walk([], Steps("/", log)))
  {
    hide Canonical, Tokens, Walk, ArgText, Render, Overflows;
    if log == [] {
      RenderRoot();
      WalkNames([]);
    } else {
      var front, last := log[..|log| - 1], log[|log| - 1];
      SessionIsOneWalk(front);
      StepsAreNames(front);
      var cs := Walk([], Steps("/", front));
      WalkIsNormal([], Steps("/", front));
      if Enters(PathAfter("/", front), last) {
        NormalizeIsWalk(cs, ArgText(last.payload));
        WalkAppend([], Steps("/", front), Tokens(ArgText(last.payload)));
      } else {
        assert Steps("/", log) == Steps("/", front);
      }
    }
  }

  lemma {:induction false} StepsAreNames(log: seq<Request>)
    ensures forall i :: 0 <= i < |Steps("/", log)| ==> Steps("/", log)[i] != "" && '/' !in Steps("/", log)[i]
  {
    hide Tokens, ArgText;
    if log != [] {
      StepsAreNames(log[..|log| - 1]);
      TokensAreNames(ArgText(log[|log| - 1].payload));
    }
  }

  // ---------- changing directory in one step and in two ----------

  /**
   * Without regard to which directories exist: a joined argument that works in one cd
   * works in two exactly if the path in the middle is short enough for its real path; two
   * that work separately work joined exactly if the merged text fits.
   */
  lemma ChangeDirFits(path: string, a: string, b: string)
    requires GoodPath(path) && Relative(a) && Relative(b)
    ensures var one := Resolves(path, a + "/" + b);
            var two := Resolves(path, a) && Resolves(Normalize(path, a).text, b);
            && (one ==> Normalize(path, a).Path? && (two <==> |Normalize(path, a).text| <= 4087))
            && (two ==> (one <==> JoinedLength(path, a, b) < PATH_MAX))
            && (one && two ==> Normalize(path, a + "/" + b) == Normalize(Normalize(path, a).text, b))
  {
    hide Normalize, Canonical, Admits;
    ChangeDirComposes(path, a, b);
    if Normalize(path, a).Path? {
      NormalizeCanonical(path, a);
      RealFitsExactly(Normalize(path, a).text);
    }
  }

  /** cd to an argument works, given the real paths of the directories that exist. */
  predicate Lands(path: string, arg: string, dirs: set<string>) {
    Resolves(path, arg) && RealPath(Normalize(path, arg).text) in dirs
  }

  /** The same with directories: one cd also asks less, because it does not look at the directory in the middle. */
  lemma ChangeDirLands(path: string, a: string, b: string, dirs: set<string>)
    requires GoodPath(path) && Relative(a) && Relative(b)
    ensures var one := Lands(path, a + "/" + b, dirs);
            var two := Lands(path, a, dirs) && Lands(Normalize(path, a).text, b, dirs);
            && (one ==>
                  && Normalize(path, a).Path?
                  && var mid := Normalize(path, a).text; (two <==> |mid| <= 4087 && RealPath(mid) in dirs))
            && (two ==> (one <==> JoinedLength(path, a, b) < PATH_MAX))
            && (one && two ==> Normalize(path, a + "/" + b) == Normalize(Normalize(path, a).text, b))
  {
    hide Normalize, Canonical, RealPath;
    ChangeDirFits(path, a, b);
    if Normalize(path, a).Path? {
      NormalizeCanonical(path, a);
      RealFitsExactly(Normalize(path, a).text);
    }
  }

  /** Landing is what a cd request of the client does when opendir tells which directories exist. */
  lemma LandsIsEnters(path: string, arg: string, dirs: set<string>)
    requires ByteText(arg) && 0 < |arg| < PATH_MAX
    ensures var found := Resolves(path, arg) && RealPath(Normalize(path, arg).text) in dirs;
            Lands(path, arg, dirs) <==> Enters(path, Request(Framing.CMD_CD, Bytes(arg) + [0], found))
  {
    hide HasArg, ArgText, Resolves, Normalize;
    ArgumentRoundTrip(arg);
  }

  /** A joined argument that works although its first part alone does not: 4090 characters in, and out again. */
  lemma StepMayNotFit()
    ensures var a := Copies(4090, 'x');
            && Resolves("/", a + "/" + "..") && Normalize("/", a + "/" + "..") == Path("/")
            && Normalize("/", a) == Path("/" + a) && !Resolves("/", a)
  {
    hide Tokens, Walk, Canonical;
    var a := Copies(4090, 'x');
    assert a[0] == 'x' && '/' !in a;
    OneName(a);
    InAndOut(a);
    assert Merge("/", a + "/" + "..") == a + "/" + "..";
    assert Merge("/", a) == a;
    RenderRoot();
  }
}
