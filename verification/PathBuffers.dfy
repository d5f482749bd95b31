// Path handling as the C code does it: fixed buffers of NUL-terminated text, cut into
// tokens and edited in place. Refines the component stacks of module Paths.

module PathBuffers {
  import opened Paths

  const NUL: char := '\0'

  // ---------- NUL-terminated text ----------

  /** The C string stored in a buffer: what precedes the first NUL. */
  function Text(s: seq<char>): (t: string)
    ensures |t| <= |s| && t == s[..|t|] && NUL !in t
    ensures |t| < |s| ==> s[|t|] == NUL
  {
    if s == [] || s[0] == NUL then []
    else
      var t := [s[0]] + Text(s[1..]);
      assert t == s[..|t|];
      t
  }

  predicate Terminated(s: seq<char>) {
    NUL in s
  }

  lemma TextLength(s: seq<char>)
    ensures |Text(s)| < |s| <==> Terminated(s)
  {
    if |Text(s)| == |s| {
      assert Text(s) == s;
    }
  }

  /** A text is recognised by its characters and its terminator. */
  lemma {:induction false} TextIs(s: seq<char>, t: string)
    requires |t| < |s| && s[..|t|] == t && s[|t|] == NUL && NUL !in t
    ensures Text(s) == t && Terminated(s)
  {
    if t != [] {
      assert s[0] == t[0];
      assert s[1..][..|t| - 1] == s[..|t|][1..];
      TextIs(s[1..], t[1..]);
    }
  }

  /** The text that starts inside another. */
  lemma TextSuffix(s: seq<char>, k: nat)
    requires Terminated(s) && k <= |Text(s)|
    ensures Text(s[k..]) == Text(s)[k..] && Terminated(s[k..])
  {
    TextLength(s);
    var t := Text(s)[k..];
    assert s[k..][..|t|] == t;
    assert s[k..][|t|] == s[|Text(s)|];
    assert forall i :: 0 <= i < |t| ==> t[i] == Text(s)[k + i];
    TextIs(s[k..], t);
  }

  /** A NUL met while reading a text is its end. */
  lemma NulEnds(s: seq<char>, i: nat)
    requires i <= |Text(s)| < |s| && s[i] == NUL
    ensures i == |Text(s)|
  {
    assert forall j :: 0 <= j < |Text(s)| ==> s[j] == Text(s)[j] != NUL;
  }

  /** snprintf(dst, dst.Length, "%s", text) and its return value. */
  method PrintInto(dst: array<char>, text: string) returns (n: int)
    requires dst.Length > 0 && NUL !in text
    modifies dst
    ensures n == |text|
    ensures Terminated(dst[..])
    ensures Text(dst[..]) == text[..if |text| < dst.Length then |text| else dst.Length - 1]
  {
    var count := if |text| < dst.Length then |text| else dst.Length - 1;
    for i := 0 to count
      invariant dst[..i] == text[..i]
    {
      dst[i] := text[i];
      assert dst[..i + 1] == dst[..i] + [text[i]];
    }
    dst[count] := NUL;
    assert dst[..][..count] == text[..count];
    TextIs(dst[..], text[..count]);
    return |text|;
  }

  // ---------- pop_one_level ----------

  /** Where strrchr finds the last '/', or -1. */
  function LastSlash(s: string): (k: int)
    ensures -1 <= k < |s|
    ensures k >= 0 ==> s[k] == '/'
    ensures forall i :: k < i < |s| ==> s[i] != '/'
  {
    if s == "" then -1
    else if s[|s| - 1] == '/' then |s| - 1
    else
      var k := LastSlash(s[..|s| - 1]);
      assert forall i :: k < i < |s| - 1 ==> s[..|s| - 1][i] == s[i];
      k
  }

  /** The text pop_one_level leaves, given that it finds a '/'. */
  function Popped(t: string): string {
    var k := LastSlash(t);
    if t == "/" || k < 0 then t else if k == 0 then "/" else t[..k]
  }

  /** strrchr(path, '/') */
  method FindLastSlash(path: array<char>) returns (k: int)
    requires Terminated(path[..])
    ensures k == LastSlash(Text(path[..]))
  {
    k := -1;
    var i := 0;
    ghost var t := Text(path[..]);
    TextLength(path[..]);
    while path[i] != NUL
      invariant 0 <= i <= |t| && -1 <= k < i
      invariant k >= 0 ==> path[k] == '/'
      invariant forall j :: k < j < i ==> path[j] != '/'
      decreases |t| - i
    {
      assert i < |t|;
      if path[i] == '/' {
        k := i;
      }
      i := i + 1;
    }
    NulEnds(path[..], i);
  }

  /** pop_one_level: fails only on a text without '/', which no path has. */
  method PopOneLevel(path: array<char>) returns (rc: int)
    requires Terminated(path[..])
    modifies path
    ensures Terminated(path[..])
    ensures rc == 0 || rc == -1
    ensures rc == 0 <==> '/' in old(Text(path[..]))
    ensures Text(path[..]) == old(Popped(Text(path[..])))
  {
    ghost var t := Text(path[..]);
    TextLength(path[..]);
    if Text(path[..]) == "/" {
      return 0;
    }
    var slash := FindLastSlash(path);
    if slash < 0 {
      return -1;
    }
    if slash == 0 {
      path[1] := NUL;
      assert path[0] == '/';
      TextIs(path[..], "/");
      return 0;
    }
    path[slash] := NUL;
    TextIs(path[..], t[..slash]);
    return 0;
  }

  lemma LastSlashAt(s: string, k: nat)
    requires k < |s| && s[k] == '/' && forall i :: k < i < |s| ==> s[i] != '/'
    ensures LastSlash(s) == k
  {
  }

  lemma PoppedName(a: string, t: string)
    requires t != "" && '/' !in t
    ensures '/' in a + "/" + t
    ensures Popped(a + "/" + t) == if a == "" then "/" else a
  {
    var s := a + "/" + t;
    assert s[|a|] == '/';
    assert forall i :: |a| < i < |s| ==> s[i] == t[i - |a| - 1];
    LastSlashAt(s, |a|);
    assert s[..|a|] == a;
  }

  /** On the text of a path, pop_one_level succeeds and drops the last component. */
  lemma PopIsUp(cs: Stack)
    requires AllNormal(cs)
    ensures '/' in Render(cs)
    ensures Popped(Render(cs)) == Render(Apply(cs, ".."))
  {
    hide Popped;
    if cs == [] {
      assert Render(cs)[0] == '/';
      PoppedRoot();
    } else {
      var front, last := cs[..|cs| - 1], cs[|cs| - 1];
      PoppedName(Flat(front), last);
      if front != [] {
        FlatSlash(front);
      }
    }
  }

  lemma PoppedRoot()
    ensures Popped("/") == "/"
  {
  }

  // ---------- strtok_r ----------

  /** How strtok_r divides a text: separators, one token, and what is left for the next call. */
  predicate Divides(s: string, skipped: nat, token: string, rest: string) {
    && skipped + |token| <= |s| && token != "" && '/' !in token
    && (forall i :: 0 <= i < skipped ==> s[i] == '/')
    && s[skipped..skipped + |token|] == token
    && (if skipped + |token| == |s| then rest == ""
        else s[skipped + |token|] == '/' && rest == s[skipped + |token| + 1..])
  }

  lemma {:induction false} TokensSkip(s: string, n: nat)
    requires n <= |s| && forall i :: 0 <= i < n ==> s[i] == '/'
    ensures Tokens(s) == Tokens(s[n..])
  {
    if n > 0 {
      TokensSkip(s[1..], n - 1);
      assert s[1..][n - 1..] == s[n..];
    } else {
      assert s[0..] == s;
    }
  }

  lemma DividesTokens(s: string, skipped: nat, token: string, rest: string)
    requires Divides(s, skipped, token, rest)
    ensures Tokens(s) == [token] + Tokens(rest)
    ensures Tokens(s[..|s| - |rest|]) == [token]
  {
    hide Tokens;
    var tail := s[skipped + |token|..];
    TokensSkip(s, skipped);
    assert s[skipped..] == token + tail;
    TokensName(token, tail);
    if tail != "" {
      assert tail == "/" + rest;
      TokensSlash(rest);
    }
    var head := s[..|s| - |rest|];
    TokensSkip(head, skipped);
    var end := head[skipped + |token|..];
    assert head[skipped..] == token + end;
    TokensName(token, end);
    assert end == "" || end == "/";
    TokensNone();
  }

  lemma TokensNone()
    ensures Tokens("") == [] && Tokens("/") == []
  {
    assert "/"[1..] == "";
  }

  /** Past the separators at the front of a text. */
  method SkipSlashes(work: array<char>, from: nat) returns (skipped: nat)
    requires from <= work.Length && Terminated(work[from..])
    ensures Skips(Text(work[from..]), skipped)
  {
    ghost var tail := work[from..];
    TextLength(tail);
    skipped := 0;
    while work[from + skipped] == '/'
      invariant skipped <= |Text(tail)|
      invariant forall i :: 0 <= i < skipped ==> Text(tail)[i] == '/'
      decreases |Text(tail)| - skipped
    {
      assert tail[skipped] == '/';
      skipped := skipped + 1;
    }
    assert tail[skipped] == work[from + skipped];
  }

  lemma {:induction false} RunIs(s: string, n: nat)
    requires n <= |s| && (forall i :: 0 <= i < n ==> s[i] != '/') && (n < |s| ==> s[n] == '/')
    ensures Run(s) == n
  {
    if n > 0 {
      RunIs(s[1..], n - 1);
    }
  }

  /** To the end of the token at the front of a text. */
  method TokenLength(work: array<char>, start: nat) returns (n: nat)
    requires start <= work.Length && Terminated(work[start..])
    ensures n == Run(Text(work[start..]))
  {
    ghost var tail := work[start..];
    TextLength(tail);
    n := 0;
    while work[start + n] != NUL && work[start + n] != '/'
      invariant n <= |Text(tail)|
      invariant forall i :: 0 <= i < n ==> Text(tail)[i] != '/'
      decreases |Text(tail)| - n
    {
      assert tail[n] == work[start + n];
      n := n + 1;
    }
    assert tail[n] == work[start + n];
    if tail[n] == NUL {
      NulEnds(tail, n);
    }
    RunIs(Text(tail), n);
  }

  /** The text at `from + k` of a buffer. */
  lemma TextInside(w: seq<char>, from: nat, k: nat)
    requires from <= |w| && Terminated(w[from..]) && k <= |Text(w[from..])|
    ensures from + k < |w| && Terminated(w[from + k..])
    ensures Text(w[from + k..]) == Text(w[from..])[k..]
  {
    TextLength(w[from..]);
    TextSuffix(w[from..], k);
    assert w[from..][k..] == w[from + k..];
  }

  /** Cutting a buffer at `start + n` leaves the first n characters of the text at `start`. */
  lemma TextCut(w: seq<char>, w': seq<char>, start: nat, n: nat)
    requires start <= |w| == |w'| && Terminated(w[start..]) && n <= |Text(w[start..])|
    requires start + n < |w| && w' == w[start + n := NUL]
    ensures Text(w'[start..]) == Text(w[start..])[..n] && Terminated(w'[start..])
  {
    var t := Text(w[start..])[..n];
    assert forall i :: 0 <= i < n ==> w'[start + i] == w[start..][i] == t[i];
    assert w'[start..][..n] == t;
    TextIs(w'[start..], t);
  }

  lemma DividesRun(s: string, skipped: nat)
    requires skipped < |s| && s[skipped] != '/' && forall i :: 0 <= i < skipped ==> s[i] == '/'
    ensures var n := Run(s[skipped..]);
            && n > 0 && skipped + n <= |s|
            && (if skipped + n == |s| then Divides(s, skipped, s[skipped..][..n], "")
                else Divides(s, skipped, s[skipped..][..n], s[skipped + n + 1..]))
  {
    var n := Run(s[skipped..]);
    assert s[skipped..][..n] == s[skipped..skipped + n];
  }

  lemma EmptyText(s: seq<char>)
    requires Terminated(s) && s[0] == NUL
    ensures Text(s) == ""
  {
  }

  lemma NonemptyText(s: seq<char>)
    requires Terminated(s) && s[0] != NUL
    ensures Text(s) != "" && Text(s)[0] == s[0]
  {
  }

  /** The buffer after a token of n characters at `start` has been terminated. */
  function Cut(w: seq<char>, end: nat): seq<char>
    requires end < |w|
  {
    w[end := NUL]
  }

  predicate Skips(s: string, skipped: nat) {
    skipped <= |s| && (forall i :: 0 <= i < skipped ==> s[i] == '/') && (skipped < |s| ==> s[skipped] != '/')
  }

  lemma NoMoreTokens(w: seq<char>, from: nat, skipped: nat)
    requires from <= |w| && Terminated(w[from..]) && Skips(Text(w[from..]), skipped)
    ensures from + skipped < |w| && Terminated(w[from + skipped..])
    ensures w[from + skipped] == NUL ==> Tokens(Text(w[from..])) == []
  {
    hide Tokens, Text, Terminated;
    var s := Text(w[from..]);
    TextInside(w, from, skipped);
    if w[from + skipped] == NUL {
      EmptyText(w[from + skipped..]);
      TokensSkip(s, skipped);
      TokensNone();
    }
  }

  /** What NextToken establishes, on the contents of the buffer. */
  predicate Cuts(w: seq<char>, from: nat, token: nat, end: nat, save: nat)
    requires from <= token <= end < |w| && save <= |w|
  {
    && Terminated(Cut(w, end)[save..]) && Terminated(Cut(w, end)[token..])
    && Divides(Text(w[from..]), token - from, Text(Cut(w, end)[token..]), Text(Cut(w, end)[save..]))
    && save - from + |Text(Cut(w, end)[save..])| == |Text(w[from..])|
  }

  lemma CutAtEnd(w: seq<char>, from: nat, skipped: nat, n: nat)
    requires from <= |w| && Terminated(w[from..]) && skipped + n == |Text(w[from..])|
    requires from + skipped + n < |w| && w[from + skipped + n] == NUL
    requires Divides(Text(w[from..]), skipped, Text(w[from..])[skipped..], "")
    ensures Cuts(w, from, from + skipped, from + skipped + n, from + skipped + n)
  {
    hide Text, Terminated, Divides;
    var end := from + skipped + n;
    TextInside(w, from, skipped);
    TextInside(w, from, skipped + n);
    assert Text(w[from..])[skipped + n..] == "";
    assert Cut(w, end) == w;
  }

  lemma CutInside(w: seq<char>, from: nat, skipped: nat, n: nat)
    requires from <= |w| && Terminated(w[from..]) && skipped + n < |Text(w[from..])|
    requires from + skipped + n < |w|
    requires Divides(Text(w[from..]), skipped, Text(w[from..])[skipped..][..n], Text(w[from..])[skipped + n + 1..])
    ensures from + skipped + n + 1 < |w|
    ensures Cuts(w, from, from + skipped, from + skipped + n, from + skipped + n + 1)
  {
    hide Text, Terminated, Divides;
    var end := from + skipped + n;
    TextInside(w, from, skipped);
    TextCut(w, Cut(w, end), from + skipped, n);
    TextInside(w, from, skipped + n + 1);
    assert Cut(w, end)[end + 1..] == w[end + 1..];
  }

  lemma CutToken(w: seq<char>, from: nat, skipped: nat)
    requires from <= |w| && Terminated(w[from..]) && Skips(Text(w[from..]), skipped)
    requires from + skipped < |w| && w[from + skipped] != NUL
    ensures var token := from + skipped;
            var end := token + Run(Text(w[token..]));
            && token < end < |w|
            && var save := if w[end] == NUL then end else end + 1;
            && save < |w| && Cuts(w, from, token, end, save)
  {
    hide Text, Terminated, Run, Divides, Cuts;
    var s := Text(w[from..]);
    TextInside(w, from, skipped);
    NonemptyText(w[from + skipped..]);
    var n := Run(s[skipped..]);
    DividesRun(s, skipped);
    TextInside(w, from, skipped + n);
    if skipped + n == |s| {
      assert s[skipped..][..n] == s[skipped..];
      EndOfText(w[from..]);
      CutAtEnd(w, from, skipped, n);
    } else {
      NonemptyEnd(w[from + skipped + n..]);
      CutInside(w, from, skipped, n);
    }
  }

  lemma EndOfText(s: seq<char>)
    requires Terminated(s)
    ensures |Text(s)| < |s| && s[|Text(s)|] == NUL
  {
    TextLength(s);
  }

  lemma NonemptyEnd(s: seq<char>)
    requires Terminated(s) && Text(s) != ""
    ensures s[0] != NUL
  {
  }

  /**
   * strtok_r on the text at `from`. Returns the index of a token, now NUL-terminated in
   * the buffer, and where to go on; or -1 when only separators are left.
   */
  method NextToken(work: array<char>, from: nat) returns (token: int, save: nat)
    requires from <= work.Length && Terminated(work[from..])
    modifies work
    ensures from <= save < work.Length && Terminated(work[save..])
    ensures token < 0 ==> Tokens(old(Text(work[from..]))) == []
    ensures token >= 0 ==>
              && from <= token < save && Terminated(work[token..])
              && Divides(old(Text(work[from..])), token - from, Text(work[token..]), Text(work[save..]))
              && save - from + |Text(work[save..])| == |old(Text(work[from..]))|
  {
    hide Text, Terminated, Tokens, Run, Divides, Skips;
    ghost var was := work[..];
    assert was[from..] == work[from..];
    var skipped := SkipSlashes(work, from);
    var start := from + skipped;
    assert was[start..] == work[start..];
    NoMoreTokens(was, from, skipped);
    if work[start] == NUL {
      return -1, start;
    }
    CutToken(was, from, skipped);
    var n := TokenLength(work, start);
    var end := start + n;
    save := if work[end] == NUL then end else end + 1;
    work[end] := NUL;
    assert work[..] == Cut(was, end);
    assert work[start..] == Cut(was, end)[start..] && work[save..] == Cut(was, end)[save..];
    return start, save;
  }

  // ---------- normalize_virtual_path ----------

  /** A position of the text between tokens: its start, its end, or just after a '/'. */
  predicate Between(m: string, at: nat) {
    at <= |m| && (at == 0 || at == |m| || m[at - 1] == '/')
  }

  /** One call of strtok_r moves one component from what is ahead to what is done. */
  lemma TokenStep(m: string, from: nat, skipped: nat, token: string, rest: string, save: nat)
    requires Between(m, from) && Divides(m[from..], skipped, token, rest)
    requires save - from + |rest| == |m| - from
    ensures Between(m, save) && rest == m[save..] && token != ""
    ensures Tokens(m[..save]) == Tokens(m[..from]) + [token]
  {
    hide Tokens;
    var s := m[from..];
    var end := skipped + |token|;
    assert s[end..] == m[from + end..];
    if end < |s| {
      assert m[from + end] == '/';
    }
    assert m[..save] == m[..from] + s[..|s| - |rest|];
    DividesTokens(s, skipped, token, rest);
    TokensConcat(m[..from], s[..|s| - |rest|]);
  }

  /** No token is left ahead. */
  lemma TokensDone(m: string, from: nat)
    requires Between(m, from) && Tokens(m[from..]) == []
    ensures Tokens(m[..from]) == Tokens(m)
  {
    hide Tokens;
    assert m == m[..from] + m[from..];
    TokensConcat(m[..from], m[from..]);
  }

  lemma PushText(cs: Stack, t: string)
    requires AllNormal(cs)
    ensures Render(cs + [t]) == if Render(cs) == "/" then "/" + t else Render(cs) + "/" + t
  {
    FlatPush(cs, t);
    if cs == [] {
      assert Flat(cs) == "";
    } else {
      FlatSlash(cs);
    }
  }

  /** Copy the merged current path and argument into a buffer, if they fit. */
  method MergeInto(merged: array<char>, current: string, arg: string) returns (n: int)
    requires merged.Length == PATH_MAX && NUL !in current && NUL !in arg && current != ""
    modifies merged
    ensures n == |Merge(current, arg)|
    ensures Terminated(merged[..])
    ensures n < PATH_MAX ==> Text(merged[..]) == Merge(current, arg)
  {
    if current == "/" {
      n := PrintInto(merged, arg);
    } else {
      assert NUL !in current[1..];
      n := PrintInto(merged, current[1..] + "/" + arg);
    }
  }

  /** Append one name to the path, by way of a second buffer; refused if it does not fit. */
  method AppendName(path: array<char>, candidate: array<char>, token: string, ghost cs: Stack) returns (rc: int)
    requires path != candidate && path.Length == candidate.Length == PATH_MAX
    requires Terminated(path[..]) && AllNormal(cs) && Text(path[..]) == Render(cs) && NUL !in token
    modifies path, candidate
    ensures rc == 0 || rc == -1
    ensures rc == 0 <==> |Render(cs + [token])| < PATH_MAX
    ensures rc == 0 ==> Terminated(path[..]) && Text(path[..]) == Render(cs + [token])
  {
    hide Text, Terminated, Flat, Render;
    PushText(cs, token);
    var text := Text(path[..]);
    var n;
    if text == "/" {
      n := PrintInto(candidate, "/" + token);
    } else {
      n := PrintInto(candidate, text + "/" + token);
    }
    if n < 0 || n >= PATH_MAX {
      return -1;
    }
    n := PrintInto(path, Text(candidate[..]));
    return 0;
  }

  /** One pass through the body of the loop: the buffer follows Apply, or the path got too long. */
  method ApplyToken(path: array<char>, candidate: array<char>, token: string, ghost cs: Stack) returns (rc: int)
    requires path != candidate && path.Length == candidate.Length == PATH_MAX
    requires Terminated(path[..]) && AllNormal(cs) && Text(path[..]) == Render(cs)
    requires NUL !in token && token != ""
    modifies path, candidate
    ensures rc == 0 || rc == -1
    ensures rc == 0 <==> |Render(Apply(cs, token))| < PATH_MAX
    ensures rc == 0 ==> Terminated(path[..]) && Text(path[..]) == Render(Apply(cs, token))
  {
    hide Text, Terminated, Flat, Render;
    TextFits(path[..]);
    if token == "." || token == "" {
      return 0;
    }
    if token == ".." {
      PopIsUp(cs);
      rc := PopOneLevel(path);
      TextFits(path[..]);
      return rc;
    }
    rc := AppendName(path, candidate, token, cs);
  }

  lemma TextFits(s: seq<char>)
    requires Terminated(s)
    ensures |Text(s)| < |s|
  {
    TextLength(s);
  }

  /** The path built from the components before a position. */
  function Built(m: string, at: nat): Stack
    requires at <= |m|
  {
    Walk([], Tokens(m[..at]))
  }

  lemma BuiltStep(m: string, from: nat, token: string, save: nat)
    requires from <= |m| && save <= |m| && Tokens(m[..save]) == Tokens(m[..from]) + [token]
    ensures Built(m, save) == Apply(Built(m, from), token)
    ensures AllNormal(Built(m, from))
  {
    hide Tokens;
    WalkAppend([], Tokens(m[..from]), [token]);
    var cs := Built(m, from);
    assert [token][1..] == [];
    assert Walk(Apply(cs, token), []) == Apply(cs, token);
    TokensAreNames(m[..from]);
    WalkIsNormal([], Tokens(m[..from]));
  }

  lemma BuiltNothing(m: string)
    ensures Built(m, 0) == []
  {
    assert m[..0] == "";
  }

  /**
   * The tokenise-and-edit loop. It fails exactly on a merged text that fills its buffer
   * and is already in normal form; otherwise the buffer holds the path that the text's
   * components lead to.
   */
  method Resolve(work: array<char>, path: array<char>, candidate: array<char>, ghost m: string) returns (rc: int)
    requires work.Length == path.Length == candidate.Length == PATH_MAX
    requires work != path && work != candidate && path != candidate
    requires Terminated(work[..]) && Text(work[..]) == m && |m| < PATH_MAX
    requires Terminated(path[..]) && Text(path[..]) == "/"
    modifies work, path, candidate
    ensures rc == 0 || rc == -1
    ensures rc == 0 <==> !Overflows(m)
    ensures rc == 0 ==> Terminated(path[..]) && Text(path[..]) == Render(Walk([], Tokens(m)))
  {
    hide Text, Terminated, Tokens, Walk, Divides, Render, Overflows;
    ghost var done := 0;
    BuiltNothing(m);
    RenderRoot();
    assert work[0..] == work[..] && m[0..] == m;
    var token, save := NextToken(work, 0);
    if token >= 0 {
      TokenStep(m, 0, token, Text(work[token..]), Text(work[save..]), save);
    }
    while token >= 0
      invariant Between(m, done) && save < work.Length && Terminated(work[save..])
      invariant Terminated(path[..]) && Text(path[..]) == Render(Built(m, done))
      invariant if token >= 0 then
                  && done <= token < save && Between(m, save) && Terminated(work[token..])
                  && Text(work[token..]) != ""
                  && Tokens(m[..save]) == Tokens(m[..done]) + [Text(work[token..])]
                  && Text(work[save..]) == m[save..]
                else
                  Tokens(m[done..]) == []
      decreases if token >= 0 then |m| - done + 1 else 0
    {
      ghost var from := save;
      ghost var t := Text(work[token..]);
      BuiltStep(m, done, t, save);
      OverflowExactly(m, save);
      rc := ApplyToken(path, candidate, Text(work[token..]), Built(m, done));
      if rc != 0 {
        return -1;
      }
      done := save;
      token, save := NextToken(work, save);
      if token >= 0 {
        TokenStep(m, from, token - from, Text(work[token..]), Text(work[save..]), save);
      }
    }
    TokensDone(m, done);
    OverflowExactly(m, |m|);
    assert m[..|m|] == m;
    TextFits(path[..]);
    return 0;
  }

  lemma RenderRoot()
    ensures Render([]) == "/"
  {
  }

  function Clip(t: string, size: nat): string
    requires size > 0
  {
    t[..if |t| < size then |t| else size - 1]
  }

  predicate HoldsPath(a: array?<char>)
    reads a
  {
    a == null || (Terminated(a[..]) && Text(a[..]) != "")
  }

  /**
   * normalize_virtual_path. Succeeds exactly when the argument is accepted, and then
   * leaves the normal form of the path it leads to; on failure `out` is not touched.
   */
  method NormalizeVirtualPath(current: array?<char>, arg: array?<char>, out: array?<char>) returns (rc: int)
    requires HoldsPath(current) && (arg != null ==> Terminated(arg[..]))
    requires out != null ==> out != current && out != arg
    modifies out
    ensures rc == 0 || rc == -1
    ensures rc == 0 <==>
              && current != null && arg != null && out != null && out.Length > 0
              && Admits(Text(current[..]), Text(arg[..]))
    ensures rc == 0 ==>
              && Terminated(out[..])
              && Text(out[..]) == Clip(Normalize(Text(current[..]), Text(arg[..])).text, out.Length)
    ensures rc != 0 && out != null ==> out[..] == old(out[..])
  {
    hide Text, Terminated, Tokens, Walk, Render, Merge, Overflows, Clip;
    if current == null || arg == null || out == null || out.Length == 0 {
      return -1;
    }
    var currentText, argText := Text(current[..]), Text(arg[..]);
    if argText == "" || argText[0] == '/' {
      return -1;
    }
    var merged := new char[PATH_MAX](_ => NUL);
    var work := new char[PATH_MAX](_ => NUL);
    var candidate := new char[PATH_MAX](_ => NUL);
    var n := MergeInto(merged, currentText, argText);
    if n < 0 || n >= PATH_MAX {
      return -1;
    }
    ghost var m := Text(merged[..]);
    n := PrintInto(work, Text(merged[..]));
    assert m[..|m|] == m;
    var path := new char[PATH_MAX](_ => NUL);
    n := PrintInto(path, "/");
    assert "/"[..1] == "/";
    rc := Resolve(work, path, candidate, m);
    if rc != 0 {
      return -1;
    }
    n := PrintInto(out, Text(path[..]));
    ClipIs(Text(path[..]), out.Length);
    return 0;
  }

  lemma ClipIs(t: string, size: nat)
    requires size > 0
    ensures Clip(t, size) == t[..if |t| < size then |t| else size - 1]
  {
  }

  /** build_real_path: fails exactly when the real path does not fit the buffer. */
  method BuildRealPath(virtualPath: array?<char>, target: array?<char>) returns (rc: int)
    requires virtualPath != null ==> Terminated(virtualPath[..])
    requires target != null ==> target != virtualPath
    modifies target
    ensures rc == 0 || rc == -1
    ensures rc == 0 <==>
              && virtualPath != null && target != null && target.Length > 0
              && |RealPath(Text(virtualPath[..]))| < target.Length
    ensures rc == 0 ==> Terminated(target[..]) && Text(target[..]) == RealPath(Text(virtualPath[..]))
  {
    hide Text, Terminated;
    if virtualPath == null || target == null || target.Length == 0 {
      return -1;
    }
    var text := Text(virtualPath[..]);
    ghost var full := RealPath(text);
    assert full[..|full|] == full;
    var n;
    if text == "/" {
      n := PrintInto(target, BASE_DIR);
    } else {
      n := PrintInto(target, BASE_DIR + text);
    }
    return if n < 0 || n >= target.Length then -1 else 0;
  }

  /** An argument that resolve_target_path turns into a path on disk. */
  predicate Resolves(current: string, arg: string) {
    Normalize(current, arg).Path? && RealFits(Normalize(current, arg).text)
  }

  /** resolve_target_path, with the two PATH_MAX buffers its callers give it. */
  method ResolveTargetPath(current: array<char>, arg: array<char>, virtualPath: array<char>, target: array<char>)
    returns (rc: int)
    requires HoldsPath(current) && Terminated(arg[..])
    requires virtualPath.Length == target.Length == PATH_MAX
    requires virtualPath != target && virtualPath !in {current, arg} && target !in {current, arg}
    modifies virtualPath, target
    ensures rc == 0 || rc == -1
    ensures rc == 0 <==> Resolves(Text(current[..]), Text(arg[..]))
    ensures rc == 0 ==>
              && Terminated(virtualPath[..]) && Terminated(target[..])
              && Text(virtualPath[..]) == Normalize(Text(current[..]), Text(arg[..])).text
              && Text(target[..]) == RealPath(Text(virtualPath[..]))
  {
    hide Text, Terminated, Tokens, Walk, Render, Merge, Overflows;
    rc := NormalizeVirtualPath(current, arg, virtualPath);
    if rc != 0 {
      return -1;
    }
    NormalizeLimit(Text(current[..]), Text(arg[..]));
    ghost var t := Normalize(Text(current[..]), Text(arg[..])).text;
    assert t[..|t|] == t;
    rc := BuildRealPath(virtualPath, target);
    return if rc != 0 then -1 else 0;
  }
}
