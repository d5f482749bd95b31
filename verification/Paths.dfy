// Virtual paths as stacks of component names: the meaning of the normalisation that the
// server performs on text buffers.

module Paths {

  const PATH_MAX: int := 4096
  const BASE_DIR: string := "../tests"

  type Stack = seq<string>

  /** A component that names a directory entry. */
  predicate Normal(t: string) {
    t != "" && t != "." && t != ".." && '/' !in t
  }

  predicate AllNormal(cs: Stack) {
    forall i :: 0 <= i < |cs| ==> Normal(cs[i])
  }

  function Flat(cs: Stack): string {
    if cs == [] then "" else Flat(cs[..|cs| - 1]) + "/" + cs[|cs| - 1]
  }

  /** The text of a virtual path. */
  function Render(cs: Stack): string {
    if cs == [] then "/" else Flat(cs)
  }

  /** How many characters come before the first '/'. */
  function Run(s: string): (n: nat)
    ensures n <= |s|
    ensures '/' !in s[..n]
    ensures n < |s| ==> s[n] == '/'
  {
    if s == "" || s[0] == '/' then 0
    else
      var n := 1 + Run(s[1..]);
      assert s[..n] == [s[0]] + s[1..][..n - 1];
      n
  }

  /** The nonempty pieces of a text between its '/' characters: what strtok_r yields. */
  function Tokens(s: string): seq<string>
    decreases |s|
  {
    if s == "" then []
    else if s[0] == '/' then Tokens(s[1..])
    else [s[..Run(s)]] + Tokens(s[Run(s)..])
  }

  /** One component applied to a path: "." stays, ".." goes up and stops at the root. */
  function Apply(cs: Stack, t: string): Stack {
    if t == "." then cs
    else if t == ".." then (if cs == [] then [] else cs[..|cs| - 1])
    else cs + [t]
  }

  function Walk(cs: Stack, ts: seq<string>): Stack
    decreases |ts|
  {
    if ts == [] then cs else Walk(Apply(cs, ts[0]), ts[1..])
  }

  /** A path in normal form: it is the text of its own components. */
  predicate Canonical(p: string) {
    AllNormal(Tokens(p)) && p == Render(Tokens(p))
  }

  // ---------- the specification of normalize_virtual_path ----------

  function Merge(current: string, arg: string): string {
    if current == "/" || current == "" then arg else current[1..] + "/" + arg
  }

  /**
   * The path an argument leads to, or none: the argument is empty or absolute, the merged
   * text does not fit its buffer, or it fills the buffer and is already in normal form, so
   * that the leading '/' no longer fits.
   */
  datatype Resolution = Path(text: string) | Refused

  predicate Overflows(merged: string) {
    |merged| == PATH_MAX - 1 && Canonical("/" + merged)
  }

  predicate Admits(current: string, arg: string) {
    && arg != "" && arg[0] != '/'
    && |Merge(current, arg)| < PATH_MAX && !Overflows(Merge(current, arg))
  }

  function Normalize(current: string, arg: string): Resolution {
    if Admits(current, arg) then Path(Render(Walk([], Tokens(Merge(current, arg))))) else Refused
  }

  /** build_real_path without its length check. */
  function RealPath(p: string): string {
    if p == "/" then BASE_DIR else BASE_DIR + p
  }

  predicate RealFits(p: string) {
    |RealPath(p)| < PATH_MAX
  }

  // ---------- text and components ----------

  lemma {:induction false} FlatAppend(cs: Stack, ds: Stack)
    ensures Flat(cs + ds) == Flat(cs) + Flat(ds)
    decreases |ds|
  {
    if ds == [] {
      assert cs + ds == cs;
    } else {
      assert (cs + ds)[..|cs + ds| - 1] == cs + ds[..|ds| - 1];
      FlatAppend(cs, ds[..|ds| - 1]);
    }
  }

  lemma {:induction false} WalkAppend(cs: Stack, ts: seq<string>, us: seq<string>)
    ensures Walk(cs, ts + us) == Walk(Walk(cs, ts), us)
    decreases |ts|
  {
    if ts == [] {
      assert ts + us == us;
    } else {
      assert (ts + us)[1..] == ts[1..] + us;
      WalkAppend(Apply(cs, ts[0]), ts[1..], us);
    }
  }

  /** Walking along ordinary names descends into each of them. */
  lemma {:induction false} WalkNormal(cs: Stack, ts: seq<string>)
    requires AllNormal(ts)
    ensures Walk(cs, ts) == cs + ts
    decreases |ts|
  {
    if ts != [] {
      WalkNormal(cs + [ts[0]], ts[1..]);
      assert cs + [ts[0]] + ts[1..] == cs + ts;
    }
  }

  lemma WalkNames(ts: seq<string>)
    requires AllNormal(ts)
    ensures Walk([], ts) == ts
  {
    WalkNormal([], ts);
    assert [] + ts == ts;
  }

  lemma {:induction false} RunWhole(t: string, rest: string)
    requires '/' !in t && (rest == "" || rest[0] == '/')
    ensures Run(t + rest) == |t|
  {
    if t == "" {
      assert t + rest == rest;
    } else {
      assert (t + rest)[1..] == t[1..] + rest;
      RunWhole(t[1..], rest);
    }
  }

  /** One name at the front of a text. */
  lemma TokensName(t: string, rest: string)
    requires t != "" && '/' !in t && (rest == "" || rest[0] == '/')
    ensures Tokens(t + rest) == [t] + Tokens(rest)
  {
    RunWhole(t, rest);
    assert (t + rest)[..|t|] == t && (t + rest)[|t|..] == rest;
    assert (t + rest)[0] == t[0];
  }

  lemma TokensSlash(s: string)
    ensures Tokens("/" + s) == Tokens(s)
  {
    assert ("/" + s)[1..] == s;
  }

  lemma TokensSplit(s: string)
    requires s != "" && s[0] != '/'
    ensures var t, rest := s[..Run(s)], s[Run(s)..];
            && s == t + rest && t != "" && t[0] != '/' && '/' !in t && (rest == "" || rest[0] == '/')
            && Tokens(s) == [t] + Tokens(rest)
  {
  }

  lemma TokensEmpty()
    ensures Tokens("") == []
  {
  }

  /** Splitting at a '/' boundary splits the components. */
  lemma {:induction false} TokensConcat(a: string, b: string)
    requires a == "" || b == "" || a[|a| - 1] == '/' || b[0] == '/'
    ensures Tokens(a + b) == Tokens(a) + Tokens(b)
    decreases |a|
  {
    hide Tokens, Run;
    TokensEmpty();
    if a == "" {
      assert a + b == b;
    } else if b == "" {
      assert a + b == a;
    } else if a[0] == '/' {
      assert a == "/" + a[1..];
      assert a + b == "/" + (a[1..] + b);
      TokensSlash(a[1..]);
      TokensSlash(a[1..] + b);
      TokensConcat(a[1..], b);
    } else {
      TokensSplit(a);
      var t, rest := a[..Run(a)], a[Run(a)..];
      assert a + b == t + (rest + b);
      assert rest == "" ==> a[|a| - 1] == t[|t| - 1] != '/';
      TokensName(t, rest + b);
      TokensConcat(rest, b);
    }
  }

  lemma {:induction false} TokensAreNames(s: string)
    ensures forall i :: 0 <= i < |Tokens(s)| ==> Tokens(s)[i] != "" && '/' !in Tokens(s)[i]
    decreases |s|
  {
    if s == "" {
    } else if s[0] == '/' {
      TokensAreNames(s[1..]);
    } else {
      TokensAreNames(s[Run(s)..]);
    }
  }

  lemma {:induction false} TokensFlat(cs: Stack)
    requires AllNormal(cs)
    ensures Tokens(Flat(cs)) == cs
  {
    if cs != [] {
      var front, last := cs[..|cs| - 1], cs[|cs| - 1];
      TokensFlat(front);
      assert Flat(cs) == Flat(front) + ("/" + last);
      TokensConcat(Flat(front), "/" + last);
      assert ("/" + last)[1..] == last;
      assert last + "" == last;
      TokensName(last, "");
    }
  }

  lemma TokensRender(cs: Stack)
    requires AllNormal(cs)
    ensures Tokens(Render(cs)) == cs
  {
    TokensFlat(cs);
    assert "/"[1..] == "";
  }

  /** Canonical paths and stacks of names correspond one to one. */
  lemma CanonicalIsRender(p: string)
    ensures Canonical(p) <==> exists cs: Stack :: AllNormal(cs) && p == Render(cs)
  {
    if cs: Stack :| AllNormal(cs) && p == Render(cs) {
      TokensRender(cs);
    }
  }

  lemma {:induction false} WalkIsNormal(cs: Stack, ts: seq<string>)
    requires AllNormal(cs) && forall i :: 0 <= i < |ts| ==> ts[i] != "" && '/' !in ts[i]
    ensures AllNormal(Walk(cs, ts))
    decreases |ts|
  {
    if ts != [] {
      WalkIsNormal(Apply(cs, ts[0]), ts[1..]);
    }
  }

  // ---------- lengths ----------

  /** A text with the '/' that must precede its first name. */
  function Slashed(s: string): string {
    if s == "" || s[0] == '/' then s else "/" + s
  }

  lemma FlatPush(cs: Stack, t: string)
    ensures Flat(cs + [t]) == Flat(cs) + "/" + t
  {
    assert (cs + [t])[..|cs|] == cs;
  }

  lemma FlatPop(cs: Stack)
    requires cs != []
    ensures |Flat(cs[..|cs| - 1])| < |Flat(cs)|
  {
  }

  /** What one component does to the length of a path. */
  lemma ApplyLength(cs: Stack, t: string)
    requires t != "" && '/' !in t
    ensures |Flat(Apply(cs, t))| <= |Flat(cs)| + 1 + |t|
    ensures |Flat(Apply(cs, t))| == |Flat(cs)| + 1 + |t| ==> Normal(t) && Flat(Apply(cs, t)) == Flat(cs) + "/" + t
  {
    if t == ".." && cs != [] {
      FlatPop(cs);
    } else if t != "." && t != ".." {
      FlatPush(cs, t);
    }
  }

  lemma SlashedTail(s: string)
    ensures s == "" || s[0] == '/' ==> Slashed(s) == s
    ensures s != "" && s[0] == '/' ==>
              |Slashed(s[1..])| <= |s| && (|Slashed(s[1..])| == |s| ==> Slashed(s[1..]) == s)
  {
  }

  lemma ExtendPath(a: string, t: string, rest: string, s: string)
    requires s == t + rest && t != "" && t[0] != '/'
    ensures (a + "/" + t) + rest == a + Slashed(s)
    ensures |Slashed(s)| == 1 + |t| + |rest|
    ensures rest == "" || rest[0] == '/' ==> Slashed(rest) == rest
  {
  }

  /**
   * Walking a text from a path adds at most the text itself, and adds exactly that much
   * only by appending it unchanged, every component being an ordinary name.
   */
  lemma {:induction false} WalkLength(cs: Stack, s: string)
    ensures var r := Flat(Walk(cs, Tokens(s)));
            && |r| <= |Flat(cs)| + |Slashed(s)|
            && (|r| == |Flat(cs)| + |Slashed(s)| ==> r == Flat(cs) + Slashed(s) && AllNormal(Tokens(s)))
    decreases |s|
  {
    hide Tokens, Slashed, Flat, Run, Normal;
    if s == "" {
      TokensEmpty();
      SlashedTail(s);
    } else if s[0] == '/' {
      assert s == "/" + s[1..];
      SlashedTail(s);
      TokensSlash(s[1..]);
      WalkLength(cs, s[1..]);
    } else {
      var t, rest := s[..Run(s)], s[Run(s)..];
      TokensSplit(s);
      WalkLength(Apply(cs, t), rest);
      ApplyLength(cs, t);
      ExtendPath(Flat(cs), t, rest, s);
      assert Tokens(s)[1..] == Tokens(rest);
    }
  }

  // ---------- what the normalisation promises ----------

  /**
   * Having consumed a prefix of a merged text that fits its buffer, the path built so far
   * is too long exactly when the prefix is the whole text, the text fills the buffer to
   * the last character and is already in normal form.
   */
  lemma OverflowExactly(merged: string, pos: nat)
    requires |merged| < PATH_MAX && pos <= |merged|
    ensures |Render(Walk([], Tokens(merged[..pos])))| >= PATH_MAX <==> pos == |merged| && Overflows(merged)
  {
    hide Tokens, Flat, Walk;
    var prefix := merged[..pos];
    WalkLength([], prefix);
    FlatNothing();
    TokensSlash(merged);
    if |Render(Walk([], Tokens(prefix)))| >= PATH_MAX {
      assert Slashed(prefix) == "/" + prefix && prefix == merged;
      WalkNames(Tokens(merged));
      TokensRender(Tokens(merged));
    }
    if pos == |merged| && Overflows(merged) {
      assert prefix == merged;
      WalkNames(Tokens(merged));
    }
  }

  /** Components of a merged text: those of the current path, then those of the argument. */
  lemma MergeWalk(cs: Stack, arg: string)
    requires AllNormal(cs)
    ensures Walk([], Tokens(Merge(Render(cs), arg))) == Walk(cs, Tokens(arg))
  {
    hide Tokens, Walk, Merge, Render;
    MergeTokens(cs, arg);
    WalkAppend([], cs, Tokens(arg));
    WalkNames(cs);
  }

  lemma {:induction false} FlatSlash(cs: Stack)
    requires cs != [] && AllNormal(cs)
    ensures |Flat(cs)| >= 2 && Flat(cs)[0] == '/' && Flat(cs)[1] != '/'
    ensures Flat(cs) == "/" + Flat(cs)[1..]
  {
    if |cs| > 1 {
      FlatSlash(cs[..|cs| - 1]);
    }
  }

  /** Every path produced is in normal form and fits its buffer. */
  lemma NormalizeCanonical(current: string, arg: string)
    requires Normalize(current, arg).Path?
    ensures Canonical(Normalize(current, arg).text)
    ensures 1 <= |Normalize(current, arg).text| < PATH_MAX
  {
    var merged := Merge(current, arg);
    OverflowExactly(merged, |merged|);
    assert merged[..|merged|] == merged;
    TokensAreNames(merged);
    WalkIsNormal([], Tokens(merged));
    CanonicalIsRender(Normalize(current, arg).text);
  }

  /** From a path in normal form, an argument is interpreted component by component. */
  lemma NormalizeIsWalk(cs: Stack, arg: string)
    requires AllNormal(cs) && Admits(Render(cs), arg)
    ensures Normalize(Render(cs), arg) == Path(Render(Walk(cs, Tokens(arg))))
  {
    MergeWalk(cs, arg);
  }

  lemma MergeLength(cs: Stack, arg: string)
    requires AllNormal(cs) && arg != "" && arg[0] != '/'
    ensures var m := Merge(Render(cs), arg);
            && m != "" && m[0] != '/'
            && |m| == (if cs == [] then 0 else |Flat(cs)|) + |arg|
    ensures Render(cs) != "" && (Render(cs) == "/" <==> cs == [])
  {
    if cs != [] {
      FlatSlash(cs);
    }
  }

  lemma MergeTwice(cs: Stack, a: string, b: string)
    requires AllNormal(cs)
    ensures Merge(Render(cs), a + "/" + b) == Merge(Render(cs), a) + "/" + b
  {
  }

  /**
   * Walking a text that starts with a name: the path is the text with a '/' in front, or
   * it is shorter than that.
   */
  lemma WalkFromRoot(m: string)
    requires m != "" && m[0] != '/'
    ensures var r := Flat(Walk([], Tokens(m))); r == "/" + m || |r| < |m| + 1
  {
    WalkLength([], m);
  }

  /** Two steps fit whenever the joined argument does. */
  lemma StepsFit(cs: Stack, a: string, b: string)
    requires AllNormal(cs) && a != "" && a[0] != '/' && b != "" && b[0] != '/'
    requires Admits(Render(cs), a + "/" + b)
    ensures Admits(Render(cs), a)
    ensures Admits(Render(Walk(cs, Tokens(a))), b)
  {
    hide Tokens, Walk, Canonical;
    var m := Merge(Render(cs), a);
    var ds := Walk(cs, Tokens(a));
    MergeTwice(cs, a, b);
    MergeLength(cs, a);
    MergeWalk(cs, a);
    WalkFromRoot(m);
    TokensAreNames(a);
    WalkIsNormal(cs, Tokens(a));
    MergeLength(ds, b);
    if ds != [] && Flat(ds) == "/" + m {
      assert Merge(Render(ds), b) == m + "/" + b;
    }
  }

  predicate Relative(arg: string) {
    arg != "" && arg[0] != '/'
  }

  /** The length of the text that current path and joined argument are merged into. */
  function JoinedLength(current: string, a: string, b: string): nat {
    (if current == "/" then 0 else |current|) + |a| + 1 + |b|
  }

  lemma JoinedIsMerged(cs: Stack, a: string, b: string)
    requires AllNormal(cs) && Relative(a) && Relative(b)
    ensures |Merge(Render(cs), a + "/" + b)| == JoinedLength(Render(cs), a, b)
  {
    MergeLength(cs, a + "/" + b);
  }

  /** If a joined text is in normal form, its front already is. */
  lemma CanonicalFront(m: string, b: string)
    requires Relative(m) && Relative(b) && Canonical("/" + (m + "/" + b))
    ensures Render(Walk([], Tokens(m))) == "/" + m
  {
    hide Tokens, Flat;
    var j := m + "/" + b;
    var ms, bs := Tokens(m), Tokens(b);
    TokensSlash(j);
    assert j == m + ("/" + b);
    TokensConcat(m, "/" + b);
    TokensSlash(b);
    assert Tokens(j) == ms + bs;
    assert forall i :: 0 <= i < |ms| ==> ms[i] == Tokens(j)[i];
    assert forall i :: 0 <= i < |bs| ==> bs[i] == Tokens(j)[|ms| + i];
    FlatAppend(ms, bs);
    WalkNames(ms);
    WalkNames(bs);
    WalkLength([], m);
    WalkLength([], b);
    FlatNothing();
    assert Tokens(j) != [] && Flat(ms) + Flat(bs) == "/" + j;
  }

  lemma FlatNothing()
    ensures Flat([]) == ""
  {
  }

  lemma MergeRooted(m: string, b: string)
    requires m != ""
    ensures Merge("/" + m, b) == m + "/" + b
  {
  }

  /** Where both steps fit, the joined argument fits unless the merged text is too long. */
  lemma JoinedFits(cs: Stack, a: string, b: string)
    requires AllNormal(cs) && Relative(a) && Relative(b)
    requires Admits(Render(cs), a) && Admits(Render(Walk(cs, Tokens(a))), b)
    ensures Admits(Render(cs), a + "/" + b) <==> JoinedLength(Render(cs), a, b) < PATH_MAX
  {
    hide Tokens, Walk, Canonical;
    var m := Merge(Render(cs), a);
    JoinedIsMerged(cs, a, b);
    MergeTwice(cs, a, b);
    MergeLength(cs, a);
    MergeRooted(m, b);
    MergeWalk(cs, a);
    if Overflows(m + "/" + b) {
      CanonicalFront(m, b);
    }
  }

  /** Two steps, the second from where the first leads. */
  function InTwoSteps(current: string, a: string, b: string): Resolution {
    match Normalize(current, a)
    case Path(text) => Normalize(text, b)
    case Refused => Refused
  }

  /**
   * Changing directory composes exactly as far as the merged text of the joined argument
   * fits: then one step and two give the same result, whether that is a path or a
   * refusal; beyond it the joined argument is refused whatever the two steps give.
   */
  lemma ChangeDirComposes(current: string, a: string, b: string)
    requires Canonical(current) && Relative(a) && Relative(b)
    ensures var one, two := Normalize(current, a + "/" + b), InTwoSteps(current, a, b);
            && (JoinedLength(current, a, b) < PATH_MAX ==> one == two)
            && (JoinedLength(current, a, b) >= PATH_MAX ==> one == Refused)
            && (two.Path? ==> (one == two <==> Admits(current, a + "/" + b)))
  {
    hide Walk, Tokens, Merge, Overflows;
    var cs := Tokens(current);
    JoinedIsMerged(cs, a, b);
    TokensAreNames(a);
    WalkIsNormal(cs, Tokens(a));
    if Admits(current, a) {
      NormalizeIsWalk(cs, a);
    }
    if Admits(current, a + "/" + b) {
      StepsFit(cs, a, b);
      JoinedWalk(cs, a, b);
      NormalizeIsWalk(cs, a + "/" + b);
      NormalizeIsWalk(Walk(cs, Tokens(a)), b);
    } else if InTwoSteps(current, a, b).Path? {
      JoinedFits(cs, a, b);
    }
  }

  lemma JoinedWalk(cs: Stack, a: string, b: string)
    ensures Walk(cs, Tokens(a + "/" + b)) == Walk(Walk(cs, Tokens(a)), Tokens(b))
  {
    assert a + "/" + b == a + ("/" + b);
    TokensConcat(a, "/" + b);
    TokensSlash(b);
    WalkAppend(cs, Tokens(a), Tokens(b));
  }

  // ---------- one component at a time, as texts ----------

  /** The path one level down. */
  function Child(p: string, t: string): string {
    if p == "/" then "/" + t else p + "/" + t
  }

  lemma OneToken(t: string)
    requires t != "" && '/' !in t
    ensures Tokens(t) == [t]
  {
    TokensName(t, "");
    TokensEmpty();
    assert t + "" == t;
  }

  lemma WalkOne(cs: Stack, t: string)
    ensures Walk(cs, [t]) == Apply(cs, t)
  {
    assert [t][1..] == [];
    assert Walk(Apply(cs, t), []) == Apply(cs, t);
  }

  /** A text with a component that is no name is not in normal form, so it does not overflow. */
  lemma NotNormal(cs: Stack, t: string)
    requires AllNormal(cs) && Relative(t) && '/' !in t && !Normal(t)
    ensures !Overflows(Merge(Render(cs), t))
    ensures |Merge(Render(cs), t)| == (if cs == [] then 0 else |Render(cs)|) + |t|
  {
    hide Tokens, Flat;
    var m := Merge(Render(cs), t);
    MergeLength(cs, t);
    OneToken(t);
    TokensSlash(m);
    if cs == [] {
      assert Tokens(m)[0] == t;
    } else {
      MergeTokens(cs, t);
      assert Tokens(m)[|cs|] == t;
    }
  }

  lemma MergeTokens(cs: Stack, arg: string)
    requires AllNormal(cs)
    ensures Tokens(Merge(Render(cs), arg)) == cs + Tokens(arg)
  {
    if cs == [] {
      assert [] + Tokens(arg) == Tokens(arg);
    } else {
      hide Tokens;
      var flat := Flat(cs);
      FlatSlash(cs);
      TokensSlash(flat[1..]);
      TokensFlat(cs);
      assert Merge(Render(cs), arg) == flat[1..] + ("/" + arg);
      TokensConcat(flat[1..], "/" + arg);
      TokensSlash(arg);
    }
  }

  lemma RenderRootOnly(cs: Stack)
    requires AllNormal(cs)
    ensures Render(cs) == "/" <==> cs == []
  {
    if cs != [] {
      FlatSlash(cs);
    }
  }

  /** "." stays where it is. */
  lemma DotStays(p: string)
    requires Canonical(p)
    ensures Normalize(p, ".") == if p == "/" || |p| + 1 < PATH_MAX then Path(p) else Refused
  {
    hide Tokens, Flat, Walk;
    var cs := Tokens(p);
    NotNormal(cs, ".");
    RenderRootOnly(cs);
    MergeWalk(cs, ".");
    OneToken(".");
    WalkOne(cs, ".");
  }

  /** ".." at the root stays at the root. */
  lemma UpAtRoot()
    ensures Normalize("/", "..") == Path("/")
  {
    hide Tokens, Walk;
    NotNormal([], "..");
    MergeWalk([], "..");
    OneToken("..");
    WalkOne([], "..");
  }

  /** ".." goes back to where the last name came from. */
  lemma UpFromChild(p: string, t: string)
    requires Canonical(p) && Normal(t)
    ensures Normalize(Child(p, t), "..") == if |Child(p, t)| + 2 < PATH_MAX then Path(p) else Refused
  {
    hide Tokens, Flat, Walk;
    var cs := Tokens(p);
    ChildIsRender(cs, t);
    NotNormal(cs + [t], "..");
    MergeWalk(cs + [t], "..");
    OneToken("..");
    WalkOne(cs + [t], "..");
    assert (cs + [t])[..|cs + [t]| - 1] == cs;
  }

  lemma ChildIsRender(cs: Stack, t: string)
    requires AllNormal(cs)
    ensures Child(Render(cs), t) == Render(cs + [t])
  {
    FlatPush(cs, t);
    RenderRootOnly(cs);
    if cs == [] {
      FlatNothing();
    }
  }

  /** A name goes down into it, if the path fits its buffer. */
  lemma Descends(p: string, t: string)
    requires Canonical(p) && Normal(t)
    ensures Normalize(p, t) == if |Child(p, t)| < PATH_MAX then Path(Child(p, t)) else Refused
  {
    hide Tokens, Flat, Walk;
    var cs := Tokens(p);
    var m := Merge(p, t);
    ChildIsRender(cs, t);
    RenderRootOnly(cs);
    MergeLength(cs, t);
    MergeTokens(cs, t);
    OneToken(t);
    WalkOne(cs, t);
    MergeWalk(cs, t);
    TokensSlash(m);
    ChildIsMerged(cs, t);
  }

  lemma ChildIsMerged(cs: Stack, t: string)
    requires AllNormal(cs)
    ensures Child(Render(cs), t) == "/" + Merge(Render(cs), t)
  {
    if cs != [] {
      FlatSlash(cs);
    }
  }

  /** "./" in front makes no difference. */
  lemma DotSlash(p: string, a: string)
    requires Canonical(p) && Relative(a) && JoinedLength(p, ".", a) < PATH_MAX
    ensures Normalize(p, "./" + a) == Normalize(p, a)
  {
    assert "." + "/" + a == "./" + a;
    ChangeDirComposes(p, ".", a);
    DotStays(p);
  }

  /** Neither does a doubled '/', or one at the end. */
  lemma ExtraSlash(p: string, a: string, b: string)
    requires Canonical(p) && Relative(a)
    requires Admits(p, a + "/" + b) && Admits(p, a + "//" + b)
    ensures Normalize(p, a + "//" + b) == Normalize(p, a + "/" + b)
    ensures b == "" && Admits(p, a) ==> Normalize(p, a + "/" + b) == Normalize(p, a)
  {
    hide Tokens, Walk, Admits, Merge;
    var cs := Tokens(p);
    assert a + "/" + b == a + ("/" + b);
    assert a + "//" + b == a + ("/" + ("/" + b));
    TokensConcat(a, "/" + b);
    TokensConcat(a, "/" + ("/" + b));
    TokensSlash("/" + b);
    TokensSlash(b);
    NormalizeIsWalk(cs, a + "/" + b);
    NormalizeIsWalk(cs, a + "//" + b);
    if b == "" && Admits(p, a) {
      TokensEmpty();
      assert Tokens(a) + [] == Tokens(a);
      NormalizeIsWalk(cs, a);
    }
  }

  /** An empty argument and an absolute one are refused. */
  lemma RefusedArguments(p: string, a: string)
    ensures Normalize(p, "") == Refused && Normalize(p, "/" + a) == Refused
  {
  }

  function Copies(n: nat, c: char): (s: string)
    ensures |s| == n && forall i :: 0 <= i < n ==> s[i] == c
  {
    seq(n, i => c)
  }

  lemma {:induction false} TokensOfSlashes(n: nat)
    ensures Tokens(Copies(n, '/')) == []
  {
    if n > 0 {
      assert Copies(n, '/')[1..] == Copies(n - 1, '/');
      TokensOfSlashes(n - 1);
    }
  }

  /** The two steps may succeed where the joined argument does not fit its buffer. */
  lemma JoinedMayNotFit()
    ensures var a, b := "." + Copies(4000, '/'), Copies(100, 'y');
            && Normalize("/", a) == Path("/")
            && Normalize("/", b) == Path("/" + b)
            && Normalize("/", a + "/" + b) == Refused
  {
    hide Tokens, Canonical;
    var slashes, b := Copies(4000, '/'), Copies(100, 'y');
    DotAndSlashes(4000);
    assert !Overflows("." + slashes) && !Overflows(b);
    assert Merge("/", b) == b;
    assert b[0] == 'y' && |b| == 100 && '/' !in b;
    OneName(b);
  }

  /** A name and the way back out of it. */
  lemma InAndOut(t: string)
    requires Normal(t)
    ensures Walk([], Tokens(t + "/" + "..")) == []
  {
    hide Tokens, Walk;
    JoinedWalk([], t, "..");
    OneToken("..");
    OneToken(t);
    WalkNames([t]);
    WalkOne([t], "..");
  }

  lemma DotAndSlashes(n: nat)
    ensures Walk([], Tokens("." + Copies(n, '/'))) == []
  {
    TokensOfSlashes(n);
    TokensName(".", Copies(n, '/'));
    assert (["."] + [])[1..] == [];
  }

  lemma OneName(t: string)
    requires Normal(t)
    ensures Render(Walk([], Tokens(t))) == "/" + t
  {
    hide Tokens;
    var ts := [t];
    assert ts[..|ts| - 1] == [];
    assert Flat([]) == "";
    assert Render(ts) == "/" + t;
    TokensRender(ts);
    TokensSlash(t);
    WalkNames(ts);
  }

  /** A path in normal form other than the root, entered again from the root, is unchanged. */
  lemma CanonicalFixedPoint(p: string)
    requires Canonical(p) && p != "/"
    ensures Normalize("/", p[1..]) == Path(p) <==> |p| < PATH_MAX
  {
    var cs := Tokens(p);
    FlatSlash(cs);
    TokensSlash(p[1..]);
    WalkNames(cs);
    assert p == "/" + p[1..];
    NormalizeLimit("/", p[1..]);
  }

  lemma NormalizeLimit(current: string, arg: string)
    ensures Normalize(current, arg).Path? ==> |Normalize(current, arg).text| < PATH_MAX
  {
    if Normalize(current, arg).Path? {
      NormalizeCanonical(current, arg);
    }
  }

  // ---------- the real path ----------

  /** Different paths in normal form have different real paths. */
  lemma RealPathInjective(p: string, q: string)
    requires Canonical(p) && Canonical(q)
    ensures RealPath(p) == RealPath(q) <==> p == q
  {
    if RealPath(p) == RealPath(q) {
      if p != "/" {
        FlatSlash(Tokens(p));
      }
      if q != "/" {
        FlatSlash(Tokens(q));
      }
      assert |BASE_DIR| == 8;
      if p != "/" && q != "/" {
        assert p == RealPath(p)[8..] && q == RealPath(q)[8..];
      }
    }
  }

  /** The real path of a path in normal form descends from the base directory, name by name. */
  lemma RealPathConfined(p: string)
    requires Canonical(p)
    ensures Tokens(RealPath(p)) == Tokens(BASE_DIR) + Tokens(p)
    ensures forall base: Stack :: Walk(base, Tokens(p)) == base + Tokens(p)
  {
    if p == "/" {
      assert "/"[1..] == "";
    } else {
      FlatSlash(Tokens(p));
      TokensConcat(BASE_DIR, p);
    }
    forall base: Stack ensures Walk(base, Tokens(p)) == base + Tokens(p) {
      WalkNormal(base, Tokens(p));
    }
  }

  /** The real path of the root is the base directory; one level down, it is one name longer. */
  lemma RealPathStep(p: string, t: string)
    requires t != ""
    ensures RealPath("/") == "../tests"
    ensures RealPath(Child(p, t)) == RealPath(p) + "/" + t
  {
    assert |Child(p, t)| >= 2;
    assert BASE_DIR + (p + "/" + t) == BASE_DIR + p + "/" + t;
    assert BASE_DIR + ("/" + t) == BASE_DIR + "/" + t;
  }

  /** A path whose real path fits leaves room for the base directory. */
  lemma RealFitsExactly(p: string)
    requires Canonical(p)
    ensures RealFits(p) <==> |p| <= 4087
  {
    assert |BASE_DIR| == 8;
  }
}
