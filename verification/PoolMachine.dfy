// Every interleaving of the accepting thread and the workers, including shutdown, as a
// transition system. Each locked region is one step; accept may reuse any descriptor
// that is not open; wake-ups may be spurious.

module PoolMachine {
  import opened ThreadPool

  /** An accepted connection: its descriptor, and its number in accept order (not visible to the code). */
  datatype Conn = Conn(fd: int, id: nat)

  datatype Worker =
    | Ready                       // about to take the lock at the top of its loop
    | Waiting                     // asleep on the condition variable
    | Signalled                   // woken, about to re-check the queue
    | Handling(conn: Conn)        // in handle_request
    | Unregistered(conn: Conn)    // about to close
    | Exited

  datatype Main =
    | Accepting
    | Accepted(conn: Conn)
    | ListenerClosed
    | FlagSet
    | ActiveShut
    | Joining(next: nat)
    | Finished

  /**
   * `open` is the kernel's table: which connection an open descriptor stands for. `log` is
   * the descriptor each accepted connection was given, `closes` how often each was closed,
   * `shut` the connections shut down, `taken` how many connections workers have dequeued.
   */
  datatype State = State(
    main: Main, workers: seq<Worker>, queue: seq<Conn>, slots: seq<int>, exitFlag: bool,
    open: map<int, nat>, log: seq<int>, closes: seq<nat>, shut: set<nat>, taken: nat)

  // ---------- the kernel's descriptor table ----------

  datatype Table = Table(open: map<int, nat>, closes: seq<nat>)

  /** close(2): frees whatever connection the descriptor stands for now. */
  function Close(t: Table, fd: int): Table {
    if fd in t.open && t.open[fd] < |t.closes| then
      Table(t.open - {fd}, t.closes[t.open[fd] := t.closes[t.open[fd]] + 1])
    else t
  }

  function CloseAll(t: Table, fds: seq<int>): Table
    decreases |fds|
  {
    if fds == [] then t else CloseAll(Close(t, fds[0]), fds[1..])
  }

  function Fds(q: seq<Conn>): (fds: seq<int>)
    ensures |fds| == |q|
  {
    if q == [] then [] else [q[0].fd] + Fds(q[1..])
  }

  // ---------- steps ----------

  datatype Action =
    | Accept(fd: int)
    | Submit(workers: seq<Worker>)
    | CloseListener
    | SetFlag(workers: seq<Worker>)
    | ShutdownActive
    | Drain
    | Join
    | Finish
    | Enter(i: nat)
    | Spurious(i: nat)
    | Return(i: nat)
    | CloseConn(i: nat)

  /** Some sleeping workers have been woken, nothing else has changed. */
  predicate Woken(ws: seq<Worker>, vs: seq<Worker>) {
    |ws| == |vs| && forall i :: 0 <= i < |ws| ==> vs[i] == ws[i] || (ws[i].Waiting? && vs[i].Signalled?)
  }

  predicate SomeWaiting(ws: seq<Worker>) {
    exists i :: 0 <= i < |ws| && ws[i].Waiting?
  }

  predicate Enabled(s: State, a: Action) {
    match a
    case Accept(fd) => s.main.Accepting? && fd >= 0 && fd !in s.open
    // pthread_cond_signal wakes at least one sleeper when there is one
    case Submit(vs) => s.main.Accepted? && Woken(s.workers, vs) && (SomeWaiting(s.workers) ==> vs != s.workers)
    case CloseListener => s.main.Accepting?
    // pthread_cond_broadcast wakes them all
    case SetFlag(vs) => s.main.ListenerClosed? && Woken(s.workers, vs) && !SomeWaiting(vs)
    case ShutdownActive => s.main.FlagSet?
    case Drain => s.main.ActiveShut?
    case Join => s.main.Joining? && s.main.next < |s.workers| && s.workers[s.main.next].Exited?
    case Finish => s.main.Joining? && s.main.next == |s.workers|
    case Enter(i) => i < |s.workers| && (s.workers[i].Ready? || s.workers[i].Signalled?)
    case Spurious(i) => i < |s.workers| && s.workers[i].Waiting?
    case Return(i) => i < |s.workers| && s.workers[i].Handling?
    case CloseConn(i) => i < |s.workers| && s.workers[i].Unregistered?
  }

  /** The connections the descriptors in the slots stand for. */
  function Targets(open: map<int, nat>, fds: seq<int>): set<nat> {
    set fd | fd in fds && fd in open :: open[fd]
  }

  /** The locked region at the top of thread_func. */
  function EnterStep(s: State, i: nat): State
    requires i < |s.workers|
  {
    if s.exitFlag then s.(workers := s.workers[i := Exited])
    else if s.queue == [] then s.(workers := s.workers[i := Waiting])
    else
      var c := s.queue[0];
      s.(workers := s.workers[i := Handling(c)], queue := s.queue[1..],
         slots := Register(s.slots, c.fd), taken := s.taken + 1)
  }

  function Do(s: State, a: Action): State
    requires Enabled(s, a)
  {
    match a
    case Accept(fd) =>
      s.(main := Accepted(Conn(fd, |s.log|)), open := s.open[fd := |s.log|],
         log := s.log + [fd], closes := s.closes + [0])
    case Submit(vs) => s.(main := Accepting, queue := s.queue + [s.main.conn], workers := vs)
    case CloseListener => s.(main := ListenerClosed)
    case SetFlag(vs) => s.(main := FlagSet, exitFlag := true, workers := vs)
    case ShutdownActive => s.(main := ActiveShut, shut := s.shut + Targets(s.open, InUse(s.slots)))
    case Drain =>
      var t := CloseAll(Table(s.open, s.closes), InUse(Fds(s.queue)));
      s.(main := Joining(0), queue := [], open := t.open, closes := t.closes)
    case Join => s.(main := Joining(s.main.next + 1))
    case Finish => s.(main := Finished)
    case Enter(i) => EnterStep(s, i)
    case Spurious(i) => s.(workers := s.workers[i := Signalled])
    case Return(i) =>
      var c := s.workers[i].conn;
      s.(workers := s.workers[i := Unregistered(c)], slots := Unregister(s.slots, c.fd))
    case CloseConn(i) =>
      var t := Close(Table(s.open, s.closes), s.workers[i].conn.fd);
      s.(workers := s.workers[i := Ready], open := t.open, closes := t.closes)
  }

  predicate Init(s: State) {
    && s.main == Accepting && s.queue == [] && !s.exitFlag && s.open == map[]
    && s.log == [] && s.closes == [] && s.shut == {} && s.taken == 0
    && (forall i :: 0 <= i < |s.workers| ==> s.workers[i] == Ready)
    && |s.slots| == |s.workers| && (forall i :: 0 <= i < |s.slots| ==> s.slots[i] == NO_FD)
  }

  // ---------- who holds what ----------

  function HeldBy(w: Worker): multiset<Conn> {
    if w.Handling? || w.Unregistered? then multiset{w.conn} else multiset{}
  }

  function WorkersHold(ws: seq<Worker>): multiset<Conn> {
    if ws == [] then multiset{} else HeldBy(ws[0]) + WorkersHold(ws[1..])
  }

  function MainHolds(m: Main): multiset<Conn> {
    if m.Accepted? then multiset{m.conn} else multiset{}
  }

  /** Every place a connection can be: the accepting thread's hand, the queue, a worker. */
  function Held(s: State): multiset<Conn> {
    MainHolds(s.main) + multiset(s.queue) + WorkersHold(s.workers)
  }

  function HandledBy(w: Worker): multiset<int> {
    if w.Handling? then multiset{w.conn.fd} else multiset{}
  }

  /** The descriptors that handle_request is running on. */
  function Handled(ws: seq<Worker>): multiset<int> {
    if ws == [] then multiset{} else HandledBy(ws[0]) + Handled(ws[1..])
  }

  function AwakeOne(w: Worker): nat {
    if w.Ready? || w.Signalled? then 1 else 0
  }

  /** Workers that will look at the queue again without being woken. */
  function Awake(ws: seq<Worker>): nat {
    if ws == [] then 0 else AwakeOne(ws[0]) + Awake(ws[1..])
  }

  lemma AddFirst<T>(first: multiset<T>, b: multiset<T>, x: multiset<T>, c: multiset<T>, y: multiset<T>)
    requires b + x == c + y
    ensures x <= c ==> x <= first + c
    ensures (first + b) + x == (first + c) + y
  {
    assert (first + b) + x == first + (b + x);
    assert (first + c) + y == first + (c + y);
  }

  lemma Exchange<T>(x: multiset<T>, rest: multiset<T>, y: multiset<T>)
    ensures (y + rest) + x == (x + rest) + y
    ensures x <= x + rest
  {
  }

  lemma {:induction false} HeldChanges(ws: seq<Worker>, i: nat, w: Worker)
    requires i < |ws|
    ensures HeldBy(ws[i]) <= WorkersHold(ws)
    ensures WorkersHold(ws[i := w]) + HeldBy(ws[i]) == WorkersHold(ws) + HeldBy(w)
  {
    if i > 0 {
      assert ws[i := w][1..] == ws[1..][i - 1 := w];
      HeldChanges(ws[1..], i - 1, w);
      AddFirst(HeldBy(ws[0]), WorkersHold(ws[i := w][1..]), HeldBy(ws[i]), WorkersHold(ws[1..]), HeldBy(w));
    } else {
      assert ws[i := w][1..] == ws[1..];
      Exchange(HeldBy(ws[0]), WorkersHold(ws[1..]), HeldBy(w));
    }
  }

  lemma {:induction false} HandledChanges(ws: seq<Worker>, i: nat, w: Worker)
    requires i < |ws|
    ensures HandledBy(ws[i]) <= Handled(ws)
    ensures Handled(ws[i := w]) + HandledBy(ws[i]) == Handled(ws) + HandledBy(w)
  {
    if i > 0 {
      assert ws[i := w][1..] == ws[1..][i - 1 := w];
      HandledChanges(ws[1..], i - 1, w);
      AddFirst(HandledBy(ws[0]), Handled(ws[i := w][1..]), HandledBy(ws[i]), Handled(ws[1..]), HandledBy(w));
    } else {
      assert ws[i := w][1..] == ws[1..];
      Exchange(HandledBy(ws[0]), Handled(ws[1..]), HandledBy(w));
    }
  }

  lemma {:induction false} AwakeChanges(ws: seq<Worker>, i: nat, w: Worker)
    requires i < |ws|
    ensures AwakeOne(ws[i]) <= Awake(ws)
    ensures Awake(ws[i := w]) == Awake(ws) - AwakeOne(ws[i]) + AwakeOne(w)
  {
    if i > 0 {
      assert ws[i := w][1..] == ws[1..][i - 1 := w];
      AwakeChanges(ws[1..], i - 1, w);
    } else {
      assert ws[i := w][1..] == ws[1..];
    }
  }

  lemma WorkerChanges(ws: seq<Worker>, i: nat, w: Worker)
    requires i < |ws|
    ensures HeldBy(ws[i]) <= WorkersHold(ws)
    ensures WorkersHold(ws[i := w]) + HeldBy(ws[i]) == WorkersHold(ws) + HeldBy(w)
    ensures HandledBy(ws[i]) <= Handled(ws)
    ensures Handled(ws[i := w]) + HandledBy(ws[i]) == Handled(ws) + HandledBy(w)
    ensures AwakeOne(ws[i]) <= Awake(ws)
    ensures Awake(ws[i := w]) == Awake(ws) - AwakeOne(ws[i]) + AwakeOne(w)
  {
    HeldChanges(ws, i, w);
    HandledChanges(ws, i, w);
    AwakeChanges(ws, i, w);
  }

  lemma WokenTail(ws: seq<Worker>, vs: seq<Worker>)
    requires Woken(ws, vs) && ws != []
    ensures Woken(ws[1..], vs[1..])
    ensures vs != ws ==> vs[0] != ws[0] || vs[1..] != ws[1..]
  {
    assert forall i :: 0 <= i < |ws| - 1 ==> ws[1..][i] == ws[i + 1] && vs[1..][i] == vs[i + 1];
    assert ws == [ws[0]] + ws[1..] && vs == [vs[0]] + vs[1..];
  }

  lemma {:induction false} WakingChanges(ws: seq<Worker>, vs: seq<Worker>)
    requires Woken(ws, vs)
    ensures WorkersHold(vs) == WorkersHold(ws) && Handled(vs) == Handled(ws)
    ensures Awake(vs) >= Awake(ws) && (vs != ws ==> Awake(vs) > Awake(ws))
    decreases |ws|
  {
    if ws != [] {
      WokenTail(ws, vs);
      WakingChanges(ws[1..], vs[1..]);
    }
  }

  // ---------- invariant ----------

  /** The held connections are exactly the open ones, each held once; the others were closed once. */
  ghost predicate Ledger(held: multiset<Conn>, t: Table, log: seq<int>) {
    && |t.closes| == |log|
    && (forall fd :: fd in t.open ==> fd >= 0 && t.open[fd] < |log| && log[t.open[fd]] == fd)
    && (forall c: Conn :: held[c] == if c.fd in t.open && t.open[c.fd] == c.id then 1 else 0)
    && (forall id :: 0 <= id < |log| ==> t.closes[id] == if log[id] in t.open && t.open[log[id]] == id then 0 else 1)
  }

  /** The slots name exactly the descriptors being handled. */
  ghost predicate SlotsOk(s: State) {
    |s.slots| == |s.workers| && forall v :: v != NO_FD ==> multiset(s.slots)[v] == Handled(s.workers)[v]
  }

  predicate Stopping(m: Main) {
    m.FlagSet? || m.ActiveShut? || m.Joining? || m.Finished?
  }

  predicate PastShutdown(m: Main) {
    m.ActiveShut? || m.Joining? || m.Finished?
  }

  predicate Drained(m: Main) {
    m.Joining? || m.Finished?
  }

  predicate StopOk(s: State) {
    && (s.exitFlag <==> Stopping(s.main))
    && (s.exitFlag ==> !SomeWaiting(s.workers))
    && (forall i :: 0 <= i < |s.workers| && s.workers[i].Exited? ==> s.exitFlag)
    && (PastShutdown(s.main) ==>
          forall i :: 0 <= i < |s.workers| && s.workers[i].Handling? ==> s.workers[i].conn.id in s.shut)
    && (Drained(s.main) ==> s.queue == [])
    && (s.main.Joining? ==>
          s.main.next <= |s.workers| && forall i :: 0 <= i < s.main.next ==> s.workers[i].Exited?)
    && (s.main.Finished? ==> forall i :: 0 <= i < |s.workers| ==> s.workers[i].Exited?)
  }

  /** The queue holds consecutive connections in accept order, starting after the last one taken. */
  predicate OrderOk(s: State) {
    && (forall j :: 0 <= j < |s.queue| ==> s.queue[j].id == s.taken + j)
    && (!Drained(s.main) ==> s.taken + |s.queue| + (if s.main.Accepted? then 1 else 0) == |s.log|)
    && (s.main.Accepted? ==> s.main.conn.id + 1 == |s.log|)
  }

  /** No wake-up is lost: someone awake will come for every queued connection. */
  predicate WakeOk(s: State) {
    !s.exitFlag && SomeWaiting(s.workers) ==> |s.queue| <= Awake(s.workers)
  }

  ghost predicate Inv(s: State) {
    && Ledger(Held(s), Table(s.open, s.closes), s.log)
    && SlotsOk(s) && StopOk(s) && OrderOk(s) && WakeOk(s)
  }

  // ---------- the descriptor table ----------

  lemma LedgerAccept(held: multiset<Conn>, t: Table, log: seq<int>, fd: int)
    requires Ledger(held, t, log) && fd >= 0 && fd !in t.open
    ensures Ledger(held + multiset{Conn(fd, |log|)}, Table(t.open[fd := |log|], t.closes + [0]), log + [fd])
  {
  }

  /** Closing a held connection closes that connection, once, and no other. */
  lemma LedgerClose(held: multiset<Conn>, t: Table, log: seq<int>, c: Conn)
    requires Ledger(held, t, log) && c in held
    ensures t.open[c.fd] == c.id && c.id < |t.closes|
    ensures Ledger(held - multiset{c}, Close(t, c.fd), log)
  {
    assert held[c] == 1;
  }

  lemma {:induction false} LedgerCloseAll(held: multiset<Conn>, t: Table, log: seq<int>, q: seq<Conn>)
    requires Ledger(held, t, log) && multiset(q) <= held
    ensures InUse(Fds(q)) == Fds(q)
    ensures Ledger(held - multiset(q), CloseAll(t, Fds(q)), log)
    decreases |q|
  {
    if q == [] {
      assert held - multiset(q) == held;
    } else {
      assert q == [q[0]] + q[1..];
      LedgerClose(held, t, log, q[0]);
      LedgerCloseAll(held - multiset{q[0]}, Close(t, q[0].fd), log, q[1..]);
      assert held - multiset(q) == held - multiset{q[0]} - multiset(q[1..]);
      assert Fds(q)[1..] == Fds(q[1..]);
    }
  }

  // ---------- the slots ----------

  lemma {:induction false} HandledCount(ws: seq<Worker>)
    ensures |Handled(ws)| <= |ws|
    ensures (exists i :: 0 <= i < |ws| && !ws[i].Handling?) ==> |Handled(ws)| < |ws|
  {
    if ws != [] {
      HandledCount(ws[1..]);
      if i :| 0 <= i < |ws| && !ws[i].Handling? {
        if i > 0 {
          assert !ws[1..][i - 1].Handling?;
        }
      }
    }
  }

  lemma SlotsCount(slots: seq<int>, ws: seq<Worker>, i: nat)
    requires |slots| == |ws| && i < |ws| && !ws[i].Handling? && Handled(ws)[NO_FD] == 0
    requires forall v :: v != NO_FD ==> multiset(slots)[v] == Handled(ws)[v]
    ensures NO_FD in slots
  {
    if NO_FD !in slots {
      forall v ensures multiset(slots)[v] == Handled(ws)[v] {
        assert v == NO_FD ==> v !in multiset(slots);
      }
      assert multiset(slots) == Handled(ws);
      assert |Handled(ws)| == |multiset(slots)| == |slots|;
      HandledCount(ws);
    }
  }

  /** A worker about to take a connection always finds a free slot to register it in. */
  lemma FreeSlot(s: State, i: nat)
    requires Inv(s) && Enabled(s, Enter(i))
    ensures NO_FD in s.slots
  {
    hide Ledger, Held, StopOk, OrderOk, WakeOk;
    HeldIsOpen(s);
    SlotsCount(s.slots, s.workers, i);
  }

  /** A descriptor being handled is a held connection's, at most once, and never -1. */
  lemma {:induction false} HandledAreHeld(ws: seq<Worker>, open: map<int, nat>, v: int)
    requires forall c :: c in WorkersHold(ws) ==> c.fd >= 0 && c.fd in open && open[c.fd] == c.id
    ensures Handled(ws)[v] <= if v in open then WorkersHold(ws)[Conn(v, open[v])] else 0
    ensures Handled(ws)[NO_FD] == 0
  {
    if ws != [] {
      assert forall c :: c in WorkersHold(ws[1..]) ==> c in WorkersHold(ws);
      HandledAreHeld(ws[1..], open, v);
      assert HeldBy(ws[0]) <= WorkersHold(ws);
    }
  }

  lemma HeldIsOpen(s: State)
    requires Ledger(Held(s), Table(s.open, s.closes), s.log)
    ensures forall c :: c in WorkersHold(s.workers) ==> c.fd >= 0 && c.fd in s.open && s.open[c.fd] == c.id
    ensures forall v :: Handled(s.workers)[v] <= 1
    ensures Handled(s.workers)[NO_FD] == 0
  {
    forall c | c in WorkersHold(s.workers)
      ensures c.fd >= 0 && c.fd in s.open && s.open[c.fd] == c.id
    {
      assert c in Held(s);
    }
    forall v ensures Handled(s.workers)[v] <= 1 {
      HandledAreHeld(s.workers, s.open, v);
      if v in s.open {
        assert Held(s)[Conn(v, s.open[v])] <= 1;
      }
    }
    HandledAreHeld(s.workers, s.open, 0);
  }

  // ---------- how one worker's change shows in each part ----------

  lemma Cancel<T>(a: multiset<T>, b: multiset<T>, x: multiset<T>)
    requires a + x == b + x
    ensures a == b
  {
    forall c ensures a[c] == b[c] {
      assert (a + x)[c] == (b + x)[c];
    }
  }

  lemma HeldUpdate(s: State, i: nat, w: Worker)
    requires i < |s.workers|
    ensures HeldBy(s.workers[i]) <= Held(s)
    ensures Held(s.(workers := s.workers[i := w])) + HeldBy(s.workers[i]) == Held(s) + HeldBy(w)
  {
    var rest := MainHolds(s.main) + multiset(s.queue);
    HeldChanges(s.workers, i, w);
    AddFirst(rest, WorkersHold(s.workers[i := w]), HeldBy(s.workers[i]), WorkersHold(s.workers), HeldBy(w));
  }

  lemma HeldSame(s: State, i: nat, w: Worker)
    requires i < |s.workers| && HeldBy(w) == HeldBy(s.workers[i])
    ensures Held(s.(workers := s.workers[i := w])) == Held(s)
  {
    HeldUpdate(s, i, w);
    Cancel(Held(s.(workers := s.workers[i := w])), Held(s), HeldBy(w));
  }

  lemma HeldTake(s: State, i: nat)
    requires i < |s.workers| && HeldBy(s.workers[i]) == multiset{} && s.queue != []
    ensures Held(s.(workers := s.workers[i := Handling(s.queue[0])], queue := s.queue[1..])) == Held(s)
  {
    var c := s.queue[0];
    HeldChanges(s.workers, i, Handling(c));
    assert s.queue == [c] + s.queue[1..];
    assert multiset(s.queue) == multiset{c} + multiset(s.queue[1..]);
    var a, q, h := MainHolds(s.main), multiset(s.queue[1..]), WorkersHold(s.workers);
    assert (a + q) + (h + multiset{c}) == (a + (multiset{c} + q)) + h;
  }

  lemma HeldClose(s: State, i: nat)
    requires i < |s.workers| && s.workers[i].Unregistered?
    ensures s.workers[i].conn in Held(s)
    ensures Held(s.(workers := s.workers[i := Ready])) == Held(s) - multiset{s.workers[i].conn}
  {
    HeldUpdate(s, i, Ready);
    var c := s.workers[i].conn;
    var h := Held(s.(workers := s.workers[i := Ready]));
    assert h + multiset{c} == Held(s);
    assert h == (h + multiset{c}) - multiset{c};
  }

  lemma HeldDependsOn(s: State, t: State)
    requires s.main == t.main && s.queue == t.queue && s.workers == t.workers
    ensures Held(s) == Held(t)
  {
  }

  lemma SlotsSame(s: State, t: State, i: nat, w: Worker)
    requires SlotsOk(s) && i < |s.workers| && HandledBy(w) == HandledBy(s.workers[i])
    requires t.workers == s.workers[i := w] && t.slots == s.slots
    ensures SlotsOk(t)
  {
    HandledChanges(s.workers, i, w);
    Cancel(Handled(t.workers), Handled(s.workers), HandledBy(w));
  }

  lemma SlotsTake(s: State, t: State, i: nat, c: Conn)
    requires SlotsOk(s) && i < |s.workers| && !s.workers[i].Handling? && NO_FD in s.slots
    requires t.workers == s.workers[i := Handling(c)] && t.slots == Register(s.slots, c.fd)
    ensures SlotsOk(t)
  {
    HandledChanges(s.workers, i, Handling(c));
    ReplaceMultiset(s.slots, NO_FD, c.fd);
    forall v | v != NO_FD ensures multiset(t.slots)[v] == Handled(t.workers)[v] {
      assert (Handled(t.workers) + multiset{})[v] == (Handled(s.workers) + multiset{c.fd})[v];
    }
  }

  lemma SlotsReturn(s: State, t: State, i: nat)
    requires SlotsOk(s) && i < |s.workers| && s.workers[i].Handling? && s.workers[i].conn.fd in s.slots
    requires t.workers == s.workers[i := Unregistered(s.workers[i].conn)]
    requires t.slots == Unregister(s.slots, s.workers[i].conn.fd)
    ensures SlotsOk(t)
  {
    var c := s.workers[i].conn;
    HandledChanges(s.workers, i, Unregistered(c));
    ReplaceMultiset(s.slots, c.fd, NO_FD);
    forall v | v != NO_FD ensures multiset(t.slots)[v] == Handled(t.workers)[v] {
      assert (Handled(t.workers) + multiset{c.fd})[v] == (Handled(s.workers) + multiset{})[v];
    }
  }

  lemma WakeUpdate(s: State, t: State, i: nat, w: Worker)
    requires WakeOk(s) && i < |s.workers| && t.workers == s.workers[i := w] && t.exitFlag == s.exitFlag
    requires w.Waiting? ==> t.queue == []
    requires t.queue == [] || |t.queue| + AwakeOne(s.workers[i]) <= |s.queue| + AwakeOne(w)
    ensures WakeOk(t)
  {
    AwakeChanges(s.workers, i, w);
    if SomeWaiting(t.workers) && t.queue != [] {
      var k :| 0 <= k < |t.workers| && t.workers[k].Waiting?;
      assert s.workers[k].Waiting?;
    }
  }

  /** A worker that has not exited changes state without upsetting the shutdown sequence. */
  lemma StopUpdate(s: State, t: State, i: nat, w: Worker)
    requires StopOk(s) && i < |s.workers| && !s.workers[i].Exited?
    requires t.workers == s.workers[i := w] && t.main == s.main && t.exitFlag == s.exitFlag && t.shut == s.shut
    requires s.queue == [] ==> t.queue == []
    requires (w.Exited? ==> s.exitFlag) && (w.Waiting? ==> !s.exitFlag)
    requires w.Handling? && s.exitFlag ==> w == s.workers[i]
    ensures StopOk(t)
  {
    forall k | 0 <= k < |t.workers| && s.exitFlag ensures !t.workers[k].Waiting? {
      assert k != i ==> t.workers[k] == s.workers[k];
    }
  }

  lemma StopWoken(s: State, t: State, vs: seq<Worker>)
    requires StopOk(s) && Woken(s.workers, vs) && t.workers == vs && !s.exitFlag
    requires (t.main.Accepting? && !t.exitFlag) || (t.main.FlagSet? && t.exitFlag && !SomeWaiting(vs))
    ensures StopOk(t)
  {
  }

  lemma StopFlags(s: State)
    requires StopOk(s)
    ensures s.exitFlag <==> Stopping(s.main)
  {
  }

  lemma OrderSubmit(s: State, t: State)
    requires OrderOk(s) && s.main.Accepted? && t.main == Main.Accepting
    requires t.queue == s.queue + [s.main.conn] && t.taken == s.taken && t.log == s.log
    ensures OrderOk(t)
  {
  }

  lemma OrderTake(s: State, t: State)
    requires OrderOk(s) && s.queue != [] && !Drained(s.main) && t.main == s.main
    requires t.queue == s.queue[1..] && t.taken == s.taken + 1 && t.log == s.log
    ensures OrderOk(t)
  {
  }

  lemma OrderSame(s: State, t: State)
    requires OrderOk(s) && t.queue == s.queue && t.taken == s.taken && t.log == s.log && t.main == s.main
    ensures OrderOk(t)
  {
  }

  lemma WakeSubmit(s: State, t: State, vs: seq<Worker>)
    requires WakeOk(s) && Woken(s.workers, vs) && (SomeWaiting(s.workers) ==> vs != s.workers)
    requires t.workers == vs && t.exitFlag == s.exitFlag && |t.queue| == |s.queue| + 1
    ensures WakeOk(t)
  {
    WakingChanges(s.workers, vs);
    if SomeWaiting(vs) {
      var i :| 0 <= i < |vs| && vs[i].Waiting?;
      assert s.workers[i].Waiting?;
    }
  }

  lemma SlotsWoken(s: State, t: State, vs: seq<Worker>)
    requires SlotsOk(s) && Woken(s.workers, vs) && t.workers == vs && t.slots == s.slots
    ensures SlotsOk(t)
  {
    WakingChanges(s.workers, vs);
  }

  // ---------- every step keeps the invariant ----------

  lemma AcceptKeeps(s: State, fd: int)
    requires Inv(s) && Enabled(s, Accept(fd))
    ensures Inv(Do(s, Accept(fd)))
  {
    LedgerAccept(Held(s), Table(s.open, s.closes), s.log, fd);
    var t := Do(s, Accept(fd));
    assert Held(t) == Held(s) + multiset{Conn(fd, |s.log|)};
  }

  lemma HeldSubmit(s: State, vs: seq<Worker>)
    requires s.main.Accepted? && Woken(s.workers, vs)
    ensures Held(s.(main := Main.Accepting, queue := s.queue + [s.main.conn], workers := vs)) == Held(s)
  {
    WakingChanges(s.workers, vs);
    assert multiset(s.queue + [s.main.conn]) == multiset(s.queue) + multiset{s.main.conn};
  }

  lemma SubmitKeeps(s: State, vs: seq<Worker>)
    requires Inv(s) && Enabled(s, Submit(vs))
    ensures Inv(Do(s, Submit(vs)))
  {
    hide Ledger, Held, SlotsOk, StopOk, OrderOk, WakeOk;
    var t := Do(s, Submit(vs));
    HeldSubmit(s, vs);
    SlotsWoken(s, t, vs);
    StopFlags(s);
    StopWoken(s, t, vs);
    OrderSubmit(s, t);
    WakeSubmit(s, t, vs);
  }

  lemma HeldWoken(s: State, vs: seq<Worker>, main: Main)
    requires Woken(s.workers, vs) && MainHolds(main) == MainHolds(s.main)
    ensures Held(s.(main := main, workers := vs)) == Held(s)
  {
    WakingChanges(s.workers, vs);
  }

  lemma SetFlagKeeps(s: State, vs: seq<Worker>)
    requires Inv(s) && Enabled(s, SetFlag(vs))
    ensures Inv(Do(s, SetFlag(vs)))
  {
    hide Ledger, Held, SlotsOk, StopOk, WakeOk;
    var t := Do(s, SetFlag(vs));
    HeldWoken(s, vs, FlagSet);
    HeldDependsOn(t, s.(main := FlagSet, workers := vs));
    SlotsWoken(s, t, vs);
    StopFlags(s);
    StopWoken(s, t, vs);
    WakeOff(t);
  }

  lemma {:induction false} InUseHas(slots: seq<int>, v: int)
    requires v != NO_FD
    ensures v in InUse(slots) <==> v in slots
  {
    if slots != [] {
      assert slots == [slots[0]] + slots[1..];
      InUseHas(slots[1..], v);
    }
  }

  /** What a worker handles has its descriptor in a slot, and that descriptor still stands for it. */
  lemma HandledIsTarget(s: State, i: nat)
    requires Ledger(Held(s), Table(s.open, s.closes), s.log) && SlotsOk(s)
    requires i < |s.workers| && s.workers[i].Handling?
    ensures s.workers[i].conn.fd in s.slots
    ensures s.workers[i].conn.id in Targets(s.open, InUse(s.slots))
  {
    var c := s.workers[i].conn;
    WorkerChanges(s.workers, i, Ready);
    HeldIsOpen(s);
    assert c in WorkersHold(s.workers) && Handled(s.workers)[c.fd] > 0;
    assert multiset(s.slots)[c.fd] > 0;
    InUseHas(s.slots, c.fd);
  }

  lemma ShutdownActiveKeeps(s: State)
    requires Inv(s) && Enabled(s, ShutdownActive)
    ensures Inv(Do(s, ShutdownActive))
  {
    var t := Do(s, ShutdownActive);
    assert Held(t) == Held(s);
    forall i | 0 <= i < |s.workers| && s.workers[i].Handling? ensures s.workers[i].conn.id in t.shut {
      HandledIsTarget(s, i);
    }
  }

  lemma HeldDrained(s: State, t: State)
    requires MainHolds(t.main) == MainHolds(s.main) && t.workers == s.workers && t.queue == []
    ensures multiset(s.queue) <= Held(s)
    ensures Held(t) == Held(s) - multiset(s.queue)
  {
  }

  lemma DrainParts(s: State, t: State)
    requires SlotsOk(s) && StopOk(s) && OrderOk(s) && s.main.ActiveShut?
    requires t == s.(main := Joining(0), queue := [], open := t.open, closes := t.closes)
    ensures SlotsOk(t) && StopOk(t) && OrderOk(t) && WakeOk(t)
  {
  }

  lemma DrainKeeps(s: State)
    requires Inv(s) && Enabled(s, Drain)
    ensures Inv(Do(s, Drain))
  {
    hide Ledger, Held, SlotsOk, StopOk, OrderOk, WakeOk;
    var t := Do(s, Drain);
    HeldDrained(s, t);
    LedgerCloseAll(Held(s), Table(s.open, s.closes), s.log, s.queue);
    DrainParts(s, t);
  }

  lemma MainParts(s: State, a: Action)
    requires SlotsOk(s) && StopOk(s) && OrderOk(s) && WakeOk(s)
    requires Enabled(s, a) && (a.CloseListener? || a.Join? || a.Finish?)
    ensures var t := Do(s, a); SlotsOk(t) && StopOk(t) && OrderOk(t) && WakeOk(t)
    ensures MainHolds(Do(s, a).main) == MainHolds(s.main) && Do(s, a) == s.(main := Do(s, a).main)
  {
    hide Handled;
  }

  lemma MainKeeps(s: State, a: Action)
    requires Inv(s) && Enabled(s, a) && (a.CloseListener? || a.Join? || a.Finish?)
    ensures Inv(Do(s, a))
  {
    hide Ledger, SlotsOk, StopOk, OrderOk, WakeOk;
    MainParts(s, a);
  }

  lemma WakeOff(s: State)
    requires s.exitFlag
    ensures WakeOk(s)
  {
  }

  lemma EnterKeeps(s: State, i: nat)
    requires Inv(s) && Enabled(s, Enter(i)) && (s.exitFlag || s.queue == [])
    ensures Inv(Do(s, Enter(i)))
  {
    hide Ledger, Held, SlotsOk, StopOk, OrderOk, WakeOk;
    var t := Do(s, Enter(i));
    HeldSame(s, i, t.workers[i]);
    SlotsSame(s, t, i, t.workers[i]);
    StopUpdate(s, t, i, t.workers[i]);
    OrderSame(s, t);
    if s.exitFlag {
      WakeOff(t);
    } else {
      WakeUpdate(s, t, i, Waiting);
    }
  }

  lemma TakeKeeps(s: State, i: nat)
    requires Inv(s) && Enabled(s, Enter(i)) && !s.exitFlag && s.queue != []
    ensures Inv(Do(s, Enter(i)))
  {
    hide Ledger, Held, SlotsOk, StopOk, OrderOk, WakeOk;
    var c := s.queue[0];
    var t := Do(s, Enter(i));
    HeldTake(s, i);
    HeldDependsOn(t, s.(workers := s.workers[i := Handling(c)], queue := s.queue[1..]));
    FreeSlot(s, i);
    SlotsTake(s, t, i, c);
    StopUpdate(s, t, i, Handling(c));
    StopFlags(s);
    OrderTake(s, t);
    WakeUpdate(s, t, i, Handling(c));
  }

  lemma SpuriousKeeps(s: State, i: nat)
    requires Inv(s) && Enabled(s, Spurious(i))
    ensures Inv(Do(s, Spurious(i)))
  {
    hide Ledger, Held, SlotsOk, StopOk, OrderOk, WakeOk;
    var t := Do(s, Spurious(i));
    HeldSame(s, i, Signalled);
    SlotsSame(s, t, i, Signalled);
    StopUpdate(s, t, i, Signalled);
    OrderSame(s, t);
    WakeUpdate(s, t, i, Signalled);
  }

  lemma ReturnKeeps(s: State, i: nat)
    requires Inv(s) && Enabled(s, Return(i))
    ensures Inv(Do(s, Return(i)))
  {
    hide Ledger, Held, SlotsOk, StopOk, OrderOk, WakeOk;
    var w := Unregistered(s.workers[i].conn);
    var t := Do(s, Return(i));
    HeldSame(s, i, w);
    HeldDependsOn(t, s.(workers := s.workers[i := w]));
    HandledIsTarget(s, i);
    SlotsReturn(s, t, i);
    StopUpdate(s, t, i, w);
    OrderSame(s, t);
    WakeUpdate(s, t, i, w);
  }

  lemma CloseKeeps(s: State, i: nat)
    requires Inv(s) && Enabled(s, CloseConn(i))
    ensures Inv(Do(s, CloseConn(i)))
  {
    hide Ledger, Held, SlotsOk, StopOk, OrderOk, WakeOk;
    var t := Do(s, CloseConn(i));
    HeldClose(s, i);
    HeldDependsOn(t, s.(workers := s.workers[i := Ready]));
    LedgerClose(Held(s), Table(s.open, s.closes), s.log, s.workers[i].conn);
    SlotsSame(s, t, i, Ready);
    StopUpdate(s, t, i, Ready);
    OrderSame(s, t);
    WakeUpdate(s, t, i, Ready);
  }

  lemma StepKeepsInv(s: State, a: Action)
    requires Inv(s) && Enabled(s, a)
    ensures Inv(Do(s, a))
  {
    hide Inv;
    match a
    case Accept(fd) => AcceptKeeps(s, fd);
    case Submit(vs) => SubmitKeeps(s, vs);
    case SetFlag(vs) => SetFlagKeeps(s, vs);
    case ShutdownActive => ShutdownActiveKeeps(s);
    case Drain => DrainKeeps(s);
    case Enter(i) =>
      if s.exitFlag || s.queue == [] {
        EnterKeeps(s, i);
      } else {
        TakeKeeps(s, i);
      }
    case Spurious(i) => SpuriousKeeps(s, i);
    case Return(i) => ReturnKeeps(s, i);
    case CloseConn(i) => CloseKeeps(s, i);
    case _ => MainKeeps(s, a);
  }

  // ---------- what the invariant means ----------

  lemma InitHolds(s: State)
    requires Init(s)
    ensures Inv(s)
  {
    NobodyHolds(s.workers);
  }

  lemma {:induction false} NobodyHolds(ws: seq<Worker>)
    ensures (forall i :: 0 <= i < |ws| ==> HeldBy(ws[i]) == multiset{}) ==> WorkersHold(ws) == multiset{}
    ensures (forall i :: 0 <= i < |ws| ==> HandledBy(ws[i]) == multiset{}) ==> Handled(ws) == multiset{}
  {
    if ws != [] {
      NobodyHolds(ws[1..]);
      assert forall i :: 0 <= i < |ws| - 1 ==> ws[1..][i] == ws[i + 1];
    }
  }

  ghost predicate Next(s: State, t: State) {
    exists a :: Enabled(s, a) && t == Do(s, a)
  }

  /** Any interleaving, from the start of the server. */
  ghost predicate Run(ss: seq<State>) {
    && ss != [] && Init(ss[0])
    && forall i :: 0 <= i < |ss| - 1 ==> Next(ss[i], ss[i + 1])
  }

  lemma {:induction false} RunKeeps(ss: seq<State>, k: nat)
    requires Run(ss) && k < |ss|
    ensures Inv(ss[k])
  {
    hide Inv, Init;
    if k == 0 {
      InitHolds(ss[0]);
    } else {
      RunKeeps(ss, k - 1);
      assert Next(ss[k - 1], ss[k - 1 + 1]);
      var a :| Enabled(ss[k - 1], a) && ss[k] == Do(ss[k - 1], a);
      StepKeepsInv(ss[k - 1], a);
    }
  }

  /**
   * Conservation: at every moment each accepted connection is held in exactly one place
   * and has not been closed, or is held nowhere and has been closed exactly once.
   */
  lemma ExactlyOnePlace(ss: seq<State>, k: nat)
    requires Run(ss) && k < |ss|
    ensures var s := ss[k];
            && |s.closes| == |s.log|
            && (forall id :: 0 <= id < |s.log| ==> Held(s)[Conn(s.log[id], id)] + s.closes[id] == 1)
            && (forall c :: c in Held(s) ==> c.id < |s.log| && c == Conn(s.log[c.id], c.id))
  {
    RunKeeps(ss, k);
  }

  /** Every slot in use names an open descriptor, once, and the one worker handling its connection. */
  lemma SlotsNameWorkers(s: State, v: int)
    requires Inv(s) && v in s.slots && v != NO_FD
    ensures v in s.open && multiset(s.slots)[v] == 1
    ensures exists i :: 0 <= i < |s.workers| && s.workers[i] == Handling(Conn(v, s.open[v]))
  {
    assert v in multiset(s.slots) && v in Handled(s.workers);
    HeldIsOpen(s);
    var i := FindHandling(s.workers, v);
    WorkerChanges(s.workers, i, Ready);
    assert s.workers[i].conn in WorkersHold(s.workers);
  }

  lemma {:induction false} FindHandling(ws: seq<Worker>, v: int) returns (i: nat)
    requires v in Handled(ws)
    ensures i < |ws| && ws[i].Handling? && ws[i].conn.fd == v
  {
    if v in HandledBy(ws[0]) {
      return 0;
    }
    i := FindHandling(ws[1..], v);
    i := i + 1;
  }

  /** A worker that takes a connection takes the oldest one not yet taken, and records it in a slot. */
  lemma TakesInOrder(s: State, i: nat)
    requires Inv(s) && Enabled(s, Enter(i)) && !s.exitFlag && s.queue != []
    ensures var t := Do(s, Enter(i));
            && s.taken < |s.log| && t.taken == s.taken + 1
            && t.workers[i] == Handling(Conn(s.log[s.taken], s.taken))
            && s.log[s.taken] in t.slots
  {
    var c := s.queue[0];
    assert c in multiset(s.queue) && c in Held(s);
    TakeKeeps(s, i);
    HandledIsTarget(Do(s, Enter(i)), i);
  }

  /** No connection waits in the queue while every worker that is not busy sleeps. */
  lemma NoLostWakeup(ss: seq<State>, k: nat)
    requires Run(ss) && k < |ss|
    ensures var s := ss[k];
            && (!s.exitFlag && SomeWaiting(s.workers) ==> |s.queue| <= Awake(s.workers))
            && (!s.exitFlag && s.queue != [] && SomeWaiting(s.workers) ==>
                  exists i :: 0 <= i < |s.workers| && Enabled(s, Enter(i)))
  {
    RunKeeps(ss, k);
    var s := ss[k];
    if Awake(s.workers) > 0 {
      var i := FindAwake(s.workers);
      assert Enabled(s, Enter(i));
    }
  }

  lemma {:induction false} FindAwake(ws: seq<Worker>) returns (i: nat)
    requires Awake(ws) > 0
    ensures i < |ws| && (ws[i].Ready? || ws[i].Signalled?)
  {
    if AwakeOne(ws[0]) == 1 {
      return 0;
    }
    i := FindAwake(ws[1..]);
    i := i + 1;
  }

  /** Once the flag is set no worker dequeues again; once the slots have been shut down no worker
      is left asleep and every connection still being handled has been shut down. */
  lemma ShutdownReaches(s: State, a: Action)
    requires Inv(s) && s.exitFlag && Enabled(s, a)
    ensures Do(s, a).taken == s.taken && Do(s, a).exitFlag
    ensures !SomeWaiting(s.workers)
    ensures PastShutdown(s.main) ==>
              forall i :: 0 <= i < |s.workers| && s.workers[i].Handling? ==> s.workers[i].conn.id in s.shut
  {
  }

  /** After all joins nothing is left: no queue, no slot in use, no descriptor open, every connection closed once. */
  lemma ShutdownComplete(ss: seq<State>, k: nat)
    requires Run(ss) && k < |ss| && ss[k].main.Finished?
    ensures var s := ss[k];
            && s.queue == [] && s.open == map[]
            && (forall i :: 0 <= i < |s.slots| ==> s.slots[i] == NO_FD)
            && |s.closes| == |s.log| && (forall id :: 0 <= id < |s.log| ==> s.closes[id] == 1)
  {
    RunKeeps(ss, k);
    var s := ss[k];
    NobodyHolds(s.workers);
    assert Held(s) == multiset{};
    forall fd ensures fd !in s.open {
      assert Held(s)[Conn(fd, if fd in s.open then s.open[fd] else 0)] == 0;
    }
    forall i | 0 <= i < |s.slots| ensures s.slots[i] == NO_FD {
      assert s.slots[i] in multiset(s.slots);
    }
  }

  // ---------- shutdown comes to an end ----------

  /** Steps that happen without any client's help: a handler returns once its connection is shut down. */
  predicate Forced(s: State, a: Action) {
    match a
    case Accept(_) => false
    case CloseListener => false
    case Spurious(_) => false
    case Return(i) => i < |s.workers| && s.workers[i].Handling? && s.workers[i].conn.id in s.shut
    case _ => true
  }

  function StepsLeft(w: Worker): nat {
    match w
    case Handling(_) => 3
    case Unregistered(_) => 2
    case Exited => 0
    case _ => 1
  }

  function WorkersLeft(ws: seq<Worker>): nat {
    if ws == [] then 0 else StepsLeft(ws[0]) + WorkersLeft(ws[1..])
  }

  lemma {:induction false} WorkersLeftChanges(ws: seq<Worker>, i: nat, w: Worker)
    requires i < |ws|
    ensures WorkersLeft(ws[i := w]) + StepsLeft(ws[i]) == WorkersLeft(ws) + StepsLeft(w)
    ensures WorkersLeft(ws) <= 3 * |ws|
  {
    assert ws[i := w][1..] == if i > 0 then ws[1..][i - 1 := w] else ws[1..];
    if i > 0 {
      WorkersLeftChanges(ws[1..], i - 1, w);
    } else if |ws| > 1 {
      WorkersLeftChanges(ws[1..], 0, w);
    }
  }

  function MainLeft(m: Main, n: nat): int {
    match m
    case FlagSet => n + 3
    case ActiveShut => n + 2
    case Joining(k) => n - k + 1
    case _ => 0
  }

  function ShutdownLeft(s: State): int {
    WorkersLeft(s.workers) + MainLeft(s.main, |s.workers|)
  }

  lemma ShutdownStepLeft(s: State, a: Action)
    requires StopOk(s) && s.exitFlag && Enabled(s, a)
    ensures Do(s, a).exitFlag && 0 <= ShutdownLeft(Do(s, a)) < ShutdownLeft(s)
  {
    match a
    case Enter(i) => WorkersLeftChanges(s.workers, i, Exited);
    case Return(i) => WorkersLeftChanges(s.workers, i, Unregistered(s.workers[i].conn));
    case CloseConn(i) => WorkersLeftChanges(s.workers, i, Ready);
    case _ =>
  }

  lemma ShutdownStep(s: State, a: Action)
    requires Inv(s) && s.exitFlag && Enabled(s, a)
    ensures Inv(Do(s, a)) && Do(s, a).exitFlag
    ensures 0 <= ShutdownLeft(Do(s, a)) < ShutdownLeft(s)
  {
    hide Ledger, SlotsOk, StopOk, OrderOk, WakeOk;
    StepKeepsInv(s, a);
    ShutdownStepLeft(s, a);
  }

  /** Until every worker is joined, some forced step is possible once the slots have been shut down. */
  lemma ShutdownCanMove(s: State)
    requires Inv(s) && PastShutdown(s.main) && !s.main.Finished?
    ensures exists a :: Enabled(s, a) && Forced(s, a)
  {
    match s.main
    case ActiveShut => assert Enabled(s, Drain) && Forced(s, Drain);
    case Joining(k) =>
      if k == |s.workers| {
        assert Enabled(s, Finish) && Forced(s, Finish);
      } else {
        var a := match s.workers[k]
                 case Exited => Join
                 case Handling(_) => Return(k)
                 case Unregistered(_) => CloseConn(k)
                 case _ => Enter(k);
        assert Enabled(s, a) && Forced(s, a);
      }
  }

  predicate Schedule(s: State, actions: seq<Action>)
    decreases |actions|
  {
    actions == [] || (Enabled(s, actions[0]) && Schedule(Do(s, actions[0]), actions[1..]))
  }

  function After(s: State, actions: seq<Action>): State
    requires Schedule(s, actions)
    decreases |actions|
  {
    if actions == [] then s else After(Do(s, actions[0]), actions[1..])
  }

  /**
   * Shutdown ends in every interleaving, whatever the clients do: from the moment the flag
   * is set there is a bound on the steps left, and past shutdown_active_fds only a
   * finished server has no step it can take by itself.
   */
  lemma {:induction false} ShutdownEnds(s: State, actions: seq<Action>)
    requires Inv(s) && s.exitFlag && Schedule(s, actions)
    ensures var t := After(s, actions);
            && |actions| + ShutdownLeft(t) <= ShutdownLeft(s) && 0 <= ShutdownLeft(t)
            && (PastShutdown(t.main) && (forall a | Enabled(t, a) :: !Forced(t, a)) ==> t.main.Finished?)
    decreases |actions|
  {
    hide Inv;
    if actions == [] {
      ShutdownLeftNat(s);
      if PastShutdown(s.main) && !s.main.Finished? {
        ShutdownCanMove(s);
      }
    } else {
      ShutdownStep(s, actions[0]);
      ShutdownEnds(Do(s, actions[0]), actions[1..]);
    }
  }

  lemma ShutdownLeftNat(s: State)
    requires Inv(s)
    ensures ShutdownLeft(s) >= 0
  {
  }
}
