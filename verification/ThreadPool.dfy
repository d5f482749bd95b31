// The shared state of the worker pool and the critical sections that change it.

module ThreadPool {
  import ConnQueue
  import Seqs

  const NO_FD: int := -1

  // ---------- the active_fds array as a sequence ----------

  /** The first slot holding `old` now holds `new`; nothing changes when there is none. */
  function Replace(slots: seq<int>, was: int, now: int): (r: seq<int>)
    ensures |r| == |slots|
  {
    if slots == [] then []
    else if slots[0] == was then [now] + slots[1..]
    else [slots[0]] + Replace(slots[1..], was, now)
  }

  function Register(slots: seq<int>, fd: int): seq<int> {
    Replace(slots, NO_FD, fd)
  }

  function Unregister(slots: seq<int>, fd: int): seq<int> {
    Replace(slots, fd, NO_FD)
  }

  /** The descriptors in use, in slot order. */
  function InUse(slots: seq<int>): (fds: seq<int>)
  {
    if slots == [] then []
    else if slots[0] == NO_FD then InUse(slots[1..])
    else [slots[0]] + InUse(slots[1..])
  }

  lemma InUseNone()
    ensures InUse([]) == []
  {
  }

  lemma InUseHead(fds: seq<int>)
    requires fds != []
    ensures InUse(fds) == (if fds[0] == NO_FD then [] else [fds[0]]) + InUse(fds[1..])
  {
  }

  lemma {:induction false} ReplaceAt(slots: seq<int>, was: int, now: int, k: nat)
    requires k < |slots| && slots[k] == was && was !in slots[..k]
    ensures Replace(slots, was, now) == slots[k := now]
  {
    if k > 0 {
      assert slots[0] in slots[..k];
      assert slots[1..][..k - 1] == slots[..k][1..];
      ReplaceAt(slots[1..], was, now, k - 1);
    }
  }

  lemma {:induction false} ReplaceNone(slots: seq<int>, was: int, now: int)
    requires was !in slots
    ensures Replace(slots, was, now) == slots
  {
    if slots != [] {
      ReplaceNone(slots[1..], was, now);
    }
  }

  /** Exactly one occurrence is exchanged. */
  lemma {:induction false} ReplaceMultiset(slots: seq<int>, was: int, now: int)
    requires was in slots
    ensures multiset(Replace(slots, was, now)) == multiset(slots) - multiset{was} + multiset{now}
  {
    assert slots == [slots[0]] + slots[1..];
    if slots[0] != was {
      ReplaceMultiset(slots[1..], was, now);
    }
  }

  lemma {:induction false} InUseAppend(a: seq<int>, b: seq<int>)
    ensures InUse(a + b) == InUse(a) + InUse(b)
  {
    if a == [] {
      assert a + b == b;
    } else {
      assert (a + b)[1..] == a[1..] + b;
      InUseAppend(a[1..], b);
    }
  }

  /** thread_pool_t, without the threads, the lock and the condition variable. */
  class Pool {
    const activeFds: array<int>
    const queue: ConnQueue.Queue
    var exitFlag: bool

    ghost predicate Valid()
      reads this, activeFds, queue, queue.spine
    {
      queue.Valid()
    }

    function Slots(): seq<int>
      reads activeFds
    {
      activeFds[..]
    }

    /** init_thread_pool */
    constructor (num: nat)
      ensures Valid() && !exitFlag
      ensures |Slots()| == num && (forall k :: 0 <= k < num ==> Slots()[k] == NO_FD)
      ensures queue.Contents() == []
    {
      var slots := new int[num];
      var q := new ConnQueue.Queue();
      activeFds, queue, exitFlag := slots, q, false;
      new;
      for idx := 0 to num
        invariant activeFds == slots && queue == q && q.Valid() && q.Contents() == [] && !exitFlag
        invariant forall k :: 0 <= k < idx ==> slots[k] == NO_FD
      {
        slots[idx] := NO_FD;
      }
    }

    /** Exchange the first slot that holds `was`; both slot loops of the pool are this loop. */
    method ReplaceSlot(was: int, now: int)
      modifies activeFds
      ensures Slots() == Replace(old(Slots()), was, now)
    {
      ghost var before := activeFds[..];
      for idx := 0 to activeFds.Length
        invariant activeFds[..] == before && was !in before[..idx]
      {
        if activeFds[idx] == was {
          activeFds[idx] := now;
          ReplaceAt(before, was, now, idx);
          return;
        }
        assert before[..idx + 1] == before[..idx] + [before[idx]];
      }
      assert before[..activeFds.Length] == before;
      ReplaceNone(before, was, now);
    }

    /** The critical section of thread_func once it has seen a nonempty queue. */
    method TakeConnection() returns (fd: int)
      requires Valid() && queue.Contents() != []
      modifies queue, activeFds
      ensures Valid() && exitFlag == old(exitFlag)
      ensures fd == old(queue.Contents())[0] && queue.Contents() == old(queue.Contents())[1..]
      ensures Slots() == Register(old(Slots()), fd)
    {
      hide ConnQueue.Queue.Valid, ConnQueue.Queue.Contents, ConnQueue.Queue.Fds, Replace;
      fd := queue.Dequeue();
      ReplaceSlot(NO_FD, fd);
    }

    /** unregister_active_fd */
    method UnregisterActiveFd(fd: int)
      requires Valid()
      modifies activeFds
      ensures Valid() && exitFlag == old(exitFlag) && queue.Contents() == old(queue.Contents())
      ensures Slots() == Unregister(old(Slots()), fd)
    {
      ReplaceSlot(fd, NO_FD);
    }

    /** shutdown_active_fds: the descriptors shutdown(2) is called on, in order. */
    method ShutdownActiveFds() returns (shut: seq<int>)
      ensures shut == InUse(Slots())
    {
      shut := [];
      for idx := 0 to activeFds.Length
        invariant shut == InUse(activeFds[..idx])
      {
        assert activeFds[..idx + 1] == activeFds[..idx] + [activeFds[idx]];
        InUseAppend(activeFds[..idx], [activeFds[idx]]);
        if activeFds[idx] != NO_FD {
          shut := shut + [activeFds[idx]];
        }
      }
      assert activeFds[..activeFds.Length] == activeFds[..];
    }

    /** drain_pending_fds: the descriptors close(2) is called on, in order. */
    method DrainPendingFds() returns (closed: seq<int>)
      requires Valid()
      modifies queue
      ensures Valid() && queue.Contents() == [] && exitFlag == old(exitFlag)
      ensures closed == InUse(old(queue.Contents()))
    {
      hide InUse, ConnQueue.Queue.Valid, ConnQueue.Queue.Contents, ConnQueue.Queue.Fds;
      InUseNone();
      ghost var waiting := queue.Contents();
      closed := [];
      queue.SizeOfContents();
      while queue.size > 0
        invariant queue.Valid() && |queue.Contents()| == queue.size
        invariant forall n :: n in queue.spine ==> n in old(queue.spine)
        invariant InUse(waiting) == closed + InUse(queue.Contents())
        decreases queue.size
      {
        InUseHead(queue.Contents());
        ghost var later := InUse(queue.Contents()[1..]);
        var fd := queue.Dequeue();
        queue.SizeOfContents();
        if fd != NO_FD {
          Seqs.Assoc(closed, [fd], later);
          closed := closed + [fd];
        }
      }
    }
  }
}
