/** driver.c in its own, imperative form: transactions are objects with flags that change in place, the two lists hold
    references to them. Each method is one critical section under `Uvfs_lock` and is, on the abstract state, one step of
    the state machine. The device remembers its steps, and its abstract state is always the one that this run of the
    machine leads to; so the theorems about runs are theorems about the device. */
module Driver {
  import opened Lists
  import opened DriverModel
  import opened DriverInvariant
  import opened DriverCallers
  import opened Common

  const REQUEST_SIZE: nat := 4156  // sizeof(uvfs_request_u): the write request with its page buffer
  const GENERIC_REP_SIZE: nat := 16
  const SHUTDOWN_REQ_SIZE: nat := 12

  /** uvfs_transaction_s, with its caller's program counter. */
  class Transaction {
    const id: Tid  // the address
    var serial: int
    var inUse: bool
    var abort: bool
    var answered: bool
    var result: Result
    var phase: Phase
    var kill: bool
    var asleep: bool  // on fs_queue

    constructor (id: Tid, serial: int)
      ensures this.id == id && Rec() == Trans(serial, false, false, false, Unset, Allocated, false, false)
    {
      this.id, this.serial := id, serial;
      inUse, abort, answered, result, phase, kill, asleep := false, false, false, Unset, Allocated, false, false;
    }

    ghost function Rec(): Trans
      reads this
    {
      Trans(serial, inUse, abort, answered, result, phase, kill, asleep)
    }

    /** wake_up(&trans->fs_queue). */
    method WakeCaller()
      modifies `asleep
      ensures !asleep
    {
      asleep := false;
    }
  }

  type Heap = map<Tid, Transaction>

  ghost predicate Addressed(heap: Heap) {
    forall t | t in heap :: heap[t].id == t
  }

  /** The records of all transactions. */
  ghost function Recs(heap: Heap): map<Tid, Trans>
    reads heap.Values
  {
    map t | t in heap :: heap[t].Rec()
  }

  ghost predicate Known(heap: Heap, tr: Transaction) {
    tr.id in heap && heap[tr.id] == tr
  }

  ghost predicate AllKnown(heap: Heap, q: seq<Transaction>) {
    forall tr | tr in q :: Known(heap, tr)
  }

  function Ids(q: seq<Transaction>): (r: seq<Tid>)
    ensures |r| == |q| && forall i | 0 <= i < |q| :: r[i] == q[i].id
  {
    seq(|q|, i requires 0 <= i < |q| => q[i].id)
  }

  /** list_del: the list without one transaction. */
  function Without(q: seq<Transaction>, tr: Transaction): (r: seq<Transaction>)
    ensures forall x | x in r :: x in q
  {
    if q == [] then []
    else (if q[0] == tr then [] else [q[0]]) + Without(q[1..], tr)
  }

  lemma IdsIn(q: seq<Transaction>, tr: Transaction)
    requires tr in q
    ensures tr.id in Ids(q)
  {
    var i :| 0 <= i < |q| && q[i] == tr;
    assert Ids(q)[i] == tr.id;
  }

  lemma {:induction false} IdsWithout(heap: Heap, q: seq<Transaction>, tr: Transaction)
    requires AllKnown(heap, q) && Known(heap, tr)
    ensures Ids(Without(q, tr)) == Minus(Ids(q), {tr.id})
  {
    if q != [] {
      assert q[0] in q;
      IdsWithout(heap, q[1..], tr);
      assert Ids(q)[1..] == Ids(q[1..]);
      assert Ids(Without(q, tr)) == (if q[0] == tr then [] else [q[0].id]) + Ids(Without(q[1..], tr));
    }
  }

  lemma HeadKnown(heap: Heap, q: seq<Transaction>)
    requires AllKnown(heap, q) && q != []
    ensures Known(heap, q[0]) && q[0] in heap.Values && AllKnown(heap, q[1..]) && Ids(q) == [q[0].id] + Ids(q[1..])
  {
    assert q[0] in q;
  }

  lemma LastKnown(heap: Heap, q: seq<Transaction>, tr: Transaction)
    requires AllKnown(heap, q) && Known(heap, tr)
    ensures AllKnown(heap, q + [tr]) && Ids(q + [tr]) == Ids(q) + [tr.id]
  {
  }

  /** One transaction has changed since the records were `before`. */
  lemma OneChanged(heap: Heap, before: map<Tid, Trans>, tr: Transaction)
    requires Known(heap, tr) && before.Keys == heap.Keys
    requires forall t | t in heap && t != tr.id :: heap[t].Rec() == before[t]
    ensures Recs(heap) == before[tr.id := tr.Rec()]
  {
  }

  // ---------------------------------------------------------------- what is done to a transaction

  method MarkInUse(ghost heap: Heap, tr: Transaction)
    requires Addressed(heap) && Known(heap, tr)
    modifies tr
    ensures Recs(heap) == old(Recs(heap))[tr.id := old(Recs(heap))[tr.id].(inUse := true)]
    ensures tr.Rec() == old(tr.Rec()).(inUse := true)
  {
    tr.inUse := true;
    OneChanged(heap, old(Recs(heap)), tr);
  }

  method EndCopyOut(ghost heap: Heap, tr: Transaction)
    requires Addressed(heap) && Known(heap, tr)
    modifies tr
    ensures Recs(heap) == old(Recs(heap))[tr.id := CopiedOut(old(Recs(heap))[tr.id])]
    ensures tr.Rec() == CopiedOut(old(tr.Rec()))
  {
    tr.inUse := false;
    if tr.abort {
      tr.WakeCaller();
    }
    OneChanged(heap, old(Recs(heap)), tr);
  }

  method EndCopyIn(ghost heap: Heap, tr: Transaction, data: nat)
    requires Addressed(heap) && Known(heap, tr)
    modifies tr
    ensures Recs(heap) == old(Recs(heap))[tr.id := Completed(old(Recs(heap))[tr.id], data)]
    ensures tr.Rec() == Completed(old(tr.Rec()), data)
  {
    tr.result := Reply(data);
    tr.inUse, tr.answered := false, true;
    tr.WakeCaller();
    OneChanged(heap, old(Recs(heap)), tr);
  }

  method AnswerEio(ghost heap: Heap, tr: Transaction)
    requires Addressed(heap) && Known(heap, tr)
    modifies tr
    ensures Recs(heap) == old(Recs(heap))[tr.id := Failed(old(Recs(heap))[tr.id])]
    ensures tr.Rec() == Failed(old(tr.Rec()))
  {
    tr.result, tr.answered := Eio, true;
    tr.WakeCaller();
    OneChanged(heap, old(Recs(heap)), tr);
  }

  method Return(ghost heap: Heap, tr: Transaction, result: Result, outcome: Outcome)
    requires Addressed(heap) && Known(heap, tr)
    modifies tr
    ensures Recs(heap) ==
      old(Recs(heap))[tr.id := old(Recs(heap))[tr.id].(result := result, phase := Returned(outcome))]
    ensures tr.Rec() == old(tr.Rec()).(result := result, phase := Returned(outcome))
  {
    tr.result, tr.phase := result, Returned(outcome);
    OneChanged(heap, old(Recs(heap)), tr);
  }

  method Await(ghost heap: Heap, tr: Transaction, phase: Phase, abort: bool)
    requires Addressed(heap) && Known(heap, tr)
    modifies tr
    ensures Recs(heap) == old(Recs(heap))[tr.id := old(Recs(heap))[tr.id].(abort := abort, phase := phase)]
    ensures tr.Rec() == old(tr.Rec()).(abort := abort, phase := phase)
  {
    tr.abort, tr.phase := abort, phase;
    OneChanged(heap, old(Recs(heap)), tr);
  }

  method FallAsleep(ghost heap: Heap, tr: Transaction)
    requires Addressed(heap) && Known(heap, tr)
    modifies tr
    ensures Recs(heap) == old(Recs(heap))[tr.id := old(Recs(heap))[tr.id].(asleep := true)]
    ensures tr.Rec() == old(tr.Rec()).(asleep := true)
  {
    tr.asleep := true;
    OneChanged(heap, old(Recs(heap)), tr);
  }

  method SetKill(ghost heap: Heap, tr: Transaction)
    requires Addressed(heap) && Known(heap, tr)
    modifies tr
    ensures Recs(heap) == old(Recs(heap))[tr.id := Killed(old(Recs(heap))[tr.id])]
    ensures tr.Rec() == Killed(old(tr.Rec()))
  {
    if !tr.phase.Returned? {
      tr.kill := true;
      if tr.phase.Waiting? {
        tr.WakeCaller();
      }
    }
    OneChanged(heap, old(Recs(heap)), tr);
  }

  /** One more transaction answered, after those of `done`. */
  lemma DrainOneMore(was: map<Tid, Trans>, done: seq<Tid>, now: map<Tid, Trans>, t: Tid, now': map<Tid, Trans>)
    requires now == Drain(was, done) && t in now && now' == now[t := Failed(now[t])]
    ensures now' == Drain(was, done + [t])
  {
    assert forall u | u in was :: u in done + [t] <==> u in done || u == t;
  }

  /** A transaction whose caller has returned is on neither list. */
  lemma ReturnedOffLists(acts: seq<Action>, s: State, t: Tid)
    requires Ran(acts, s, true) && t in s.trans && s.trans[t].phase.Returned?
    ensures t !in s.requests && t !in s.replies
  {
    RunInv(INIT, acts, true);
  }

  class Device {
    ghost var heap: Heap              // the transactions there are
    ghost var acts: seq<Action>       // the steps so far
    var requests: seq<Transaction>
    var replies: seq<Transaction>
    var ops: map<OpId, Op>
    var files: set<FileId>
    var useCount: int
    var shuttingDown: bool
    var serial: int

    ghost function Abs(): State
      reads this, heap.Values
    {
      State(Recs(heap), Ids(requests), Ids(replies), ops, files, useCount, shuttingDown, serial)
    }

    ghost predicate Shaped()
      reads this
    {
      Addressed(heap) && AllKnown(heap, requests) && AllKnown(heap, replies)
    }

    ghost predicate Valid()
      reads this, heap.Values
    {
      Shaped() && Ran(acts, Abs(), true)
    }

    constructor ()
      ensures Valid() && Abs() == INIT && acts == []
    {
      heap, acts, requests, replies, ops := map[], [], [], [], map[];
      files, useCount, shuttingDown, serial := {}, 0, false, 0;
    }

    /** What the theorems about runs say of the device: a transaction whose caller is in uvfs_make_request is in exactly
        one place; its caller sleeps only while it has to wait; and once no file is open both lists are empty and it has
        been answered, its caller awake, with no window left open. */
    lemma NothingLost(tr: Transaction)
      requires Valid() && Known(heap, tr) && Live(tr.phase)
      ensures Places(Abs(), tr.id) == 1
      ensures tr.asleep ==> !WaitOver(tr.Rec())
      ensures useCount == 0 ==> requests == [] && replies == [] && tr.answered && !tr.inUse && !tr.asleep
    {
      RunCallers(INIT, acts, true);
      assert CallerOk(Abs().trans[tr.id]);
      NoRequestLost(acts, true, tr.id);
      if useCount == 0 {
        NoHangWithoutServer(acts, true, tr.id);
        assert |Ids(requests)| == 0 && |Ids(replies)| == 0;
      }
    }

    /** The kernel's wake_up_interruptible on the driver queue. */
    method WakeUp(w: Wake)
      requires ValidWake(ops, w)
      modifies `ops
      ensures ops == Woken(old(ops), w)
    {
      if w.Wakes? {
        ops := ops[w.op := ops[w.op].(pc := Awake)];
      }
    }

    // -------------------------------------------------------------- file-system threads

    /** uvfs_new_transaction, for memory at `t`. */
    method NewTransaction(t: Tid) returns (tr: Transaction)
      requires Valid() && Enabled(Abs(), DoNew(t))
      modifies this
      ensures Valid() && fresh(tr) && heap == old(heap)[t := tr]
      ensures acts == old(acts) + [DoNew(t)] && Abs() == Next(old(Abs()), DoNew(t), true)
      ensures tr.serial == old(serial) && !tr.inUse && !tr.abort && !tr.answered
    {
      RanOn(acts, Abs(), DoNew(t), true);
      acts := acts + [DoNew(t)];
      tr := Allocate(t);
    }

    method Allocate(t: Tid) returns (tr: Transaction)
      requires Shaped() && t !in heap
      modifies `heap, `serial
      ensures Shaped() && fresh(tr) && heap == old(heap)[t := tr]
      ensures Recs(heap) == New(old(Abs()), t).trans && serial == NextSerial(old(serial))
      ensures tr.serial == old(serial) && !tr.inUse && !tr.abort && !tr.answered
    {
      tr := new Transaction(t, serial);
      heap := heap[t := tr];
      serial := if serial == INT_MAX then INT_MIN else serial + 1;
      assert Recs(heap) == old(Recs(heap))[t := tr.Rec()];
    }

    method Enqueue(tr: Transaction, w: Wake) returns (waiting: bool)
      requires Shaped() && Known(heap, tr) && ValidWake(ops, w)
      modifies `requests, `ops, tr
      ensures Shaped() && Abs() == Submit(old(Abs()), tr.id, w)
      ensures waiting <==> useCount != 0
      ensures if waiting then tr.phase == Waiting && requests == old(requests) + [tr]
              else tr.phase == Returned(NotQueued) && tr.result == Eio && requests == old(requests)
    {
      if useCount == 0 {
        Return(heap, tr, Eio, NotQueued);
        return false;
      }
      LastKnown(heap, requests, tr);
      requests := requests + [tr];
      WakeUp(w);
      Await(heap, tr, Waiting, tr.abort);
      return true;
    }

    /** uvfs_make_request up to the unlock of line 358 (or the early return of line 354). */
    method QueueRequest(tr: Transaction, w: Wake) returns (waiting: bool)
      requires Valid() && Known(heap, tr) && Enabled(Abs(), DoSubmit(tr.id, w))
      modifies this, tr
      ensures Valid() && heap == old(heap)
      ensures acts == old(acts) + [DoSubmit(tr.id, w)] && Abs() == Next(old(Abs()), DoSubmit(tr.id, w), true)
      ensures waiting <==> old(useCount) != 0
      ensures if waiting then tr.phase == Waiting && requests == old(requests) + [tr]
              else tr.phase == Returned(NotQueued) && tr.result == Eio && requests == old(requests)
    {
      RanOn(acts, Abs(), DoSubmit(tr.id, w), true);
      acts := acts + [DoSubmit(tr.id, w)];
      waiting := Enqueue(tr, w);
    }

    /** The caller finds what it waits for at line 368 or 378 not there yet, and sleeps. */
    method SleepCaller(tr: Transaction)
      requires Valid() && Known(heap, tr) && Enabled(Abs(), DoSleep(tr.id))
      modifies `acts, tr
      ensures Valid() && acts == old(acts) + [DoSleep(tr.id)] && Abs() == Next(old(Abs()), DoSleep(tr.id), true)
      ensures tr.asleep
    {
      RanOn(acts, Abs(), DoSleep(tr.id), true);
      acts := acts + [DoSleep(tr.id)];
      FallAsleep(heap, tr);
    }

    /** A SIGKILL reaches the caller. */
    method KillCaller(tr: Transaction)
      requires Valid() && Known(heap, tr)
      modifies `acts, tr
      ensures Valid() && acts == old(acts) + [DoKill(tr.id)] && Abs() == Next(old(Abs()), DoKill(tr.id), true)
      ensures !tr.phase.Returned? ==> tr.kill && (tr.asleep <==> old(tr.asleep) && !tr.phase.Waiting?)
    {
      RanOn(acts, Abs(), DoKill(tr.id), true);
      acts := acts + [DoKill(tr.id)];
      SetKill(heap, tr);
    }

    /** list_del_init and the error of lines 381-382. */
    method UnlinkRequest(tr: Transaction)
      requires Shaped() && Known(heap, tr)
      modifies `requests, `replies, tr
      ensures Shaped() && Abs() == Unlink(old(Abs()), tr.id)
      ensures tr.phase == Returned(Interrupted) && tr.result == RestartSys
    {
      IdsWithout(heap, requests, tr);
      IdsWithout(heap, replies, tr);
      requests, replies := Without(requests, tr), Without(replies, tr);
      Return(heap, tr, RestartSys, Interrupted);
    }

    method CheckRequest(tr: Transaction)
      requires Shaped() && Known(heap, tr)
      modifies `requests, `replies, tr
      ensures Shaped() && Abs() == Check(old(Abs()), tr.id)
      ensures tr.phase == Returned(Interrupted) <==> old(tr.kill) && !old(tr.inUse)
      ensures tr.phase == AbortWait <==> old(tr.kill) && old(tr.inUse)
      ensures old(tr.kill) && !old(tr.inUse) ==> tr.result == RestartSys
      ensures old(tr.kill) && old(tr.inUse) ==> tr.abort && tr.result == old(tr.result)
      ensures !old(tr.kill) ==> tr.phase.Returned? && tr.result == old(tr.result)
      ensures forall d :: tr.phase == Returned(Replied(d)) <==> !old(tr.kill) && old(tr.result) == Reply(d)
    {
      if tr.kill && !tr.inUse {
        UnlinkRequest(tr);
      } else if tr.kill {
        Await(heap, tr, AbortWait, true);
      } else {
        Return(heap, tr, tr.result, OutcomeOf(tr.result));
      }
    }

    /** The critical section of lines 371-384, up to the unlock of line 377 when a window is open. */
    method FinishRequest(tr: Transaction) returns (returned: bool)
      requires Valid() && Known(heap, tr) && Enabled(Abs(), DoCheck(tr.id))
      modifies this, tr
      ensures Valid() && heap == old(heap)
      ensures acts == old(acts) + [DoCheck(tr.id)] && Abs() == Next(old(Abs()), DoCheck(tr.id), true)
      ensures returned <==> !old(tr.kill) || !old(tr.inUse)
      ensures tr.phase == Returned(Interrupted) <==> old(tr.kill) && !old(tr.inUse)
      ensures tr.phase == AbortWait <==> old(tr.kill) && old(tr.inUse)
      ensures old(tr.kill) && !old(tr.inUse) ==> tr.result == RestartSys
      ensures old(tr.kill) && old(tr.inUse) ==> tr.abort && tr.result == old(tr.result)
      ensures !old(tr.kill) ==> tr.phase.Returned? && tr.result == old(tr.result)
      ensures forall d :: tr.phase == Returned(Replied(d)) <==> !old(tr.kill) && old(tr.result) == Reply(d)
      ensures returned ==> tr !in requests && tr !in replies
    {
      RanOn(acts, Abs(), DoCheck(tr.id), true);
      acts := acts + [DoCheck(tr.id)];
      CheckRequest(tr);
      returned := tr.phase.Returned?;
      OffLists(tr);
    }

    lemma OffLists(tr: Transaction)
      requires Valid() && Known(heap, tr)
      ensures tr.phase.Returned? ==> tr !in requests && tr !in replies
    {
      if tr.phase.Returned? {
        ReturnedOffLists(acts, Abs(), tr.id);
        if tr in requests {
          IdsIn(requests, tr);
        }
        if tr in replies {
          IdsIn(replies, tr);
        }
      }
    }

    /** The wait of line 378 is over. */
    method AbortWaitOver(tr: Transaction)
      requires Valid() && Known(heap, tr) && Enabled(Abs(), DoAbortSeen(tr.id))
      modifies `acts, tr
      ensures Valid() && acts == old(acts) + [DoAbortSeen(tr.id)] && Abs() == Next(old(Abs()), DoAbortSeen(tr.id), true)
      ensures tr.phase == AbortRetake
    {
      RanOn(acts, Abs(), DoAbortSeen(tr.id), true);
      acts := acts + [DoAbortSeen(tr.id)];
      Await(heap, tr, AbortRetake, tr.abort);
    }

    /** Lines 379-384, after the wait of line 378. */
    method FinishAbort(tr: Transaction)
      requires Valid() && Known(heap, tr) && Enabled(Abs(), DoAbortReturn(tr.id))
      modifies this, tr
      ensures Valid() && heap == old(heap)
      ensures acts == old(acts) + [DoAbortReturn(tr.id)] && Abs() == Next(old(Abs()), DoAbortReturn(tr.id), true)
      ensures tr.phase == Returned(Interrupted) && tr.result == RestartSys && tr !in requests && tr !in replies
    {
      RanOn(acts, Abs(), DoAbortReturn(tr.id), true);
      acts := acts + [DoAbortReturn(tr.id)];
      UnlinkRequest(tr);
      OffLists(tr);
    }

    // -------------------------------------------------------------- opens, closes, shutdown

    /** uvfsd_open. */
    method OpenFile(f: FileId)
      requires Valid() && Enabled(Abs(), DoOpen(f))
      modifies this
      ensures Valid() && heap == old(heap)
      ensures acts == old(acts) + [DoOpen(f)] && Abs() == Next(old(Abs()), DoOpen(f), true)
      ensures useCount == old(useCount) + 1 && files == old(files) + {f}
    {
      RanOn(acts, Abs(), DoOpen(f), true);
      acts := acts + [DoOpen(f)];
      files, useCount := files + {f}, useCount + 1;
    }

    /** The first request, taken off its list. */
    method FirstRequest() returns (tr: Transaction)
      requires AllKnown(heap, requests) && requests != []
      modifies `requests
      ensures Known(heap, tr) && tr in heap.Values && AllKnown(heap, requests)
      ensures tr == old(requests)[0] && requests == old(requests)[1..]
      ensures old(Ids(requests)) == [tr.id] + Ids(requests) && Recs(heap) == old(Recs(heap))
    {
      HeadKnown(heap, requests);
      tr := requests[0];
      requests := requests[1..];
    }

    method FirstReply() returns (tr: Transaction)
      requires AllKnown(heap, replies) && replies != []
      modifies `replies
      ensures Known(heap, tr) && tr in heap.Values && replies == old(replies)[1..] && AllKnown(heap, replies)
      ensures old(Ids(replies)) == [tr.id] + Ids(replies) && Recs(heap) == old(Recs(heap))
    {
      HeadKnown(heap, replies);
      tr := replies[0];
      replies := replies[1..];
    }

    /** Lines 111-115. */
    method AnswerFirstRequest() returns (ghost t: Tid)
      requires Addressed(heap) && AllKnown(heap, requests) && requests != []
      modifies `requests, heap.Values
      ensures |requests| < |old(requests)| && AllKnown(heap, requests) && old(Ids(requests)) == [t] + Ids(requests)
      ensures t in old(Recs(heap)) && Recs(heap) == old(Recs(heap))[t := Failed(old(Recs(heap))[t])]
    {
      var tr := FirstRequest();
      AnswerEio(heap, tr);
      t := tr.id;
    }

    /** Lines 109-116: answer the pending requests one at a time. */
    method DrainRequests()
      requires Addressed(heap) && AllKnown(heap, requests)
      modifies `requests, heap.Values
      ensures requests == [] && Recs(heap) == Drain(old(Recs(heap)), old(Ids(requests)))
    {
      ghost var was, done: seq<Tid> := Recs(heap), [];
      ghost var now := was;
      while requests != []
        invariant AllKnown(heap, requests) && done + Ids(requests) == old(Ids(requests))
        invariant now == Recs(heap) && now == Drain(was, done)
        decreases |requests|
      {
        ghost var t := AnswerFirstRequest();
        assert done + ([t] + Ids(requests)) == (done + [t]) + Ids(requests);
        DrainOneMore(was, done, now, t, Recs(heap));
        done, now := done + [t], Recs(heap);
      }
      assert done == old(Ids(requests));
    }

    /** Lines 119-123. */
    method AnswerFirstReply() returns (ghost t: Tid)
      requires Addressed(heap) && AllKnown(heap, replies) && replies != []
      modifies `replies, heap.Values
      ensures |replies| < |old(replies)| && AllKnown(heap, replies) && old(Ids(replies)) == [t] + Ids(replies)
      ensures t in old(Recs(heap)) && Recs(heap) == old(Recs(heap))[t := Failed(old(Recs(heap))[t])]
    {
      var tr := FirstReply();
      AnswerEio(heap, tr);
      t := tr.id;
    }

    /** Lines 117-124: the same for the transactions awaiting replies. */
    method DrainReplies()
      requires Addressed(heap) && AllKnown(heap, replies)
      modifies `replies, heap.Values
      ensures replies == [] && Recs(heap) == Drain(old(Recs(heap)), old(Ids(replies)))
    {
      ghost var was, done: seq<Tid> := Recs(heap), [];
      ghost var now := was;
      while replies != []
        invariant AllKnown(heap, replies) && done + Ids(replies) == old(Ids(replies))
        invariant now == Recs(heap) && now == Drain(was, done)
        decreases |replies|
      {
        ghost var t := AnswerFirstReply();
        assert done + ([t] + Ids(replies)) == (done + [t]) + Ids(replies);
        DrainOneMore(was, done, now, t, Recs(heap));
        done, now := done + [t], Recs(heap);
      }
      assert done == old(Ids(replies));
    }

    /** Lines 106-127: with the last file goes everything that waits for the server. */
    method DrainAll()
      requires Shaped()
      modifies `requests, `replies, `shuttingDown, `serial, heap.Values
      ensures requests == [] && replies == [] && !shuttingDown && serial == 0
      ensures Recs(heap) == Drain(Drain(old(Recs(heap)), old(Ids(requests))), old(Ids(replies)))
    {
      DrainRequests();
      DrainReplies();
      shuttingDown, serial := false, 0;
    }

    method CloseFile(f: FileId)
      requires Shaped()
      modifies `requests, `replies, `files, `useCount, `shuttingDown, `serial, heap.Values
      ensures Shaped() && Abs() == Close(old(Abs()), f)
      ensures useCount == old(useCount) - 1 && files == old(files) - {f}
      ensures if useCount == 0 then requests == [] && replies == [] && !shuttingDown && serial == 0
              else requests == old(requests) && replies == old(replies) && shuttingDown == old(shuttingDown)
                   && serial == old(serial)
    {
      files, useCount := files - {f}, useCount - 1;
      if useCount == 0 {
        assert Recs(heap) == old(Recs(heap));
        DrainAll();
      }
    }

    /** uvfsd_release. */
    method Release(f: FileId)
      requires Valid() && Enabled(Abs(), DoClose(f))
      modifies this, heap.Values
      ensures Valid() && heap == old(heap)
      ensures acts == old(acts) + [DoClose(f)] && Abs() == Next(old(Abs()), DoClose(f), true)
      ensures useCount == old(useCount) - 1 && (useCount == 0 ==> requests == [] && replies == [])
    {
      ghost var before := Abs();
      RanOn(acts, before, DoClose(f), true);
      acts := acts + [DoClose(f)];
      assert Abs() == before;
      CloseFile(f);
    }

    /** The shutdown case of uvfsd_ioctl. */
    method ShutdownIoctl(f: FileId, w: Wake)
      requires Valid() && Enabled(Abs(), DoShutdown(f, w))
      modifies this
      ensures Valid() && heap == old(heap)
      ensures acts == old(acts) + [DoShutdown(f, w)] && Abs() == Next(old(Abs()), DoShutdown(f, w), true)
      ensures shuttingDown
    {
      RanOn(acts, Abs(), DoShutdown(f, w), true);
      acts := acts + [DoShutdown(f, w)];
      shuttingDown := true;
      WakeUp(w);
    }

    // -------------------------------------------------------------- server reads

    /** Lines 192-201: the oldest request moves to the reply list and is marked in use. */
    method TakeRequest(o: OpId, f: FileId, w: Wake) returns (tr: Transaction)
      requires Shaped() && requests != [] && ValidWake(ops, w)
      modifies `requests, `replies, `ops, heap.Values
      ensures Shaped() && Known(heap, tr) && tr == old(requests)[0] && tr.inUse
      ensures Ids(requests) == old(Ids(requests))[1..] && Ids(replies) == old(Ids(replies)) + [tr.id]
      ensures Recs(heap) == old(Recs(heap))[tr.id := old(Recs(heap))[tr.id].(inUse := true)]
      ensures ops == Woken(old(ops), w)[o := Op(f, CopyOut(tr.id), false)]
    {
      tr := FirstRequest();
      AppendReply(tr);
      WakeUp(w);
      MarkInUse(heap, tr);
      ops := ops[o := Op(f, CopyOut(tr.id), false)];
    }

    method AppendReply(tr: Transaction)
      requires AllKnown(heap, replies) && Known(heap, tr)
      modifies `replies
      ensures AllKnown(heap, replies) && Ids(replies) == old(Ids(replies)) + [tr.id] && Recs(heap) == old(Recs(heap))
    {
      LastKnown(heap, replies, tr);
      replies := replies + [tr];
    }

    /** One pass of the loop of uvfsd_read and, when a request is there, its delivery. */
    method Pass(o: OpId, f: FileId, w: Wake) returns (tr: Transaction?)
      requires Shaped() && ValidWake(ops, w) && (o in ops ==> ops[o].pc.Awake?)
      modifies `requests, `replies, `ops, heap.Values
      ensures Shaped() && Abs() == ReadPass(old(Abs()), o, f, w, true)
      ensures tr != null <==> old(requests) != [] && !old(shuttingDown)
      ensures if tr != null then Known(heap, tr) && tr == old(requests)[0] && tr.inUse && ops[o].pc == CopyOut(tr.id)
              else ops[o].pc == if old(shuttingDown) then InShutdown else Asleep
    {
      if requests == [] || shuttingDown {
        ops := ops[o := Op(f, if shuttingDown then InShutdown else Asleep, false)];
        return null;
      }
      tr := TakeRequest(o, f, w);
    }

    /** uvfsd_read as far as its first unlock. `tr` is the request being copied out, if there is one. */
    method Read(count: nat, o: OpId, f: FileId, w: Wake) returns (ret: int, tr: Transaction?)
      requires Valid() && Enabled(Abs(), DoReadEnter(o, f, w))
      modifies this, heap.Values
      ensures Valid() && heap == old(heap)
      ensures count < 4156 ==> ret == -EIO && tr == null && acts == old(acts) && Abs() == old(Abs())
      ensures count >= 4156 ==>
        ret == 0 && acts == old(acts) + [DoReadEnter(o, f, w)] && Abs() == Next(old(Abs()), DoReadEnter(o, f, w), true)
      ensures tr != null <==> count >= 4156 && old(requests) != [] && !old(shuttingDown)
      ensures tr != null ==>
        Known(heap, tr) && tr == old(requests)[0] && tr.inUse && o in ops && ops[o].pc == CopyOut(tr.id)
      ensures count >= 4156 && tr == null ==> o in ops && ops[o].pc == if old(shuttingDown) then InShutdown else Asleep
    {
      if count < REQUEST_SIZE {
        return -EIO, null;
      }
      RanOn(acts, Abs(), DoReadEnter(o, f, w), true);
      acts := acts + [DoReadEnter(o, f, w)];
      tr := Pass(o, f, w);
      ret := 0;
    }

    /** A signal reaches a reader on the queue. */
    method SignalReader(o: OpId)
      requires Valid() && Enabled(Abs(), DoSignal(o))
      modifies `acts, `ops
      ensures Valid() && acts == old(acts) + [DoSignal(o)] && Abs() == Next(old(Abs()), DoSignal(o), true)
      ensures ops == old(ops)[o := old(ops)[o].(pc := Awake, signalled := true)]
    {
      RanOn(acts, Abs(), DoSignal(o), true);
      acts := acts + [DoSignal(o)];
      ops := ops[o := ops[o].(pc := Awake, signalled := true)];
    }

    /** The rest of the wait of uvfsd_read, from line 180 to the next unlock. */
    method ReadAgain(o: OpId, w: Wake) returns (ret: int, tr: Transaction?)
      requires Valid() && Enabled(Abs(), DoReadResume(o, w))
      modifies this, heap.Values
      ensures Valid() && heap == old(heap)
      ensures acts == old(acts) + [DoReadResume(o, w)] && Abs() == Next(old(Abs()), DoReadResume(o, w), true)
      ensures ret == if old(ops[o].signalled) then -ERESTARTSYS else 0
      ensures tr != null <==> !old(ops[o].signalled) && old(requests) != [] && !old(shuttingDown)
      ensures tr != null ==>
        Known(heap, tr) && tr == old(requests)[0] && tr.inUse && o in ops && ops[o].pc == CopyOut(tr.id)
      ensures old(ops[o].signalled) ==> o !in ops
    {
      ghost var before := Abs();
      RanOn(acts, before, DoReadResume(o, w), true);
      acts := acts + [DoReadResume(o, w)];
      assert Abs() == before;
      if ops[o].signalled {
        ops := ops - {o};
        return -ERESTARTSYS, null;
      }
      tr := Pass(o, ops[o].file, w);
      ret := 0;
    }

    /** Lines 165-171. */
    method LeaveOnShutdown(o: OpId, w: Wake, copyFailed: bool) returns (ret: int)
      requires Valid() && Enabled(Abs(), DoShutdownExit(o, w))
      modifies this
      ensures Valid() && heap == old(heap)
      ensures acts == old(acts) + [DoShutdownExit(o, w)] && Abs() == Next(old(Abs()), DoShutdownExit(o, w), true)
      ensures ret == (if copyFailed then -EIO else 12) && o !in ops
    {
      RanOn(acts, Abs(), DoShutdownExit(o, w), true);
      acts := acts + [DoShutdownExit(o, w)];
      WakeUp(w);
      ops := ops - {o};
      ret := if copyFailed then -EIO else SHUTDOWN_REQ_SIZE;
    }

    /** Lines 204-208, by the reader that holds `tr`. */
    method EndRead(o: OpId, tr: Transaction)
      requires Valid() && Known(heap, tr) && o in ops && ops[o].pc == CopyOut(tr.id)
      modifies this, tr
      ensures Valid() && heap == old(heap)
      ensures acts == old(acts) + [DoReadExit(o)] && Abs() == Next(old(Abs()), DoReadExit(o), true)
      ensures !tr.inUse && (tr.asleep <==> old(tr.asleep) && !tr.abort) && o !in ops
    {
      RanOn(acts, Abs(), DoReadExit(o), true);
      acts := acts + [DoReadExit(o)];
      CloseReader(o, tr);
    }

    method CloseReader(o: OpId, tr: Transaction)
      requires Shaped() && Known(heap, tr) && o in ops && ops[o].pc == CopyOut(tr.id)
      modifies `ops, tr
      ensures Abs() == ReadExit(old(Abs()), o) && tr.Rec() == CopiedOut(old(tr.Rec()))
    {
      EndCopyOut(heap, tr);
      ops := ops - {o};
    }

    // -------------------------------------------------------------- server writes

    /** `tr` is on the list and nobody before it has its serial. */
    ghost predicate FirstWith(q: seq<Transaction>, tr: Transaction)
      reads q
    {
      exists i :: 0 <= i < |q| && q[i] == tr && forall j | 0 <= j < i :: q[j].serial != tr.serial
    }

    /** The search of lines 252-261 along the reply list. */
    method Search(n: int) returns (tr: Transaction?)
      requires Shaped()
      ensures tr == null ==> forall x | x in replies :: x.serial != n
      ensures tr != null ==> Known(heap, tr) && tr.serial == n && FirstWith(replies, tr)
      ensures Find(Ids(replies), Recs(heap), n) == if tr == null then NoMatch else Found(tr.id)
    {
      ghost var q := Ids(replies);
      for i := 0 to |replies|
        invariant Find(q, Recs(heap), n) == Find(q[i..], Recs(heap), n)
        invariant forall j | 0 <= j < i :: replies[j].serial != n
      {
        assert q[i..][0] == replies[i].id && q[i..][1..] == q[i + 1..];
        assert replies[i] in replies;
        if replies[i].serial == n {
          return replies[i];
        }
      }
      return null;
    }

    /** Lines 268-271. */
    method Claim(tr: Transaction, o: OpId, f: FileId)
      requires Shaped() && Known(heap, tr)
      modifies `replies, `ops, tr
      ensures Shaped() && tr.serial == old(tr.serial) && tr.inUse
      ensures Recs(heap) == old(Recs(heap))[tr.id := old(tr.Rec()).(inUse := true)]
      ensures Ids(replies) == Minus(old(Ids(replies)), {tr.id}) && ops == old(ops)[o := Op(f, CopyIn(tr.id), false)]
    {
      IdsWithout(heap, replies, tr);
      replies := Without(replies, tr);
      MarkInUse(heap, tr);
      ops := ops[o := Op(f, CopyIn(tr.id), false)];
    }

    method MatchReply(n: int, o: OpId, f: FileId) returns (tr: Transaction?)
      requires Shaped()
      modifies `replies, `ops, heap.Values
      ensures Shaped() && Abs() == WriteEnter(old(Abs()), o, f, n)
      ensures tr != null <==> exists x :: x in old(replies) && old(x.serial) == n
      ensures tr != null ==> Known(heap, tr) && old(FirstWith(replies, tr)) && tr.serial == n && tr.inUse
      ensures tr != null ==> o in ops && ops[o].pc == CopyIn(tr.id)
      ensures tr == null ==> Abs() == old(Abs())
    {
      tr := Search(n);
      if tr != null {
        assert heap[tr.id] == tr && tr in heap.Values;
        Claim(tr, o, f);
      }
    }

    /** Lines 249-271. */
    method TakeReply(n: int, o: OpId, f: FileId) returns (tr: Transaction?)
      requires Valid() && Enabled(Abs(), DoWriteEnter(o, f, n))
      modifies this, heap.Values
      ensures Valid() && heap == old(heap)
      ensures acts == old(acts) + [DoWriteEnter(o, f, n)] && Abs() == Next(old(Abs()), DoWriteEnter(o, f, n), true)
      ensures tr != null <==> exists x :: x in old(replies) && old(x.serial) == n
      ensures tr != null ==> Known(heap, tr) && tr.serial == n && o in ops && ops[o].pc == CopyIn(tr.id)
    {
      ghost var before := Abs();
      RanOn(acts, before, DoWriteEnter(o, f, n), true);
      acts := acts + [DoWriteEnter(o, f, n)];
      assert Abs() == before;
      tr := MatchReply(n, o, f);
    }

    /** uvfsd_write as far as the unlock of line 271: the size checks, the search for the serial, the claim.
        `copyFailed` is the outcome of copying the reply header in; `tr` is the transaction claimed, if there is one. */
    method Write(count: nat, copyFailed: bool, size: int, n: int, o: OpId, f: FileId)
        returns (ret: int, tr: Transaction?)
      requires Valid() && Enabled(Abs(), DoWriteEnter(o, f, n))
      modifies this, heap.Values
      ensures Valid() && heap == old(heap)
      ensures count < 16 ==> ret == -EIO
      ensures count >= 16 && copyFailed ==> ret == -EFAULT
      ensures count >= 16 && !copyFailed && size != count ==> ret == -EINVAL
      ensures count < 16 || copyFailed || size != count ==>
        tr == null && acts == old(acts) && Abs() == old(Abs())
      ensures count >= 16 && !copyFailed && size == count ==>
        && acts == old(acts) + [DoWriteEnter(o, f, n)] && Abs() == Next(old(Abs()), DoWriteEnter(o, f, n), true)
        && ret == if exists x :: x in old(replies) && old(x.serial) == n then 0 else -EINVAL
      ensures tr != null <==>
        count >= 16 && !copyFailed && size == count && exists x :: x in old(replies) && old(x.serial) == n
      ensures tr != null ==> Known(heap, tr) && tr.serial == n && o in ops && ops[o].pc == CopyIn(tr.id)
    {
      if count < GENERIC_REP_SIZE { return -EIO, null; }
      if copyFailed { return -EFAULT, null; }
      if size != count { return -EINVAL, null; }
      tr := TakeReply(n, o, f);
      ret := if tr != null then 0 else -EINVAL;
    }

    /** Lines 273-282, by the writer that holds `tr`. */
    method EndWrite(o: OpId, tr: Transaction, data: nat, copyFailed: bool, size: nat) returns (ret: int)
      requires Valid() && Known(heap, tr) && o in ops && ops[o].pc == CopyIn(tr.id)
      modifies this, tr
      ensures Valid() && heap == old(heap)
      ensures acts == old(acts) + [DoWriteExit(o, data)] && Abs() == Next(old(Abs()), DoWriteExit(o, data), true)
      ensures tr.answered && !tr.inUse && tr.result == Reply(data) && !tr.asleep && o !in ops
      ensures ret == if copyFailed then -EIO else size
    {
      RanOn(acts, Abs(), DoWriteExit(o, data), true);
      acts := acts + [DoWriteExit(o, data)];
      CloseWriter(o, tr, data);
      ret := if copyFailed then -EIO else size;
    }

    method CloseWriter(o: OpId, tr: Transaction, data: nat)
      requires Shaped() && Known(heap, tr) && o in ops && ops[o].pc == CopyIn(tr.id)
      modifies `ops, tr
      ensures Abs() == WriteExit(old(Abs()), o, data) && tr.Rec() == Completed(old(tr.Rec()), data)
    {
      EndCopyIn(heap, tr, data);
      ops := ops - {o};
    }
  }
}
