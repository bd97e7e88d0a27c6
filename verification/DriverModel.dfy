/** The kernel-to-user transaction protocol of driver.c as a state machine.

    Every critical section under `Uvfs_lock` is one atomic step. File-system threads are represented by the
    transaction they own (a transaction has exactly one caller), server threads by the system call they are
    in (an `Op`). Transactions are identified by their allocation, so a freed one is never mistaken for a
    later one.

    `History` is not in the source: it records what happened, so that properties of whole runs can be stated on
    one state. The machine does not read it. */
module DriverModel {
  import opened Lists

  type Tid = nat
  type OpId = nat
  type FileId = nat

  const INT_MAX: int := 0x7fff_ffff
  const INT_MIN: int := -0x8000_0000
  const INT_SPAN: int := 0x1_0000_0000

  /** What the reply half of the transaction union holds, as far as the protocol distinguishes it. */
  datatype Result = Unset | Eio | RestartSys | Reply(data: nat)

  /** How uvfs_make_request ended. */
  datatype Outcome = NotQueued | Interrupted | Drained | Replied(data: nat)

  /** The program counter of the transaction's caller. `Waiting` is the wait of line 368, `AbortWait` the wait
      of line 378, `AbortRetake` the gap between that wait and the lock of line 379. */
  datatype Phase = Allocated | Waiting | AbortWait | AbortRetake | Returned(outcome: Outcome)

  datatype Trans = Trans(
    serial: int, inUse: bool, abort: bool, answered: bool, result: Result, // uvfs_transaction_s
    phase: Phase, kill: bool, asleep: bool)                                // its caller, perhaps asleep on fs_queue

  /** The program counter of a server thread inside uvfsd_read or uvfsd_write: asleep on the driver queue;
      woken but still on the queue; in the unlocked part of the shutdown exit; copying a request out; copying
      a reply in. */
  datatype Pc = Asleep | Awake | InShutdown | CopyOut(t: Tid) | CopyIn(t: Tid)

  datatype Op = Op(file: FileId, pc: Pc, signalled: bool)

  datatype State = State(
    trans: map<Tid, Trans>,
    requests: seq<Tid>,
    replies: seq<Tid>,
    ops: map<OpId, Op>,
    files: set<FileId>,
    useCount: int,
    shuttingDown: bool,
    serial: int)

  const INIT := State(map[], [], [], map[], {}, 0, false, 0)

  /** The thread a wake_up_interruptible on the driver queue reaches: one sleeping exclusive waiter, or nobody
      when no waiter sleeps. Which one is left open. */
  datatype Wake = Nobody | Wakes(op: OpId)

  predicate ValidWake(ops: map<OpId, Op>, w: Wake) {
    match w
    case Nobody => forall o | o in ops :: ops[o].pc != Asleep
    case Wakes(o) => o in ops && ops[o].pc == Asleep
  }

  function Woken(ops: map<OpId, Op>, w: Wake): map<OpId, Op> {
    match w
    case Nobody => ops
    case Wakes(o) => if o in ops then ops[o := ops[o].(pc := Awake)] else ops
  }

  predicate Live(p: Phase) {
    p.Waiting? || p.AbortWait? || p.AbortRetake?
  }

  /** The transaction has been put on the request list at some time. */
  predicate Queued(tr: Trans) {
    !tr.phase.Allocated? && tr.phase != Returned(NotQueued)
  }

  predicate Window(pc: Pc, t: Tid) {
    pc == CopyOut(t) || pc == CopyIn(t)
  }

  predicate WindowOpen(ops: map<OpId, Op>, t: Tid) {
    exists o :: o in ops && Window(ops[o].pc, t)
  }

  predicate ReaderWindow(ops: map<OpId, Op>, t: Tid) {
    exists o :: o in ops && ops[o].pc == CopyOut(t)
  }

  predicate Claimed(ops: map<OpId, Op>, t: Tid) {
    exists o :: o in ops && ops[o].pc == CopyIn(t)
  }

  /** C's post-increment of an `int`, wrapping around. */
  function NextSerial(n: int): int {
    if n == INT_MAX then INT_MIN else n + 1
  }

  // ---------------------------------------------------------------- file-system threads

  /** uvfs_new_transaction. */
  function New(s: State, t: Tid): State {
    s.(trans := s.trans[t := Trans(s.serial, false, false, false, Unset, Allocated, false, false)],
       serial := NextSerial(s.serial))
  }

  /** The first critical section of uvfs_make_request. */
  function Submit(s: State, t: Tid, w: Wake): State
    requires t in s.trans
  {
    if s.useCount == 0 then
      s.(trans := s.trans[t := s.trans[t].(result := Eio, phase := Returned(NotQueued))])
    else
      s.(trans := s.trans[t := s.trans[t].(phase := Waiting)],
         requests := s.requests + [t],
         ops := Woken(s.ops, w))
  }

  /** The waits of lines 368 and 378: a caller that finds its condition false goes to sleep. Testing the condition and
      falling asleep are one step, because a wake-up in between keeps it from sleeping. */
  function Sleep(s: State, t: Tid): State
    requires t in s.trans
  {
    s.(trans := s.trans[t := s.trans[t].(asleep := true)])
  }

  /** A SIGKILL reaches the caller; nothing withdraws it. It ends a sleep at line 368, not one at line 378.
      After the return it is no concern of the transaction. */
  function Kill(s: State, t: Tid): State
    requires t in s.trans
  {
    s.(trans := s.trans[t := Killed(s.trans[t])])
  }

  function Killed(tr: Trans): Trans {
    if tr.phase.Returned? then tr else tr.(kill := true, asleep := tr.asleep && !tr.phase.Waiting?)
  }

  /** list_del_init, error = -ERESTARTSYS, and the return of uvfs_make_request. */
  function Unlink(s: State, t: Tid): State
    requires t in s.trans
  {
    s.(trans := s.trans[t := s.trans[t].(result := RestartSys, phase := Returned(Interrupted))],
       requests := Minus(s.requests, {t}),
       replies := Minus(s.replies, {t}))
  }

  /** What a caller that was not interrupted finds. */
  function OutcomeOf(r: Result): Outcome {
    match r
    case Reply(d) => Replied(d)
    case _ => Drained
  }

  /** The critical section that starts at line 371. */
  function Check(s: State, t: Tid): State
    requires t in s.trans
  {
    var tr := s.trans[t];
    if !tr.kill then
      s.(trans := s.trans[t := tr.(phase := Returned(OutcomeOf(tr.result)))])
    else if tr.inUse then
      s.(trans := s.trans[t := tr.(abort := true, phase := AbortWait)])
    else
      Unlink(s, t)
  }

  /** The wait of line 378 reads `in_use` without the lock and finds it clear. */
  function AbortSeen(s: State, t: Tid): State
    requires t in s.trans
  {
    s.(trans := s.trans[t := s.trans[t].(phase := AbortRetake)])
  }

  // ---------------------------------------------------------------- opens, closes, shutdown

  function Open(s: State, f: FileId): State {
    s.(files := s.files + {f}, useCount := s.useCount + 1)
  }

  /** Lines 113-115 and 121-123. */
  function Failed(tr: Trans): Trans {
    tr.(result := Eio, answered := true, asleep := false)
  }

  function Drain(trans: map<Tid, Trans>, q: seq<Tid>): map<Tid, Trans> {
    map t | t in trans :: if t in q then Failed(trans[t]) else trans[t]
  }

  /** uvfsd_release. */
  function Close(s: State, f: FileId): State {
    var s1 := s.(files := s.files - {f}, useCount := s.useCount - 1);
    if s1.useCount != 0 then s1
    else
      s1.(trans := Drain(Drain(s.trans, s.requests), s.replies),
          requests := [], replies := [], shuttingDown := false, serial := 0)
  }

  /** The UVFS_IOCTL_SHUTDOWN case of uvfsd_ioctl. */
  function Shutdown(s: State, w: Wake): State {
    s.(shuttingDown := true, ops := Woken(s.ops, w))
  }

  // ---------------------------------------------------------------- server reads

  /** One pass of uvfsd_read from the loop test of line 154 to the next unlock, by a thread that is not on the
      queue. `extra` says whether the wake-up of line 199 is there. */
  function ReadPass(s: State, o: OpId, f: FileId, w: Wake, extra: bool): State {
    if s.shuttingDown then
      s.(ops := s.ops[o := Op(f, InShutdown, false)])
    else if s.requests == [] then
      s.(ops := s.ops[o := Op(f, Asleep, false)])
    else
      Deliver(s, o, f, w, extra)
  }

  function Deliver(s: State, o: OpId, f: FileId, w: Wake, extra: bool): State
    requires s.requests != []
  {
    var t := s.requests[0];
    var ops := if extra then Woken(s.ops, w) else s.ops;
    s.(trans := if t in s.trans then s.trans[t := s.trans[t].(inUse := true)] else s.trans,
       requests := s.requests[1..],
       replies := s.replies + [t],
       ops := ops[o := Op(f, CopyOut(t), false)])
  }

  /** A sleeper that runs again: off the queue, out on a signal, else another pass. */
  function ReadResume(s: State, o: OpId, w: Wake, extra: bool): State
    requires o in s.ops
  {
    if s.ops[o].signalled then s.(ops := s.ops - {o})
    else ReadPass(s, o, s.ops[o].file, w, extra)
  }

  function Signal(s: State, o: OpId): State
    requires o in s.ops
  {
    s.(ops := s.ops[o := s.ops[o].(pc := Awake, signalled := true)])
  }

  /** Lines 165-171: the shutdown exit passes the wake-up on. */
  function ShutdownExit(s: State, o: OpId, w: Wake): State {
    s.(ops := Woken(s.ops, w) - {o})
  }

  /** The reader is done with the transaction; its caller is woken only if it waits for that. */
  function CopiedOut(tr: Trans): Trans {
    tr.(inUse := false, asleep := tr.asleep && !tr.abort)
  }

  /** Lines 204-208. */
  function ReadExit(s: State, o: OpId): State
    requires o in s.ops && s.ops[o].pc.CopyOut?
  {
    var t := s.ops[o].pc.t;
    s.(trans := if t in s.trans then s.trans[t := CopiedOut(s.trans[t])] else s.trans,
       ops := s.ops - {o})
  }

  // ---------------------------------------------------------------- server writes

  datatype Match = NoMatch | Found(t: Tid)

  /** The search of lines 252-261: the first transaction on the reply list that carries the serial. */
  function Find(q: seq<Tid>, trans: map<Tid, Trans>, serial: int): (r: Match)
    ensures r.NoMatch? <==> forall t | t in q && t in trans :: trans[t].serial != serial
    ensures r.Found? ==> r.t in q && r.t in trans && trans[r.t].serial == serial
  {
    if q == [] then NoMatch
    else if q[0] in trans && trans[q[0]].serial == serial then Found(q[0])
    else
      assert forall t | t in q :: t == q[0] || t in q[1..];
      Find(q[1..], trans, serial)
  }

  /** Lines 249-271. A serial nobody carries leaves everything as it was. */
  function WriteEnter(s: State, o: OpId, f: FileId, serial: int): State {
    match Find(s.replies, s.trans, serial)
    case NoMatch => s
    case Found(t) =>
      s.(trans := s.trans[t := s.trans[t].(inUse := true)],
         replies := Minus(s.replies, {t}),
         ops := s.ops[o := Op(f, CopyIn(t), false)])
  }

  /** The writer is done with the transaction and wakes its caller. */
  function Completed(tr: Trans, data: nat): Trans {
    tr.(inUse := false, answered := true, result := Reply(data), asleep := false)
  }

  /** Lines 273-277, with the bytes copied in since line 272. */
  function WriteExit(s: State, o: OpId, data: nat): State
    requires o in s.ops && s.ops[o].pc.CopyIn?
  {
    var t := s.ops[o].pc.t;
    s.(trans := if t in s.trans then s.trans[t := Completed(s.trans[t], data)] else s.trans,
       ops := s.ops - {o})
  }

  // ---------------------------------------------------------------- the machine

  datatype Action =
    | DoNew(t: Tid)
    | DoSubmit(t: Tid, w: Wake)
    | DoSleep(t: Tid)
    | DoKill(t: Tid)
    | DoCheck(t: Tid)
    | DoAbortSeen(t: Tid)
    | DoAbortReturn(t: Tid)
    | DoOpen(f: FileId)
    | DoClose(f: FileId)
    | DoShutdown(f: FileId, w: Wake)
    | DoReadEnter(o: OpId, f: FileId, w: Wake)
    | DoReadResume(o: OpId, w: Wake)
    | DoSignal(o: OpId)
    | DoShutdownExit(o: OpId, w: Wake)
    | DoReadExit(o: OpId)
    | DoWriteEnter(o: OpId, f: FileId, serial: int)
    | DoWriteExit(o: OpId, data: nat)

  predicate Waits(p: Phase) {
    p.Waiting? || p.AbortWait?
  }

  /** What the waits of lines 368 and 378 wait for. */
  predicate WaitOver(tr: Trans) {
    match tr.phase
    case Waiting => tr.answered || tr.kill
    case AbortWait => !tr.inUse
    case _ => true
  }

  predicate ByCaller(a: Action) {
    a.DoNew? || a.DoSubmit? || a.DoSleep? || a.DoKill? || a.DoCheck? || a.DoAbortSeen? || a.DoAbortReturn?
  }

  predicate ByCopier(a: Action) {
    a.DoReadExit? || a.DoWriteEnter? || a.DoWriteExit?
  }

  /** When a step can be taken. System calls need an open file, a file with a call in flight is not released,
      and a caller leaves a wait when it is awake and what it waits for has come. */
  predicate Enabled(s: State, a: Action) {
    match a
    case DoNew(t) => t !in s.trans
    case DoSubmit(t, w) => t in s.trans && s.trans[t].phase.Allocated? && ValidWake(s.ops, w)
    case DoSleep(t) => t in s.trans && !s.trans[t].asleep && !WaitOver(s.trans[t]) && Waits(s.trans[t].phase)
    case DoKill(t) => t in s.trans
    case DoCheck(t) => t in s.trans && s.trans[t].phase.Waiting? && !s.trans[t].asleep && WaitOver(s.trans[t])
    case DoAbortSeen(t) => t in s.trans && s.trans[t].phase.AbortWait? && !s.trans[t].asleep && WaitOver(s.trans[t])
    case DoAbortReturn(t) => t in s.trans && s.trans[t].phase.AbortRetake?
    case DoOpen(f) => f !in s.files
    case DoClose(f) => f in s.files && forall o | o in s.ops :: s.ops[o].file != f
    case DoShutdown(f, w) => f in s.files && ValidWake(s.ops, w)
    case DoReadEnter(o, f, w) => o !in s.ops && f in s.files && ValidWake(s.ops, w)
    case DoReadResume(o, w) => o in s.ops && s.ops[o].pc.Awake? && ValidWake(s.ops, w)
    case DoSignal(o) => o in s.ops && (s.ops[o].pc.Asleep? || s.ops[o].pc.Awake?)
    case DoShutdownExit(o, w) => o in s.ops && s.ops[o].pc.InShutdown? && ValidWake(s.ops, w)
    case DoReadExit(o) => o in s.ops && s.ops[o].pc.CopyOut?
    case DoWriteEnter(o, f, _) => o !in s.ops && f in s.files
    case DoWriteExit(o, _) => o in s.ops && s.ops[o].pc.CopyIn?
  }

  function Next(s: State, a: Action, extra: bool): State
    requires Enabled(s, a)
  {
    match a
    case DoNew(t) => New(s, t)
    case DoSubmit(t, w) => Submit(s, t, w)
    case DoSleep(t) => Sleep(s, t)
    case DoKill(t) => Kill(s, t)
    case DoCheck(t) => Check(s, t)
    case DoAbortSeen(t) => AbortSeen(s, t)
    case DoAbortReturn(t) => Unlink(s, t)
    case DoOpen(f) => Open(s, f)
    case DoClose(f) => Close(s, f)
    case DoShutdown(_, w) => Shutdown(s, w)
    case DoReadEnter(o, f, w) => ReadPass(s, o, f, w, extra)
    case DoReadResume(o, w) => ReadResume(s, o, w, extra)
    case DoSignal(o) => Signal(s, o)
    case DoShutdownExit(o, w) => ShutdownExit(s, o, w)
    case DoReadExit(o) => ReadExit(s, o)
    case DoWriteEnter(o, f, serial) => WriteEnter(s, o, f, serial)
    case DoWriteExit(o, data) => WriteExit(s, o, data)
  }

  predicate LastClose(s: State, a: Action) {
    a.DoClose? && s.useCount == 1
  }

  // ---------------------------------------------------------------- runs

  /** `acts` can be taken one after the other from `s`. */
  predicate Legal(s: State, acts: seq<Action>, extra: bool)
    decreases |acts|
  {
    acts == [] || (Enabled(s, acts[0]) && Legal(Next(s, acts[0], extra), acts[1..], extra))
  }

  function After(s: State, acts: seq<Action>, extra: bool): State
    requires Legal(s, acts, extra)
    decreases |acts|
  {
    if acts == [] then s else After(Next(s, acts[0], extra), acts[1..], extra)
  }

  lemma RunOne(s: State, a: Action, extra: bool)
    requires Enabled(s, a)
    ensures Legal(s, [a], extra) && After(s, [a], extra) == Next(s, a, extra)
  {
    assert [a][1..] == [];
    assert Legal(Next(s, a, extra), [a][1..], extra);
  }

  /** Doing `acts` and then `more`. */
  lemma {:induction false} RunMore(s: State, acts: seq<Action>, more: seq<Action>, extra: bool)
    requires Legal(s, acts, extra) && Legal(After(s, acts, extra), more, extra)
    ensures Legal(s, acts + more, extra) && After(s, acts + more, extra) == After(After(s, acts, extra), more, extra)
    decreases |acts|
  {
    if acts == [] {
      assert acts + more == more;
    } else {
      assert (acts + more)[0] == acts[0] && (acts + more)[1..] == acts[1..] + more;
      RunMore(Next(s, acts[0], extra), acts[1..], more, extra);
    }
  }

  /** The run `acts` leads to `s`. */
  ghost predicate Ran(acts: seq<Action>, s: State, extra: bool) {
    Legal(INIT, acts, extra) && After(INIT, acts, extra) == s
  }

  /** One more step at the end of a run. */
  lemma RanOn(acts: seq<Action>, s: State, a: Action, extra: bool)
    requires Ran(acts, s, extra) && Enabled(s, a)
    ensures Ran(acts + [a], Next(s, a, extra), extra)
  {
    RunOne(s, a, extra);
    RunMore(INIT, acts, [a], extra);
  }

  // ---------------------------------------------------------------- what happened

  datatype History = History(
    epoch: nat,               // number of last closes so far
    allocs: nat,              // transactions allocated since the latest one
    birth: map<Tid, Birth>,   // when each transaction was allocated
    enqueued: seq<Tid>,       // in the order of line 356
    delivered: seq<Tid>,      // in the order of line 194
    dropped: set<Tid>,        // unlinked from the request list by an abort or a drain
    drained: set<Tid>,        // answered by a last close
    replied: map<Tid, nat>,   // answered by a server write, with what it wrote
    readDone: set<Tid>,       // the delivering read has returned
    sawReader: set<Tid>,      // the caller found a reader's copy window open at line 374
    lateClaim: set<Tid>)      // a writer claimed the transaction while its caller was in AbortRetake

  datatype Birth = Birth(epoch: nat, order: nat)

  const NO_HISTORY := History(0, 0, map[], [], [], {}, {}, map[], {}, {}, {})

  /** The request the pass of a reader takes, if it takes one. */
  predicate Delivers(s: State, a: Action) {
    && !s.shuttingDown && s.requests != []
    && (a.DoReadEnter? || (a.DoReadResume? && a.o in s.ops && !s.ops[a.o].signalled))
  }

  predicate UnlinksNow(s: State, a: Action)
    requires Enabled(s, a)
  {
    a.DoAbortReturn? || (a.DoCheck? && s.trans[a.t].kill && !s.trans[a.t].inUse)
  }

  /** The history after step `a` in state `s`. */
  function Record(s: State, h: History, a: Action): History
    requires Enabled(s, a)
  {
    match a
    case DoNew(t) => h.(birth := h.birth[t := Birth(h.epoch, h.allocs)], allocs := h.allocs + 1)
    case DoSubmit(t, _) => if s.useCount == 0 then h else h.(enqueued := h.enqueued + [t])
    case DoCheck(t) =>
      if UnlinksNow(s, a) && t in s.requests then h.(dropped := h.dropped + {t})
      else if s.trans[t].kill && s.trans[t].inUse && ReaderWindow(s.ops, t) then h.(sawReader := h.sawReader + {t})
      else h
    case DoAbortReturn(t) => if t in s.requests then h.(dropped := h.dropped + {t}) else h
    case DoClose(_) =>
      if !LastClose(s, a) then h
      else h.(epoch := h.epoch + 1, allocs := 0,
              dropped := h.dropped + (set t | t in s.requests),
              drained := h.drained + (set t | t in s.requests) + (set t | t in s.replies))
    case DoReadEnter(_, _, _) => if Delivers(s, a) then h.(delivered := h.delivered + [s.requests[0]]) else h
    case DoReadResume(_, _) => if Delivers(s, a) then h.(delivered := h.delivered + [s.requests[0]]) else h
    case DoReadExit(o) => h.(readDone := h.readDone + {s.ops[o].pc.t})
    case DoWriteEnter(_, _, n) =>
      var m := Find(s.replies, s.trans, n);
      if m.Found? && s.trans[m.t].phase.AbortRetake? then h.(lateClaim := h.lateClaim + {m.t}) else h
    case DoWriteExit(o, data) => h.(replied := h.replied[s.ops[o].pc.t := data])
    case _ => h
  }

  function Chronicle(s: State, h: History, acts: seq<Action>, extra: bool): History
    requires Legal(s, acts, extra)
    decreases |acts|
  {
    if acts == [] then h else Chronicle(Next(s, acts[0], extra), Record(s, h, acts[0]), acts[1..], extra)
  }
}
