/** The abort handshake of driver.c:371-384 against the copy windows of driver.c:200-207 and 269-276. */
module DriverHandshake {
  import opened Lists
  import opened DriverModel
  import opened DriverInvariant
  import opened DriverHistory

  /** A server that answers a transaction only after the read that delivered it has returned. */
  ghost predicate Polite(s: State, a: Action) {
    a.DoWriteEnter? ==>
      var m := Find(s.replies, s.trans, a.serial);
      m.Found? ==> !ReaderWindow(s.ops, m.t)
  }

  ghost predicate PoliteRun(s: State, acts: seq<Action>, extra: bool)
    requires Legal(s, acts, extra)
    decreases |acts|
  {
    acts == [] || (Polite(s, acts[0]) && PoliteRun(Next(s, acts[0], extra), acts[1..], extra))
  }

  /** The one way a window can outlast its caller: the caller, interrupted, found a reader's window, waited for it,
      and before it retook the lock a writer claimed the transaction. */
  ghost predicate LateClaim(h: History, pc: Pc, t: Tid) {
    pc == CopyIn(t) && t in h.sawReader && t in h.lateClaim
  }

  ghost predicate HandInv(s: State, h: History) {
    && (forall o, p, t | o in s.ops && p in s.ops && Window(s.ops[o].pc, t) && Window(s.ops[p].pc, t) :: o == p)
    && (forall o, t | o in s.ops && Window(s.ops[o].pc, t) && t in s.trans :: WindowFits(s.trans[t], h, s.ops[o].pc, t))
    && (forall t | t in s.trans && (s.trans[t].phase.AbortWait? || s.trans[t].phase.AbortRetake?) && t in s.replies ::
          t in h.sawReader)
  }

  /** What an open window on `t` says about `t`. */
  ghost predicate WindowFits(tr: Trans, h: History, pc: Pc, t: Tid) {
    tr.inUse && !tr.answered && (tr.phase.AbortRetake? || tr.phase.Returned? ==> LateClaim(h, pc, t))
  }

  ghost predicate Grows(h: History, h': History) {
    h.sawReader <= h'.sawReader && h.lateClaim <= h'.lateClaim
  }

  /** Steps that change one caller. */
  lemma CallerHand(s: State, h: History, s': State, h': History, t: Tid)
    requires HandInv(s, h) && Grows(h, h')
    requires t in s'.trans && s'.trans == s.trans[t := s'.trans[t]]
    requires forall o | o in s.ops && Window(s.ops[o].pc, t) :: WindowFits(s'.trans[t], h', s.ops[o].pc, t)
    requires (s'.trans[t].phase.AbortWait? || s'.trans[t].phase.AbortRetake?) && t in s'.replies ==> t in h'.sawReader
    requires forall u | u in s'.replies :: u in s.replies
    requires s'.ops == s.ops
    ensures HandInv(s', h')
  {
  }

  lemma CheckHand(s: State, h: History, t: Tid)
    requires Inv(s) && HandInv(s, h) && Enabled(s, DoCheck(t))
    ensures HandInv(Check(s, t), Record(s, h, DoCheck(t)))
  {
    CallerHand(s, h, Check(s, t), Record(s, h, DoCheck(t)), t);
  }

  lemma SubmitHand(s: State, h: History, t: Tid, w: Wake)
    requires Inv(s) && HandInv(s, h) && t in s.trans && s.trans[t].phase.Allocated? && ValidWake(s.ops, w)
    ensures HandInv(Submit(s, t, w), h)
  {
    assert forall o | o in s.ops :: !Window(s.ops[o].pc, t);
    var s1 := Submit(s, t, w).(ops := s.ops);
    CallerHand(s, h, s1, h, t);
    ThreadHand(s1, h, Submit(s, t, w).ops, Submit(s, t, w));
  }

  /** Steps that change only threads outside copy windows. */
  lemma ThreadHand(s: State, h: History, ops': map<OpId, Op>, s': State)
    requires HandInv(s, h) && s'.trans == s.trans && s'.replies == s.replies && s'.ops == ops'
    requires forall o | o in ops' && (ops'[o].pc.CopyOut? || ops'[o].pc.CopyIn?) ::
      o in s.ops && ops'[o].pc == s.ops[o].pc
    ensures HandInv(s', h)
  {
  }

  lemma SameClaims(s: State, h: History, h': History)
    requires HandInv(s, h) && h'.sawReader == h.sawReader && h'.lateClaim == h.lateClaim
    ensures HandInv(s, h')
  {
  }

  lemma DeliverHand(s: State, h: History, o: OpId, f: FileId)
    requires Inv(s) && HandInv(s, h) && s.requests != []
    requires o in s.ops ==> s.ops[o].pc.Awake?
    ensures HandInv(Deliver(s, o, f, Nobody, false), h)
  {
    var t := s.requests[0];
    assert t in s.requests;
    assert forall p | p in s.ops :: !Window(s.ops[p].pc, t);
  }

  lemma PassHand(s: State, h: History, o: OpId, f: FileId, w: Wake, extra: bool)
    requires Inv(s) && HandInv(s, h) && f in s.files && ValidWake(s.ops, w)
    requires o in s.ops ==> s.ops[o].pc.Awake?
    ensures HandInv(ReadPass(s, o, f, w, extra), h)
  {
    var s' := ReadPass(s, o, f, w, extra);
    if s.shuttingDown || s.requests == [] {
      ThreadHand(s, h, s'.ops, s');
    } else {
      var s1 := s.(ops := if extra then Woken(s.ops, w) else s.ops);
      ThreadStepInv(s, s1.ops, s.shuttingDown);
      ThreadHand(s, h, s1.ops, s1);
      DeliverHand(s1, h, o, f);
      assert s' == Deliver(s1, o, f, Nobody, false);
    }
  }

  lemma ReadExitHand(s: State, h: History, o: OpId)
    requires HandInv(s, h) && o in s.ops && s.ops[o].pc.CopyOut?
    ensures HandInv(ReadExit(s, o), h)
  {
    assert Window(s.ops[o].pc, s.ops[o].pc.t);
  }

  lemma WriteExitHand(s: State, h: History, o: OpId, data: nat)
    requires HandInv(s, h) && o in s.ops && s.ops[o].pc.CopyIn?
    ensures HandInv(WriteExit(s, o, data), h)
  {
    assert Window(s.ops[o].pc, s.ops[o].pc.t);
  }

  lemma WriteEnterHand(s: State, h: History, o: OpId, f: FileId, serial: int)
    requires Inv(s) && HandInv(s, h) && Enabled(s, DoWriteEnter(o, f, serial)) && Polite(s, DoWriteEnter(o, f, serial))
    ensures HandInv(WriteEnter(s, o, f, serial), Record(s, h, DoWriteEnter(o, f, serial)))
  {
    var m := Find(s.replies, s.trans, serial);
    if m.Found? {
      ClaimHand(s, h, o, f, m.t, Record(s, h, DoWriteEnter(o, f, serial)));
    }
  }

  /** A writer claims a transaction on which no window is open. */
  lemma ClaimHand(s: State, h: History, o: OpId, f: FileId, t: Tid, h': History)
    requires ListsOk(s) && WindowsOk(s) && HandInv(s, h) && o !in s.ops && t in s.replies && !ReaderWindow(s.ops, t)
    requires h' == if s.trans[t].phase.AbortRetake? then h.(lateClaim := h.lateClaim + {t}) else h
    ensures var s' := s.(
        trans := s.trans[t := s.trans[t].(inUse := true)],
        replies := Minus(s.replies, {t}),
        ops := s.ops[o := Op(f, CopyIn(t), false)]);
      HandInv(s', h')
  {
    assert forall p | p in s.ops :: !Window(s.ops[p].pc, t);
    assert s.trans[t].phase.AbortRetake? ==> t in h.sawReader;
  }

  lemma CloseHand(s: State, h: History, f: FileId)
    requires Inv(s) && HandInv(s, h) && Enabled(s, DoClose(f))
    ensures HandInv(Close(s, f), h)
  {
    if s.useCount == 1 {
      CloseInv(s, f);
      assert s.ops == map[];
    }
  }

  lemma CallerHands(s: State, h: History, a: Action, extra: bool)
    requires Inv(s) && HandInv(s, h) && Enabled(s, a) && ByCaller(a) && !a.DoCheck?
    ensures HandInv(Next(s, a, extra), Record(s, h, a))
  {
    var s', h' := Next(s, a, extra), Record(s, h, a);
    match a
    case DoNew(t) =>
      assert forall o | o in s.ops :: !Window(s.ops[o].pc, t);
      CallerHand(s, h, s', h', t);
    case DoSubmit(t, w) =>
      SubmitHand(s, h, t, w);
      SameClaims(s', h, h');
    case DoSleep(t) => CallerHand(s, h, s', h', t);
    case DoKill(t) => CallerHand(s, h, s', h', t);
    case DoAbortSeen(t) => CallerHand(s, h, s', h', t);
    case DoAbortReturn(t) => CallerHand(s, h, s', h', t);
  }

  lemma ReaderHands(s: State, h: History, a: Action, extra: bool)
    requires Inv(s) && HandInv(s, h) && Enabled(s, a) && !ByCaller(a) && !ByCopier(a) && !a.DoClose?
    ensures HandInv(Next(s, a, extra), Record(s, h, a))
  {
    var s', h' := Next(s, a, extra), Record(s, h, a);
    match a
    case DoReadEnter(o, f, w) => PassHand(s, h, o, f, w, extra); SameClaims(s', h, h');
    case DoReadResume(o, w) =>
      if s.ops[o].signalled {
        ThreadHand(s, h, s'.ops, s');
      } else {
        PassHand(s, h, o, s.ops[o].file, w, extra);
        SameClaims(s', h, h');
      }
    case DoOpen(_) =>
    case DoShutdown(_, _) => ThreadHand(s, h, s'.ops, s');
    case DoSignal(_) => ThreadHand(s, h, s'.ops, s');
    case DoShutdownExit(_, _) => ThreadHand(s, h, s'.ops, s');
  }

  lemma ExitHands(s: State, h: History, a: Action, extra: bool)
    requires HandInv(s, h) && Enabled(s, a) && (a.DoReadExit? || a.DoWriteExit?)
    ensures HandInv(Next(s, a, extra), Record(s, h, a))
  {
    var s', h' := Next(s, a, extra), Record(s, h, a);
    if a.DoReadExit? {
      ReadExitHand(s, h, a.o);
    } else {
      WriteExitHand(s, h, a.o, a.data);
    }
    SameClaims(s', h, h');
  }

  lemma NextHand(s: State, h: History, a: Action, extra: bool)
    requires Inv(s) && HandInv(s, h) && Enabled(s, a) && Polite(s, a)
    ensures HandInv(Next(s, a, extra), Record(s, h, a))
  {
    if a.DoCheck? {
      CheckHand(s, h, a.t);
    } else if ByCaller(a) {
      CallerHands(s, h, a, extra);
    } else if a.DoWriteEnter? {
      WriteEnterHand(s, h, a.o, a.f, a.serial);
    } else if a.DoClose? {
      CloseHand(s, h, a.f);
      SameClaims(Close(s, a.f), h, Record(s, h, a));
    } else if ByCopier(a) {
      ExitHands(s, h, a, extra);
    } else {
      ReaderHands(s, h, a, extra);
    }
  }

  lemma {:induction false} RunHand(s: State, h: History, acts: seq<Action>, extra: bool)
    requires Inv(s) && HandInv(s, h) && Legal(s, acts, extra) && PoliteRun(s, acts, extra)
    ensures HandInv(After(s, acts, extra), Chronicle(s, h, acts, extra))
    decreases |acts|
  {
    if acts != [] {
      NextInv(s, acts[0], extra);
      NextHand(s, h, acts[0], extra);
      RunHand(Next(s, acts[0], extra), Record(s, h, acts[0]), acts[1..], extra);
    }
  }

  /** In every run with a server that answers only what it has fully read, a window still open on a transaction whose
      caller has returned is a single writer's, and it is a late claim. */
  lemma AbortHandshake(acts: seq<Action>, extra: bool, o: OpId, t: Tid)
    requires Legal(INIT, acts, extra) && PoliteRun(INIT, acts, extra)
    requires var s := After(INIT, acts, extra);
      t in s.trans && s.trans[t].phase.Returned? && o in s.ops && Window(s.ops[o].pc, t)
    ensures LateClaim(Chronicle(INIT, NO_HISTORY, acts, extra), After(INIT, acts, extra).ops[o].pc, t)
    ensures forall p | p in After(INIT, acts, extra).ops && Window(After(INIT, acts, extra).ops[p].pc, t) :: p == o
  {
    RunInv(INIT, acts, extra);
    RunHand(INIT, NO_HISTORY, acts, extra);
  }

  /** The step that returns leaves a window open exactly when it is the one of line 379 and `in_use` is set again by
      then, which the code does not look at. */
  lemma ReturnLeavesWindowExactly(s: State, h: History, a: Action, extra: bool)
    requires Inv(s) && HandInv(s, h) && Enabled(s, a) && (a.DoCheck? || a.DoAbortReturn?)
    requires Next(s, a, extra).trans[a.t].phase.Returned?
    ensures WindowOpen(Next(s, a, extra).ops, a.t) <==> a.DoAbortReturn? && s.trans[a.t].inUse
  {
  }

  // ---------------------------------------------------------------- politeness in terms of serials

  ghost predicate ReadDoneInv(s: State, h: History) {
    forall t | t in h.readDone :: t in s.trans && Queued(s.trans[t]) && t !in s.requests && !ReaderWindow(s.ops, t)
  }

  /** Transaction `u` was allocated in this session and carries the serial. */
  predicate Bears(s: State, h: History, u: Tid, serial: int) {
    u in s.trans && u in h.birth && h.birth[u].epoch == h.epoch && s.trans[u].serial == serial
  }

  /** The server has seen the serial in a read of this session that has returned. */
  ghost predicate SeenSerial(s: State, h: History, serial: int) {
    exists u :: u in h.readDone && Bears(s, h, u, serial)
  }

  /** Within one session, a server that only sends serials it has completely read is polite. */
  lemma SeenSerialIsPolite(s: State, h: History, o: OpId, f: FileId, serial: int)
    requires Inv(s) && SerialInv(s, h) && OneSession(s, h) && ReadDoneInv(s, h) && SeenSerial(s, h, serial)
    ensures Polite(s, DoWriteEnter(o, f, serial))
  {
    var m := Find(s.replies, s.trans, serial);
    if m.Found? {
      var u :| u in h.readDone && Bears(s, h, u, serial);
      SharedSerialExactly(h.birth[u].order, h.birth[m.t].order);
      assert u == m.t;
    }
  }
}
