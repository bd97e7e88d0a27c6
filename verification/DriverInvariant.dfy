/** The inductive invariant of the transaction protocol, for any server and any interleaving, and what follows
    from it: no request is lost. */
module DriverInvariant {
  import opened Lists
  import opened DriverModel

  ghost predicate ListsOk(s: State) {
    && NoDup(s.requests)
    && NoDup(s.replies)
    && (forall t | t in s.requests :: t !in s.replies)
    && (forall t | t in s.requests ::
          t in s.trans && s.trans[t].phase.Waiting? && !s.trans[t].answered && !s.trans[t].inUse)
    && (forall t | t in s.replies :: t in s.trans && Live(s.trans[t].phase) && !s.trans[t].answered)
  }

  ghost predicate WindowsOk(s: State) {
    && (forall o | o in s.ops && s.ops[o].pc.CopyOut? ::
          s.ops[o].pc.t in s.trans && Queued(s.trans[s.ops[o].pc.t]) && s.ops[o].pc.t !in s.requests)
    && (forall o | o in s.ops && s.ops[o].pc.CopyIn? ::
          && s.ops[o].pc.t in s.trans && Queued(s.trans[s.ops[o].pc.t]) && !s.trans[s.ops[o].pc.t].answered
          && s.ops[o].pc.t !in s.requests && s.ops[o].pc.t !in s.replies)
    && (forall o, p | && o in s.ops && p in s.ops && s.ops[o].pc == s.ops[p].pc
                      && (s.ops[o].pc.CopyOut? || s.ops[o].pc.CopyIn?) ::
          o == p)
  }

  ghost predicate TransOk(s: State) {
    && (forall t | t in s.trans && s.trans[t].phase.Allocated? :: !s.trans[t].answered && !s.trans[t].inUse)
    && (forall t | t in s.trans && Live(s.trans[t].phase) && !s.trans[t].answered ::
          t in s.requests || t in s.replies || Claimed(s.ops, t))
    && (forall t | t in s.trans && s.trans[t].inUse :: WindowOpen(s.ops, t))
  }

  ghost predicate FilesOk(s: State) {
    && s.useCount == |s.files|
    && (forall o | o in s.ops :: s.ops[o].file in s.files)
    && (s.files == {} ==> s.requests == [] && s.replies == [] && !s.shuttingDown)
  }

  ghost predicate Inv(s: State) {
    ListsOk(s) && WindowsOk(s) && TransOk(s) && FilesOk(s)
  }

  /** Copy windows survive a step that keeps the threads holding them. */
  lemma WindowsKept(ops: map<OpId, Op>, ops': map<OpId, Op>, skip: set<OpId>)
    requires forall o | o in ops && o !in skip && (ops[o].pc.CopyOut? || ops[o].pc.CopyIn?) ::
      o in ops' && ops'[o].pc == ops[o].pc
    ensures forall t | Claimed(ops, t) ::
      Claimed(ops', t) || exists o :: o in skip && o in ops && ops[o].pc == CopyIn(t)
    ensures forall t | WindowOpen(ops, t) ::
      WindowOpen(ops', t) || exists o :: o in skip && o in ops && Window(ops[o].pc, t)
  {
    forall t | Claimed(ops, t)
      ensures Claimed(ops', t) || exists o :: o in skip && o in ops && ops[o].pc == CopyIn(t)
    {
      var o :| o in ops && ops[o].pc == CopyIn(t);
      assert o in skip || (o in ops' && ops'[o].pc == CopyIn(t));
    }
    forall t | WindowOpen(ops, t)
      ensures WindowOpen(ops', t) || exists o :: o in skip && o in ops && Window(ops[o].pc, t)
    {
      var o :| o in ops && Window(ops[o].pc, t);
      assert o in skip || (o in ops' && Window(ops'[o].pc, t));
    }
  }

  lemma SubmitLists(s: State, t: Tid, w: Wake)
    requires Inv(s) && t in s.trans && s.trans[t].phase.Allocated?
    ensures ListsOk(Submit(s, t, w))
  {
    NoDupAppend(s.requests, t);
  }

  lemma SubmitTrans(s: State, t: Tid, w: Wake)
    requires Inv(s) && t in s.trans && s.trans[t].phase.Allocated? && ValidWake(s.ops, w)
    ensures TransOk(Submit(s, t, w))
  {
    WindowsKept(s.ops, Woken(s.ops, w), {});
  }

  lemma SubmitInv(s: State, t: Tid, w: Wake)
    requires Inv(s) && t in s.trans && s.trans[t].phase.Allocated? && ValidWake(s.ops, w)
    ensures Inv(Submit(s, t, w))
  {
    SubmitLists(s, t, w);
    SubmitTrans(s, t, w);
  }

  lemma UnlinkInv(s: State, t: Tid)
    requires Inv(s) && t in s.trans && Live(s.trans[t].phase)
    ensures Inv(Unlink(s, t))
  {
    MinusNoDup(s.requests, {t});
    MinusNoDup(s.replies, {t});
  }

  lemma CloseInv(s: State, f: FileId)
    requires Inv(s) && Enabled(s, DoClose(f))
    ensures Inv(Close(s, f))
  {
    if s.useCount == 1 {
      assert s.files == {f} by {
        assert |s.files - {f}| == 0;
      }
      assert s.ops == map[];
    } else {
      assert |s.files - {f}| == |s.files| - 1;
    }
  }

  lemma DeliverLists(s: State, o: OpId, f: FileId)
    requires Inv(s) && s.requests != []
    ensures ListsOk(Deliver(s, o, f, Nobody, false))
  {
    var t := s.requests[0];
    assert s.requests == [t] + s.requests[1..];
  }

  lemma DeliverTrans(s: State, o: OpId, f: FileId)
    requires Inv(s) && s.requests != []
    requires o in s.ops ==> s.ops[o].pc.Awake?
    ensures TransOk(Deliver(s, o, f, Nobody, false))
  {
    var s' := Deliver(s, o, f, Nobody, false);
    assert s.requests == [s.requests[0]] + s.requests[1..];
    WindowsKept(s.ops, s'.ops, {});
    assert s'.ops[o].pc == CopyOut(s.requests[0]);
  }

  lemma DeliverInv(s: State, o: OpId, f: FileId)
    requires Inv(s) && f in s.files && s.requests != []
    requires o in s.ops ==> s.ops[o].pc.Awake?
    ensures Inv(Deliver(s, o, f, Nobody, false))
  {
    assert s.requests == [s.requests[0]] + s.requests[1..];
    DeliverLists(s, o, f);
    DeliverTrans(s, o, f);
  }

  lemma ReadPassInv(s: State, o: OpId, f: FileId, w: Wake, extra: bool)
    requires Inv(s) && f in s.files && ValidWake(s.ops, w)
    requires o in s.ops ==> s.ops[o].pc.Awake?
    ensures Inv(ReadPass(s, o, f, w, extra))
  {
    if s.shuttingDown || s.requests == [] {
      ThreadStepInv(s, ReadPass(s, o, f, w, extra).ops, s.shuttingDown);
    } else {
      var s1 := s.(ops := if extra then Woken(s.ops, w) else s.ops);
      ThreadStepInv(s, s1.ops, s.shuttingDown);
      DeliverInv(s1, o, f);
      assert Deliver(s, o, f, w, extra) == Deliver(s1, o, f, Nobody, false);
    }
  }

  lemma ReadExitTrans(s: State, o: OpId)
    requires Inv(s) && o in s.ops && s.ops[o].pc.CopyOut?
    ensures TransOk(ReadExit(s, o))
  {
    var t := s.ops[o].pc.t;
    WindowsKept(s.ops, s.ops - {o}, {o});
    assert forall u | Claimed(s.ops, u) :: Claimed(s.ops - {o}, u);
    assert forall u | u != t && WindowOpen(s.ops, u) :: WindowOpen(s.ops - {o}, u);
  }

  lemma ReadExitInv(s: State, o: OpId)
    requires Inv(s) && o in s.ops && s.ops[o].pc.CopyOut?
    ensures Inv(ReadExit(s, o))
  {
    ReadExitTrans(s, o);
  }

  lemma WriteEnterTrans(s: State, o: OpId, f: FileId, serial: int)
    requires Inv(s) && o !in s.ops
    ensures TransOk(WriteEnter(s, o, f, serial))
  {
    var s' := WriteEnter(s, o, f, serial);
    var m := Find(s.replies, s.trans, serial);
    if m.Found? {
      WindowsKept(s.ops, s'.ops, {});
      assert s'.ops[o].pc == CopyIn(m.t);
      assert Claimed(s'.ops, m.t) && WindowOpen(s'.ops, m.t);
    }
  }

  lemma WriteEnterLists(s: State, o: OpId, f: FileId, serial: int)
    requires ListsOk(s)
    ensures ListsOk(WriteEnter(s, o, f, serial))
  {
    var m := Find(s.replies, s.trans, serial);
    if m.Found? {
      MinusNoDup(s.replies, {m.t});
    }
  }

  lemma WriteEnterWindows(s: State, o: OpId, f: FileId, serial: int)
    requires Inv(s) && o !in s.ops
    ensures WindowsOk(WriteEnter(s, o, f, serial))
  {
  }

  lemma WriteEnterInv(s: State, o: OpId, f: FileId, serial: int)
    requires Inv(s) && o !in s.ops && f in s.files
    ensures Inv(WriteEnter(s, o, f, serial))
  {
    WriteEnterLists(s, o, f, serial);
    WriteEnterWindows(s, o, f, serial);
    WriteEnterTrans(s, o, f, serial);
  }

  lemma WriteExitTrans(s: State, o: OpId, data: nat)
    requires Inv(s) && o in s.ops && s.ops[o].pc.CopyIn?
    ensures TransOk(WriteExit(s, o, data))
  {
    var t := s.ops[o].pc.t;
    WindowsKept(s.ops, s.ops - {o}, {o});
    assert forall u | u != t && Claimed(s.ops, u) :: Claimed(s.ops - {o}, u);
    assert forall u | u != t && WindowOpen(s.ops, u) :: WindowOpen(s.ops - {o}, u);
  }

  lemma WriteExitInv(s: State, o: OpId, data: nat)
    requires Inv(s) && o in s.ops && s.ops[o].pc.CopyIn?
    ensures Inv(WriteExit(s, o, data))
  {
    WriteExitTrans(s, o, data);
  }

  /** Steps that touch only the threads. */
  lemma ThreadStepInv(s: State, ops': map<OpId, Op>, down: bool)
    requires Inv(s)
    requires down ==> s.files != {}
    requires forall o | o in s.ops && (s.ops[o].pc.CopyOut? || s.ops[o].pc.CopyIn?) :: o in ops' && ops'[o] == s.ops[o]
    requires forall o | o in ops' :: ops'[o].file in s.files
    requires forall o | o in ops' && (ops'[o].pc.CopyOut? || ops'[o].pc.CopyIn?) :: o in s.ops && ops'[o] == s.ops[o]
    ensures Inv(s.(ops := ops', shuttingDown := down))
  {
    WindowsKept(s.ops, ops', {});
  }

  /** Steps that touch only the caller's side of one transaction. */
  lemma CallerStepInv(s: State, t: Tid, tr: Trans)
    requires Inv(s) && t in s.trans
    requires tr.inUse == s.trans[t].inUse && tr.answered == s.trans[t].answered
    requires tr.phase.Allocated? == s.trans[t].phase.Allocated? && Queued(tr) == Queued(s.trans[t])
    requires Live(tr.phase) ==> Live(s.trans[t].phase)
    requires (t in s.requests ==> tr.phase.Waiting?) && (t in s.replies ==> Live(tr.phase))
    ensures Inv(s.(trans := s.trans[t := tr]))
  {
  }

  lemma CallerInv(s: State, a: Action, extra: bool)
    requires Inv(s) && Enabled(s, a)
    requires ByCaller(a)
    ensures Inv(Next(s, a, extra))
  {
    var s' := Next(s, a, extra);
    match a
    case DoNew(t) =>
    case DoSubmit(t, w) => SubmitInv(s, t, w);
    case DoCheck(t) =>
      if s.trans[t].kill && !s.trans[t].inUse {
        UnlinkInv(s, t);
      } else {
        CallerStepInv(s, t, s'.trans[t]);
        assert s' == s.(trans := s'.trans);
      }
    case DoAbortReturn(t) => UnlinkInv(s, t);
    case DoSleep(t) =>
      CallerStepInv(s, t, s'.trans[t]);
      assert s' == s.(trans := s'.trans);
    case DoKill(t) =>
      CallerStepInv(s, t, s'.trans[t]);
      assert s' == s.(trans := s'.trans);
    case DoAbortSeen(t) =>
      CallerStepInv(s, t, s'.trans[t]);
      assert s' == s.(trans := s'.trans);
  }

  lemma ReaderInv(s: State, a: Action, extra: bool)
    requires Inv(s) && Enabled(s, a)
    requires a.DoReadEnter? || a.DoReadResume? || a.DoSignal? || a.DoShutdownExit?
    ensures Inv(Next(s, a, extra))
  {
    match a
    case DoReadEnter(o, f, w) => ReadPassInv(s, o, f, w, extra);
    case DoReadResume(o, w) =>
      if s.ops[o].signalled {
        ThreadStepInv(s, s.ops - {o}, s.shuttingDown);
      } else {
        ReadPassInv(s, o, s.ops[o].file, w, extra);
      }
    case DoSignal(o) => ThreadStepInv(s, Signal(s, o).ops, s.shuttingDown);
    case DoShutdownExit(o, w) => ThreadStepInv(s, Woken(s.ops, w) - {o}, s.shuttingDown);
  }

  lemma CopierInv(s: State, a: Action, extra: bool)
    requires Inv(s) && Enabled(s, a)
    requires a.DoReadExit? || a.DoWriteEnter? || a.DoWriteExit? || a.DoOpen? || a.DoClose? || a.DoShutdown?
    ensures Inv(Next(s, a, extra))
  {
    match a
    case DoReadExit(o) => ReadExitInv(s, o);
    case DoWriteEnter(o, f, serial) => WriteEnterInv(s, o, f, serial);
    case DoWriteExit(o, data) => WriteExitInv(s, o, data);
    case DoOpen(f) => assert |s.files + {f}| == |s.files| + 1;
    case DoClose(f) => CloseInv(s, f);
    case DoShutdown(f, w) => ThreadStepInv(s, Woken(s.ops, w), true);
  }

  /** Every step of every thread keeps the invariant, whatever the server does. */
  lemma NextInv(s: State, a: Action, extra: bool)
    requires Inv(s) && Enabled(s, a)
    ensures Inv(Next(s, a, extra))
  {
    if a.DoReadEnter? || a.DoReadResume? || a.DoSignal? || a.DoShutdownExit? {
      ReaderInv(s, a, extra);
    } else if a.DoReadExit? || a.DoWriteEnter? || a.DoWriteExit? || a.DoOpen? || a.DoClose? || a.DoShutdown? {
      CopierInv(s, a, extra);
    } else {
      CallerInv(s, a, extra);
    }
  }

  lemma {:induction false} RunInv(s: State, acts: seq<Action>, extra: bool)
    requires Inv(s) && Legal(s, acts, extra)
    ensures Inv(After(s, acts, extra))
    decreases |acts|
  {
    if acts != [] {
      NextInv(s, acts[0], extra);
      RunInv(Next(s, acts[0], extra), acts[1..], extra);
    }
  }

  // ---------------------------------------------------------------- no request is lost

  ghost function Writers(ops: map<OpId, Op>, t: Tid): set<OpId> {
    set o | o in ops && ops[o].pc == CopyIn(t)
  }

  /** How many of the four places hold `t`: its occurrences on the two lists, the writers copying a reply into
      it, and being answered. */
  ghost function Places(s: State, t: Tid): nat
    requires t in s.trans
  {
    multiset(s.requests)[t] + multiset(s.replies)[t] + |Writers(s.ops, t)| + if s.trans[t].answered then 1 else 0
  }

  /** In every run, a transaction whose caller is still inside uvfs_make_request is in exactly one place: once on
      the request list, once on the reply list, claimed by one writer, or answered. One whose caller has not
      queued it or has returned is on neither list. */
  lemma NoRequestLost(acts: seq<Action>, extra: bool, t: Tid)
    requires Legal(INIT, acts, extra) && t in After(INIT, acts, extra).trans
    ensures var s := After(INIT, acts, extra);
      if Live(s.trans[t].phase) then Places(s, t) == 1
      else t !in s.requests && t !in s.replies
  {
    RunInv(INIT, acts, extra);
    if Live(After(INIT, acts, extra).trans[t].phase) {
      OnePlace(After(INIT, acts, extra), t);
    }
  }

  lemma OnePlace(s: State, t: Tid)
    requires Inv(s) && t in s.trans && Live(s.trans[t].phase)
    ensures Places(s, t) == 1
  {
    NoDupCount(s.requests, t);
    NoDupCount(s.replies, t);
    if Claimed(s.ops, t) {
      var o :| o in s.ops && s.ops[o].pc == CopyIn(t);
      assert Writers(s.ops, t) == {o};
    } else {
      assert Writers(s.ops, t) == {};
    }
  }
}
