/** Wake-ups of server threads: the question the comment at driver.c:195-198 leaves open. */
module DriverWakeups {
  import opened DriverModel
  import opened DriverInvariant

  ghost function WithPc(ops: map<OpId, Op>, pc: Pc): set<OpId> {
    set o | o in ops && ops[o].pc == pc
  }

  ghost function Awakes(ops: map<OpId, Op>): set<OpId> {
    WithPc(ops, Awake)
  }

  ghost predicate SomeAsleep(ops: map<OpId, Op>) {
    exists o :: o in ops && ops[o].pc == Asleep
  }

  /** The thread will look at the lists again, or pass the wake-up on, without being woken first. A woken reader with a
      signal pending will do neither: it leaves through lines 184-189. */
  predicate Coming(op: Op) {
    op.pc == InShutdown || (op.pc == Awake && !op.signalled)
  }

  ghost predicate SomeComing(ops: map<OpId, Op>) {
    exists o :: o in ops && Coming(ops[o])
  }

  /** Who sleeps has no signal pending: a signal would have woken it. */
  ghost predicate SleepersClean(ops: map<OpId, Op>) {
    forall o | o in ops && ops[o].pc == Asleep :: !ops[o].signalled
  }

  /** No wake-up is lost: work that a sleeper should do has somebody on the way to it. */
  ghost predicate Served(s: State) {
    (s.requests != [] || s.shuttingDown) && SomeAsleep(s.ops) ==> SomeComing(s.ops)
  }

  predicate NoSignals(acts: seq<Action>) {
    forall a | a in acts :: !a.DoSignal?
  }

  /** The inductive form: outside shutdown there are as many woken readers as pending requests. */
  ghost predicate WakeInv(s: State) {
    && (forall o | o in s.ops :: !s.ops[o].signalled)
    && (SomeAsleep(s.ops) ==> if s.shuttingDown then SomeComing(s.ops) else |Awakes(s.ops)| >= |s.requests|)
  }

  lemma WokenAwakes(ops: map<OpId, Op>, w: Wake)
    requires ValidWake(ops, w) && SleepersClean(ops)
    ensures SomeAsleep(Woken(ops, w)) ==>
      SomeAsleep(ops) && |Awakes(Woken(ops, w))| == |Awakes(ops)| + 1 && SomeComing(Woken(ops, w))
    ensures |Awakes(Woken(ops, w))| >= |Awakes(ops)|
    ensures SomeComing(ops) ==> SomeComing(Woken(ops, w))
  {
    var ops' := Woken(ops, w);
    match w
    case Nobody =>
    case Wakes(o) =>
      assert o in ops' && Coming(ops'[o]);
      assert Awakes(ops') == Awakes(ops) + {o};
      assert forall p | p in ops && p != o :: p in ops' && ops'[p] == ops[p];
  }

  /** A step that neither adds nor removes a sleeping, woken or leaving reader. */
  lemma SameQueue(ops: map<OpId, Op>, ops': map<OpId, Op>)
    requires forall o | o in ops && !ops[o].pc.CopyOut? && !ops[o].pc.CopyIn? :: o in ops' && ops'[o] == ops[o]
    requires forall o | o in ops' && !ops'[o].pc.CopyOut? && !ops'[o].pc.CopyIn? :: o in ops && ops'[o] == ops[o]
    ensures Awakes(ops') == Awakes(ops) && SomeAsleep(ops') == SomeAsleep(ops) && SomeComing(ops') == SomeComing(ops)
  {
    assert forall o | o in ops && (ops[o].pc == Asleep || ops[o].pc == InShutdown || ops[o].pc == Awake) ::
      o in ops' && ops'[o] == ops[o];
    assert forall o | o in ops' && (ops'[o].pc == Asleep || ops'[o].pc == InShutdown || ops'[o].pc == Awake) ::
      o in ops && ops'[o] == ops[o];
  }

  lemma DeliverWake(s: State, o: OpId, f: FileId)
    requires WakeInv(s) && s.requests != [] && !s.shuttingDown
    requires o in s.ops ==> s.ops[o].pc.Awake?
    ensures WakeInv(Deliver(s, o, f, Nobody, false))
  {
    var ops' := Deliver(s, o, f, Nobody, false).ops;
    assert Awakes(ops') == Awakes(s.ops) - {o};
    if SomeAsleep(ops') {
      var p :| p in ops' && ops'[p].pc == Asleep;
      assert p in s.ops && s.ops[p].pc == Asleep;
    }
  }

  lemma ReadPassWake(s: State, o: OpId, f: FileId, w: Wake, extra: bool)
    requires WakeInv(s) && ValidWake(s.ops, w)
    requires o in s.ops ==> s.ops[o].pc.Awake?
    ensures WakeInv(ReadPass(s, o, f, w, extra))
  {
    var s' := ReadPass(s, o, f, w, extra);
    if s.shuttingDown {
      assert Coming(s'.ops[o]);
    } else if s.requests != [] {
      var s1 := s.(ops := if extra then Woken(s.ops, w) else s.ops);
      WokenAwakes(s.ops, w);
      DeliverWake(s1, o, f);
      assert s' == Deliver(s1, o, f, Nobody, false);
    }
  }

  lemma ShutdownExitWake(s: State, o: OpId, w: Wake)
    requires WakeInv(s) && o in s.ops && s.ops[o].pc.InShutdown? && ValidWake(s.ops, w)
    ensures WakeInv(ShutdownExit(s, o, w))
  {
    var ops := Woken(s.ops, w);
    var s' := ShutdownExit(s, o, w);
    WokenAwakes(s.ops, w);
    assert Awakes(s'.ops) == Awakes(ops);
    if SomeAsleep(s'.ops) {
      assert SomeAsleep(ops);
      assert w.Wakes? && w.op in s'.ops && Coming(s'.ops[w.op]);
    }
  }

  lemma SubmitWake(s: State, t: Tid, w: Wake)
    requires WakeInv(s) && t in s.trans && ValidWake(s.ops, w)
    ensures WakeInv(Submit(s, t, w))
  {
    WokenAwakes(s.ops, w);
  }

  lemma NextWake(s: State, a: Action, extra: bool)
    requires Inv(s) && WakeInv(s) && Enabled(s, a) && !a.DoSignal?
    ensures WakeInv(Next(s, a, extra))
  {
    match a
    case DoSubmit(t, w) => SubmitWake(s, t, w);
    case DoClose(f) =>
      if s.useCount == 1 {
        CloseInv(s, f);
        assert Close(s, f).ops == map[];
      }
    case DoShutdown(_, w) => WokenAwakes(s.ops, w);
    case DoReadEnter(o, f, w) => ReadPassWake(s, o, f, w, extra);
    case DoReadResume(o, w) => ReadPassWake(s, o, s.ops[o].file, w, extra);
    case DoShutdownExit(o, w) => ShutdownExitWake(s, o, w);
    case DoReadExit(_) => CopierWake(s, a, extra);
    case DoWriteEnter(_, _, _) => CopierWake(s, a, extra);
    case DoWriteExit(_, _) => CopierWake(s, a, extra);
    case _ =>
  }

  lemma CopierWake(s: State, a: Action, extra: bool)
    requires WakeInv(s) && Enabled(s, a) && (a.DoReadExit? || a.DoWriteEnter? || a.DoWriteExit?)
    ensures WakeInv(Next(s, a, extra))
  {
    SameQueue(s.ops, Next(s, a, extra).ops);
  }

  lemma {:induction false} RunWake(s: State, acts: seq<Action>, extra: bool)
    requires Inv(s) && WakeInv(s) && Legal(s, acts, extra) && NoSignals(acts)
    ensures WakeInv(After(s, acts, extra))
    decreases |acts|
  {
    if acts != [] {
      NextInv(s, acts[0], extra);
      NextWake(s, acts[0], extra);
      RunWake(Next(s, acts[0], extra), acts[1..], extra);
    }
  }

  /** In every run in which no server thread takes a signal, no wake-up is lost, with or without the wake-up of
      line 199. */
  lemma NoLostWakeup(acts: seq<Action>, extra: bool)
    requires Legal(INIT, acts, extra) && NoSignals(acts)
    ensures Served(After(INIT, acts, extra))
  {
    RunWake(INIT, acts, extra);
    var s := After(INIT, acts, extra);
    if !s.shuttingDown && s.requests != [] && SomeAsleep(s.ops) {
      assert Awakes(s.ops) != {};
      var o :| o in Awakes(s.ops);
      assert o in s.ops && Coming(s.ops[o]);
    }
  }

  /** The wake-up of line 199 is redundant without signals: with that line removed, outside shutdown and as long as
      somebody sleeps, there is a woken reader for every pending request. */
  lemma ExtraWakeupRedundant(acts: seq<Action>)
    requires Legal(INIT, acts, false) && NoSignals(acts)
    ensures var s := After(INIT, acts, false);
      !s.shuttingDown && SomeAsleep(s.ops) ==> |Awakes(s.ops)| >= |s.requests|
  {
    RunWake(INIT, acts, false);
  }

  // ---------------------------------------------------------------- a shutdown reaches every reader

  /** How many steps the readers on the queue or in the shutdown exit have left at most. */
  ghost function StepsLeft(ops: map<OpId, Op>): nat {
    3 * |WithPc(ops, Asleep)| + 2 * |Awakes(ops)| + |WithPc(ops, InShutdown)|
  }

  lemma DropPc(ops: map<OpId, Op>, o: OpId, pc: Pc)
    requires o in ops
    ensures |WithPc(ops - {o}, pc)| == |WithPc(ops, pc)| - (if pc == ops[o].pc then 1 else 0)
  {
    assert WithPc(ops - {o}, pc) == WithPc(ops, pc) - {o};
  }

  lemma MovePc(ops: map<OpId, Op>, o: OpId, op: Op, pc: Pc)
    requires o in ops
    ensures |WithPc(ops[o := op], pc)| ==
      |WithPc(ops, pc)| - (if pc == ops[o].pc then 1 else 0) + (if pc == op.pc then 1 else 0)
  {
    DropPc(ops, o, pc);
    DropPc(ops[o := op], o, pc);
    assert ops[o := op] - {o} == ops - {o};
  }

  lemma WakeStepsLeft(ops: map<OpId, Op>, w: Wake)
    requires ValidWake(ops, w)
    ensures StepsLeft(Woken(ops, w)) <= StepsLeft(ops)
  {
    if w.Wakes? {
      var op := ops[w.op].(pc := Awake);
      MovePc(ops, w.op, op, Asleep);
      MovePc(ops, w.op, op, Awake);
      MovePc(ops, w.op, op, InShutdown);
    }
  }

  lemma LeaveStepsLeft(ops: map<OpId, Op>, o: OpId)
    requires o in ops && ops[o].pc == InShutdown
    ensures StepsLeft(ops - {o}) < StepsLeft(ops)
  {
    DropPc(ops, o, Asleep);
    DropPc(ops, o, Awake);
    DropPc(ops, o, InShutdown);
  }

  lemma ResumeStepsLeft(ops: map<OpId, Op>, o: OpId, op: Op)
    requires o in ops && ops[o].pc == Awake && op.pc == InShutdown
    ensures StepsLeft(ops[o := op]) < StepsLeft(ops)
  {
    MovePc(ops, o, op, Asleep);
    MovePc(ops, o, op, Awake);
    MovePc(ops, o, op, InShutdown);
  }

  predicate ReaderStep(a: Action) {
    a.DoReadResume? || a.DoShutdownExit?
  }

  lemma SomeWake(ops: map<OpId, Op>) returns (w: Wake)
    ensures ValidWake(ops, w)
  {
    if o :| o in ops && ops[o].pc == Asleep {
      w := Wakes(o);
    } else {
      w := Nobody;
    }
  }

  /** During a shutdown, in every run without signals: every step of a waiting reader brings all of them closer to
      leaving, and as long as one of them waits, some waiting reader can take its step. So each sleeper is woken in
      its turn and leaves, by the readers' own steps. */
  lemma ShutdownReachesReaders(acts: seq<Action>, extra: bool) returns (next: Action)
    requires Legal(INIT, acts, extra) && NoSignals(acts) && After(INIT, acts, extra).shuttingDown
    ensures var s := After(INIT, acts, extra);
      && (StepsLeft(s.ops) > 0 ==> ReaderStep(next) && Enabled(s, next))
      && (forall a | ReaderStep(a) && Enabled(s, a) :: StepsLeft(Next(s, a, extra).ops) < StepsLeft(s.ops))
  {
    RunWake(INIT, acts, extra);
    var s := After(INIT, acts, extra);
    forall a | ReaderStep(a) && Enabled(s, a) ensures StepsLeft(Next(s, a, extra).ops) < StepsLeft(s.ops) {
      ReaderStepLeft(s, a, extra);
    }
    next := PickReader(s);
  }

  lemma ReaderStepLeft(s: State, a: Action, extra: bool)
    requires WakeInv(s) && s.shuttingDown && ReaderStep(a) && Enabled(s, a)
    ensures StepsLeft(Next(s, a, extra).ops) < StepsLeft(s.ops)
  {
    if a.DoReadResume? {
      ResumeStepsLeft(s.ops, a.o, Op(s.ops[a.o].file, InShutdown, false));
    } else {
      WakeStepsLeft(s.ops, a.w);
      LeaveStepsLeft(Woken(s.ops, a.w), a.o);
    }
  }

  lemma PickReader(s: State) returns (next: Action)
    requires WakeInv(s) && s.shuttingDown
    ensures StepsLeft(s.ops) > 0 ==> ReaderStep(next) && Enabled(s, next)
  {
    var w := SomeWake(s.ops);
    next := DoNew(0);
    if StepsLeft(s.ops) > 0 {
      assert SomeAsleep(s.ops) || SomeComing(s.ops) by {
        assert WithPc(s.ops, Asleep) != {} || WithPc(s.ops, Awake) != {} || WithPc(s.ops, InShutdown) != {};
        var o :| o in WithPc(s.ops, Asleep) + WithPc(s.ops, Awake) + WithPc(s.ops, InShutdown);
        assert o in s.ops;
      }
      var o :| o in s.ops && (s.ops[o].pc == Awake || s.ops[o].pc == InShutdown);
      next := if s.ops[o].pc == Awake then DoReadResume(o, w) else DoShutdownExit(o, w);
    }
  }

  // ---------------------------------------------------------------- signals

  /** With signals, every later enqueue, every dequeue (because of line 199) and a shutdown request repair a lost
      wake-up, from any state. */
  lemma LaterWakeupRepairs(s: State, a: Action)
    requires SleepersClean(s.ops) && Enabled(s, a)
    requires (a.DoSubmit? && s.useCount != 0) || a.DoShutdown? || Delivers(s, a)
    ensures Served(Next(s, a, true))
  {
    WokenAwakes(s.ops, a.w);
    var s' := Next(s, a, true);
    if SomeAsleep(s'.ops) {
      var o :| o in s'.ops && s'.ops[o].pc == Asleep;
      assert o in Woken(s.ops, a.w) && Woken(s.ops, a.w)[o].pc == Asleep;
      assert a.w.Wakes?;
      assert a.w.op in s'.ops && Coming(s'.ops[a.w.op]);
    }
  }

  // ---------------------------------------------------------------- pending requests reach the server

  ghost predicate OnQueue(ops: map<OpId, Op>) {
    exists o :: o in ops && (ops[o].pc == Asleep || ops[o].pc == Awake)
  }

  /** The head of the request list moves to the reply list, into the copy window of reader `o`. */
  ghost predicate HeadMoves(s: State, s': State, o: OpId) {
    && s.requests != []
    && s'.requests == s.requests[1..] && s'.replies == s.replies + [s.requests[0]]
    && o in s'.ops && s'.ops[o].pc == CopyOut(s.requests[0])
  }

  /** Outside shutdown, in every run without signals: while a request is pending and a reader is on the queue, some
      reader on the queue can take its step, and every such step delivers the oldest request. */
  lemma RequestsReachReaders(acts: seq<Action>, extra: bool) returns (next: Action)
    requires Legal(INIT, acts, extra) && NoSignals(acts)
    requires var s := After(INIT, acts, extra); !s.shuttingDown && s.requests != [] && OnQueue(s.ops)
    ensures var s := After(INIT, acts, extra);
      && next.DoReadResume? && Enabled(s, next)
      && (forall a: Action | a.DoReadResume? && Enabled(s, a) :: HeadMoves(s, Next(s, a, extra), a.o))
  {
    RunWake(INIT, acts, extra);
    var s := After(INIT, acts, extra);
    assert exists o :: o in s.ops && s.ops[o].pc == Awake by {
      if SomeAsleep(s.ops) {
        assert Awakes(s.ops) != {};
        var o :| o in Awakes(s.ops);
        assert o in s.ops;
      }
    }
    var o :| o in s.ops && s.ops[o].pc == Awake;
    var w := SomeWake(s.ops);
    next := DoReadResume(o, w);
  }

  predicate AllResume(acts: seq<Action>) {
    forall a | a in acts :: a.DoReadResume?
  }

  /** Enough woken readers deliver everything pending, oldest first, by their own steps. */
  lemma {:induction false} WokenDeliverAll(s: State, extra: bool) returns (more: seq<Action>)
    requires !s.shuttingDown && (forall o | o in s.ops :: !s.ops[o].signalled)
    requires |Awakes(s.ops)| >= |s.requests|
    ensures AllResume(more) && |more| == |s.requests| && Legal(s, more, extra)
    ensures After(s, more, extra).requests == [] && After(s, more, extra).replies == s.replies + s.requests
    decreases |s.requests|
  {
    more := [];
    if s.requests != [] {
      assert Awakes(s.ops) != {};
      var o :| o in Awakes(s.ops);
      var w := SomeWake(s.ops);
      var s1 := Deliver(s, o, s.ops[o].file, w, extra);
      DeliverAwakes(s, o, s.ops[o].file, w, extra);
      var rest := WokenDeliverAll(s1, extra);
      more := [DoReadResume(o, w)] + rest;
      assert more[1..] == rest && Next(s, more[0], extra) == s1;
      assert s.requests == [s.requests[0]] + s.requests[1..];
    }
  }

  lemma DeliverAwakes(s: State, o: OpId, f: FileId, w: Wake, extra: bool)
    requires s.requests != [] && o in s.ops && s.ops[o].pc == Awake && ValidWake(s.ops, w) && SleepersClean(s.ops)
    ensures |Awakes(Deliver(s, o, f, w, extra).ops)| >= |Awakes(s.ops)| - 1
  {
    var ops := if extra then Woken(s.ops, w) else s.ops;
    WokenAwakes(s.ops, w);
    assert o in ops && ops[o].pc == Awake;
    MovePc(ops, o, Op(f, CopyOut(s.requests[0]), false), Awake);
  }

  /** So in every run without signals, outside shutdown and as long as somebody sleeps, the readers that are awake can
      deliver every pending request without another wake-up. */
  lemma SleepersLeaveNothingBehind(acts: seq<Action>, extra: bool) returns (more: seq<Action>)
    requires Legal(INIT, acts, extra) && NoSignals(acts)
    requires !After(INIT, acts, extra).shuttingDown && SomeAsleep(After(INIT, acts, extra).ops)
    ensures var s := After(INIT, acts, extra);
      && AllResume(more) && |more| == |s.requests| && Legal(s, more, extra)
      && After(s, more, extra).requests == [] && After(s, more, extra).replies == s.replies + s.requests
  {
    RunWake(INIT, acts, extra);
    more := WokenDeliverAll(After(INIT, acts, extra), extra);
  }
}
