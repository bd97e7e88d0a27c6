/** The sleeping callers of uvfs_make_request: the wake-ups of lines 115, 123, 207 and 276 reach every caller whose
    wait is over, `abort` tells the readers exactly whom to wake, and nobody hangs once the server is gone. */
module DriverCallers {
  import opened DriverModel
  import opened DriverInvariant

  /** Who sleeps, sleeps rightly; `abort` is set while the caller waits at line 378 and not before. */
  predicate CallerOk(tr: Trans) {
    && (tr.asleep ==> Waits(tr.phase) && !WaitOver(tr))
    && (tr.phase.AbortWait? ==> tr.abort)
    && (tr.phase.Allocated? || tr.phase.Waiting? ==> !tr.abort)
  }

  ghost predicate CallersOk(trans: map<Tid, Trans>) {
    forall t | t in trans :: CallerOk(trans[t])
  }

  lemma CallerCallers(s: State, a: Action, extra: bool)
    requires CallersOk(s.trans) && Enabled(s, a) && ByCaller(a)
    ensures CallersOk(Next(s, a, extra).trans)
  {
    var s' := Next(s, a, extra);
    assert CallerOk(s'.trans[a.t]);
    assert forall t | t in s'.trans && t != a.t :: t in s.trans && s'.trans[t] == s.trans[t];
  }

  lemma PassCallers(s: State, o: OpId, f: FileId, w: Wake, extra: bool)
    requires CallersOk(s.trans)
    ensures CallersOk(ReadPass(s, o, f, w, extra).trans)
  {
  }

  lemma CloseCallers(s: State, f: FileId)
    requires CallersOk(s.trans)
    ensures CallersOk(Close(s, f).trans)
  {
  }

  lemma ReadExitCallers(s: State, o: OpId)
    requires CallersOk(s.trans) && o in s.ops && s.ops[o].pc.CopyOut?
    ensures CallersOk(ReadExit(s, o).trans)
  {
    var t := s.ops[o].pc.t;
    assert t in s.trans ==> CallerOk(CopiedOut(s.trans[t]));
  }

  lemma NextCallers(s: State, a: Action, extra: bool)
    requires CallersOk(s.trans) && Enabled(s, a)
    ensures CallersOk(Next(s, a, extra).trans)
  {
    if ByCaller(a) {
      CallerCallers(s, a, extra);
    } else {
      match a
      case DoReadEnter(o, f, w) => PassCallers(s, o, f, w, extra);
      case DoReadResume(o, w) => PassCallers(s, o, s.ops[o].file, w, extra);
      case DoClose(f) => CloseCallers(s, f);
      case DoReadExit(o) => ReadExitCallers(s, o);
      case _ =>
    }
  }

  lemma {:induction false} RunCallers(s: State, acts: seq<Action>, extra: bool)
    requires CallersOk(s.trans) && Legal(s, acts, extra)
    ensures CallersOk(After(s, acts, extra).trans)
    decreases |acts|
  {
    if acts != [] {
      NextCallers(s, acts[0], extra);
      RunCallers(Next(s, acts[0], extra), acts[1..], extra);
    }
  }

  // ---------------------------------------------------------------- nobody oversleeps

  /** In every run a caller asleep at line 368 is neither answered nor killed, and its transaction is where somebody
      can still answer it; a caller asleep at line 378 has `in_use` and `abort` set, and a copy window is open that
      will wake it. */
  lemma NobodyOversleeps(acts: seq<Action>, extra: bool, t: Tid)
    requires Legal(INIT, acts, extra)
    requires var s := After(INIT, acts, extra); t in s.trans && s.trans[t].asleep
    ensures var s := After(INIT, acts, extra);
      match s.trans[t].phase
      case Waiting =>
        && !s.trans[t].answered && !s.trans[t].kill
        && (t in s.requests || t in s.replies || Claimed(s.ops, t))
      case AbortWait => s.trans[t].inUse && s.trans[t].abort && WindowOpen(s.ops, t)
      case _ => false
  {
    RunInv(INIT, acts, extra);
    RunCallers(INIT, acts, extra);
    assert CallerOk(After(INIT, acts, extra).trans[t]);
  }

  /** The wake-up of lines 206-207 is needed for exactly the callers it is given to: in every run, when a reader's
      window on the transaction of a sleeping caller closes, its wait is over if and only if `abort` is set. */
  lemma AbortTellsWhomToWake(acts: seq<Action>, extra: bool, o: OpId)
    requires Legal(INIT, acts, extra)
    requires var s := After(INIT, acts, extra);
      o in s.ops && s.ops[o].pc.CopyOut? && s.ops[o].pc.t in s.trans && s.trans[s.ops[o].pc.t].asleep
    ensures var s := After(INIT, acts, extra);
      var t := s.ops[o].pc.t;
      WaitOver(ReadExit(s, o).trans[t]) <==> s.trans[t].abort
  {
    RunCallers(INIT, acts, extra);
    var s := After(INIT, acts, extra);
    assert CallerOk(s.trans[s.ops[o].pc.t]);
  }

  /** A killed caller asleep at line 378 behind a reader's window. */
  const BEHIND_READER := State(
    map[0 := Trans(0, true, true, false, Unset, AbortWait, true, true)], [], [0],
    map[1 := Op(0, CopyOut(0), false)], {0}, 1, false, 1)

  /** Such callers exist: a run that leads to one. The end of the window is the end of its wait, and with `abort` not
      looked at it would sleep on. */
  lemma AbortWakeNeeded() returns (acts: seq<Action>)
    ensures Ran(acts, BEHIND_READER, true)
    ensures var tr, tr' := BEHIND_READER.trans[0], ReadExit(BEHIND_READER, 1).trans[0];
      tr.asleep && WaitOver(tr') && tr' == tr.(inUse := false, asleep := false)
  {
    acts := QueueOne();
    var s0 := ONE_PENDING;
    var s1 := Deliver(s0, 1, 0, Nobody, true);
    RanOn(acts, s0, DoReadEnter(1, 0, Nobody), true);
    acts := acts + [DoReadEnter(1, 0, Nobody)];
    var s2 := Kill(s1, 0);
    RanOn(acts, s1, DoKill(0), true);
    acts := acts + [DoKill(0)];
    var s3 := Check(s2, 0);
    RanOn(acts, s2, DoCheck(0), true);
    acts := acts + [DoCheck(0)];
    assert Sleep(s3, 0) == BEHIND_READER;
    RanOn(acts, s3, DoSleep(0), true);
    acts := acts + [DoSleep(0)];
  }

  const ONE_PENDING := State(
    map[0 := Trans(0, false, false, false, Unset, Waiting, false, false)], [0], [], map[], {0}, 1, false, 1)

  lemma QueueOne() returns (acts: seq<Action>)
    ensures Ran(acts, ONE_PENDING, true)
  {
    acts := [];
    var s1 := Open(INIT, 0);
    RanOn(acts, INIT, DoOpen(0), true);
    acts := acts + [DoOpen(0)];
    var s2 := New(s1, 0);
    RanOn(acts, s1, DoNew(0), true);
    acts := acts + [DoNew(0)];
    assert Submit(s2, 0, Nobody) == ONE_PENDING;
    RanOn(acts, s2, DoSubmit(0, Nobody), true);
    acts := acts + [DoSubmit(0, Nobody)];
  }

  // ---------------------------------------------------------------- no hang once the server is gone

  /** The steps a caller has left once its waits cannot block. */
  function Finish(s: State, t: Tid): seq<Action>
    requires t in s.trans
  {
    match s.trans[t].phase
    case Waiting => [DoCheck(t)]
    case AbortWait => [DoAbortSeen(t), DoAbortReturn(t)]
    case AbortRetake => [DoAbortReturn(t)]
    case _ => []
  }

  /** In every run, when no file is open both lists are empty, no server thread is inside the driver (so no copy
      window is open), every queued caller has been answered and is awake, and each of them returns by its own next one
      or two steps, with nobody else's help. */
  lemma NoHangWithoutServer(acts: seq<Action>, extra: bool, t: Tid)
    requires Legal(INIT, acts, extra)
    requires After(INIT, acts, extra).useCount == 0
    ensures var s := After(INIT, acts, extra);
      && s.requests == [] && s.replies == [] && s.ops == map[] && !s.shuttingDown
      && (t in s.trans && Live(s.trans[t].phase) ==>
            && s.trans[t].answered && !s.trans[t].inUse && !s.trans[t].asleep
            && Legal(s, Finish(s, t), extra)
            && t in After(s, Finish(s, t), extra).trans
            && After(s, Finish(s, t), extra).trans[t].phase.Returned?)
  {
    RunInv(INIT, acts, extra);
    RunCallers(INIT, acts, extra);
    var s := After(INIT, acts, extra);
    assert s.files == {};
    assert s.ops == map[];
    if t in s.trans && Live(s.trans[t].phase) {
      assert CallerOk(s.trans[t]);
      FinishReturns(s, t, extra);
    }
  }

  lemma FinishReturns(s: State, t: Tid, extra: bool)
    requires t in s.trans && Live(s.trans[t].phase) && s.trans[t].answered && !s.trans[t].inUse && !s.trans[t].asleep
    ensures Legal(s, Finish(s, t), extra)
    ensures t in After(s, Finish(s, t), extra).trans && After(s, Finish(s, t), extra).trans[t].phase.Returned?
  {
    var acts := Finish(s, t);
    RunOne(s, acts[0], extra);
    if s.trans[t].phase.AbortWait? {
      var s1 := Next(s, acts[0], extra);
      RunOne(s1, acts[1], extra);
      RunMore(s, [acts[0]], [acts[1]], extra);
    }
  }
}
