/** How uvfs_make_request ends, and what a shutdown changes. */
module DriverOutcomes {
  import opened DriverModel
  import opened DriverInvariant
  import opened DriverHistory

  // ---------------------------------------------------------------- one outcome per request

  /** What a transaction's fields and its caller's outcome say about its past. */
  ghost predicate Told(tr: Trans, t: Tid, h: History) {
    && (tr.answered <==> t in h.drained || t in h.replied)
    && !(t in h.drained && t in h.replied)
    && (Live(tr.phase) && tr.answered ==> tr.result == if t in h.replied then Reply(h.replied[t]) else Eio)
    && (tr.phase.Allocated? || tr.phase == Returned(NotQueued) ==> !tr.answered)
    && (tr.phase.Returned? && Queued(tr) ==> (tr.phase.outcome.Interrupted? <==> tr.kill))
    && (tr.phase == Returned(Drained) ==> t in h.drained)
    && (tr.phase.Returned? && tr.phase.outcome.Replied? ==> t in h.replied && h.replied[t] == tr.phase.outcome.data)
  }

  ghost predicate OutcomeInv(s: State, h: History) {
    && (forall t | t in s.trans :: Told(s.trans[t], t, h))
    && (forall t | t in h.drained :: t in s.trans)
    && (forall t | t in h.replied :: t in s.trans)
  }

  ghost predicate SameAnswers(trans: map<Tid, Trans>, trans': map<Tid, Trans>) {
    && trans'.Keys == trans.Keys
    && forall t | t in trans :: trans'[t].phase == trans[t].phase && trans'[t].answered == trans[t].answered
                              && trans'[t].result == trans[t].result && trans'[t].kill == trans[t].kill
  }

  lemma OutcomeFrame(s: State, h: History, s': State, h': History)
    requires OutcomeInv(s, h) && SameAnswers(s.trans, s'.trans)
    requires h'.drained == h.drained && h'.replied == h.replied
    ensures OutcomeInv(s', h')
  {
    forall t | t in s'.trans ensures Told(s'.trans[t], t, h') {
      assert Told(s.trans[t], t, h);
    }
  }

  /** One caller moves. */
  lemma OutcomeMove(s: State, h: History, s': State, h': History, t: Tid)
    requires OutcomeInv(s, h) && t in s'.trans && s'.trans == s.trans[t := s'.trans[t]] && Told(s'.trans[t], t, h)
    requires h'.drained == h.drained && h'.replied == h.replied
    ensures OutcomeInv(s', h')
  {
    forall u | u in s'.trans ensures Told(s'.trans[u], u, h') {
      assert u != t ==> Told(s.trans[u], u, h);
    }
  }

  lemma CheckOutcome(s: State, h: History, t: Tid)
    requires OutcomeInv(s, h) && Enabled(s, DoCheck(t))
    ensures OutcomeInv(Check(s, t), Record(s, h, DoCheck(t)))
  {
    assert Told(s.trans[t], t, h);
    OutcomeMove(s, h, Check(s, t), Record(s, h, DoCheck(t)), t);
  }

  lemma UnlinkOutcome(s: State, h: History, t: Tid, h': History)
    requires OutcomeInv(s, h) && t in s.trans && Live(s.trans[t].phase) && s.trans[t].kill
    requires h'.drained == h.drained && h'.replied == h.replied
    ensures OutcomeInv(Unlink(s, t), h')
  {
    assert Told(s.trans[t], t, h);
    OutcomeMove(s, h, Unlink(s, t), h', t);
  }

  lemma CloseOutcome(s: State, h: History, f: FileId)
    requires ListsOk(s) && OutcomeInv(s, h) && Enabled(s, DoClose(f))
    ensures OutcomeInv(Close(s, f), Record(s, h, DoClose(f)))
  {
    var s', h' := Close(s, f), Record(s, h, DoClose(f));
    forall t | t in s'.trans ensures Told(s'.trans[t], t, h') {
      assert Told(s.trans[t], t, h);
    }
  }

  lemma WriteExitOutcome(s: State, h: History, o: OpId, data: nat)
    requires WindowsOk(s) && OutcomeInv(s, h) && o in s.ops && s.ops[o].pc.CopyIn?
    ensures OutcomeInv(WriteExit(s, o, data), h.(replied := h.replied[s.ops[o].pc.t := data]))
  {
    var s', h' := WriteExit(s, o, data), h.(replied := h.replied[s.ops[o].pc.t := data]);
    forall t | t in s'.trans ensures Told(s'.trans[t], t, h') {
      assert Told(s.trans[t], t, h);
    }
  }

  /** A caller that aborts was killed. */
  ghost predicate AbortsKilled(s: State) {
    forall t | t in s.trans && (s.trans[t].phase.AbortWait? || s.trans[t].phase.AbortRetake?) :: s.trans[t].kill
  }

  lemma WaitingOutcome(s: State, h: History, a: Action, extra: bool)
    requires OutcomeInv(s, h) && Enabled(s, a) && (a.DoSleep? || a.DoKill? || a.DoAbortSeen?)
    ensures OutcomeInv(Next(s, a, extra), Record(s, h, a))
  {
    assert Told(s.trans[a.t], a.t, h);
    OutcomeMove(s, h, Next(s, a, extra), h, a.t);
  }

  lemma NewOutcome(s: State, h: History, t: Tid)
    requires OutcomeInv(s, h) && t !in s.trans
    ensures OutcomeInv(New(s, t), Record(s, h, DoNew(t)))
  {
    OutcomeMove(s, h, New(s, t), Record(s, h, DoNew(t)), t);
  }

  lemma ToldSubmit(tr: Trans, t: Tid, h: History)
    requires Told(tr, t, h) && tr.phase.Allocated?
    ensures Told(tr.(phase := Waiting), t, h) && Told(tr.(result := Eio, phase := Returned(NotQueued)), t, h)
  {
  }

  lemma SubmitOutcome(s: State, h: History, t: Tid, w: Wake, h': History)
    requires OutcomeInv(s, h) && t in s.trans && s.trans[t].phase.Allocated?
    requires h'.drained == h.drained && h'.replied == h.replied
    ensures OutcomeInv(Submit(s, t, w), h')
  {
    ToldSubmit(s.trans[t], t, h);
    OutcomeMove(s, h, Submit(s, t, w), h', t);
  }

  lemma CallerOutcome(s: State, h: History, a: Action, extra: bool)
    requires OutcomeInv(s, h) && AbortsKilled(s) && Enabled(s, a) && ByCaller(a) && !a.DoCheck?
    ensures OutcomeInv(Next(s, a, extra), Record(s, h, a))
  {
    match a
    case DoNew(t) => NewOutcome(s, h, t);
    case DoSubmit(t, w) => SubmitOutcome(s, h, t, w, Record(s, h, a));
    case DoAbortReturn(t) => UnlinkOutcome(s, h, t, Record(s, h, a));
    case _ => WaitingOutcome(s, h, a, extra);
  }

  /** Server threads, opens, closes and the shutdown request never move a caller. Apart from a finished write and a
      last close they do not answer anybody either. */
  lemma ServerKeepsCallers(s: State, a: Action, extra: bool)
    requires Enabled(s, a) && !ByCaller(a)
    ensures SamePhases(s.trans, Next(s, a, extra).trans)
    ensures AbortsKilled(s) ==> AbortsKilled(Next(s, a, extra))
    ensures !a.DoWriteExit? && !a.DoClose? ==> SameAnswers(s.trans, Next(s, a, extra).trans)
  {
    match a
    case DoReadEnter(o, f, w) => PassKeepsCallers(s, o, f, w, extra);
    case DoReadResume(o, w) => PassKeepsCallers(s, o, s.ops[o].file, w, extra);
    case DoClose(f) => CloseKeepsCallers(s, f);
    case DoReadExit(_) => CopierKeepsCallers(s, a, extra);
    case DoWriteEnter(_, _, _) => CopierKeepsCallers(s, a, extra);
    case DoWriteExit(_, _) => CopierKeepsCallers(s, a, extra);
    case _ =>
  }

  /** One transaction changes, but not what its caller has done. */
  lemma OneKeepsCallers(trans: map<Tid, Trans>, t: Tid, tr: Trans)
    requires t in trans && tr.phase == trans[t].phase && tr.kill == trans[t].kill
    ensures SamePhases(trans, trans[t := tr])
    ensures forall u | u in trans :: trans[t := tr][u].kill == trans[u].kill
    ensures tr.answered == trans[t].answered && tr.result == trans[t].result ==> SameAnswers(trans, trans[t := tr])
  {
  }

  lemma CopierKeepsCallers(s: State, a: Action, extra: bool)
    requires Enabled(s, a) && ByCopier(a)
    ensures SamePhases(s.trans, Next(s, a, extra).trans)
    ensures forall t | t in s.trans :: Next(s, a, extra).trans[t].kill == s.trans[t].kill
    ensures !a.DoWriteExit? ==> SameAnswers(s.trans, Next(s, a, extra).trans)
  {
    if a.DoWriteEnter? {
      var m := Find(s.replies, s.trans, a.serial);
      if m.Found? {
        OneKeepsCallers(s.trans, m.t, s.trans[m.t].(inUse := true));
      }
    } else {
      var t := s.ops[a.o].pc.t;
      if t in s.trans {
        OneKeepsCallers(s.trans, t, if a.DoReadExit? then CopiedOut(s.trans[t]) else Completed(s.trans[t], a.data));
      }
    }
  }

  lemma PassKeepsCallers(s: State, o: OpId, f: FileId, w: Wake, extra: bool)
    ensures SameAnswers(s.trans, ReadPass(s, o, f, w, extra).trans)
  {
  }

  lemma CloseKeepsCallers(s: State, f: FileId)
    ensures SamePhases(s.trans, Close(s, f).trans)
    ensures forall t | t in s.trans :: Close(s, f).trans[t].kill == s.trans[t].kill
  {
  }

  lemma CallerAborts(s: State, a: Action, extra: bool)
    requires AbortsKilled(s) && Enabled(s, a) && ByCaller(a)
    ensures AbortsKilled(Next(s, a, extra))
  {
    var s' := Next(s, a, extra);
    assert s'.trans[a.t].phase.AbortWait? || s'.trans[a.t].phase.AbortRetake? ==> s'.trans[a.t].kill;
    assert forall t | t in s'.trans && t != a.t :: t in s.trans && s'.trans[t] == s.trans[t];
  }

  lemma NextOutcome(s: State, h: History, a: Action, extra: bool)
    requires Inv(s) && AbortsKilled(s) && OutcomeInv(s, h) && Enabled(s, a)
    ensures AbortsKilled(Next(s, a, extra)) && OutcomeInv(Next(s, a, extra), Record(s, h, a))
  {
    if ByCaller(a) {
      CallerAborts(s, a, extra);
      if a.DoCheck? { CheckOutcome(s, h, a.t); } else { CallerOutcome(s, h, a, extra); }
    } else {
      ServerKeepsCallers(s, a, extra);
      if a.DoClose? {
        CloseOutcome(s, h, a.f);
      } else if a.DoWriteExit? {
        WriteExitOutcome(s, h, a.o, a.data);
      } else {
        OutcomeFrame(s, h, Next(s, a, extra), Record(s, h, a));
      }
    }
  }

  lemma {:induction false} RunOutcome(s: State, h: History, acts: seq<Action>, extra: bool)
    requires Inv(s) && AbortsKilled(s) && OutcomeInv(s, h) && Legal(s, acts, extra)
    ensures OutcomeInv(After(s, acts, extra), Chronicle(s, h, acts, extra))
    decreases |acts|
  {
    if acts != [] {
      NextInv(s, acts[0], extra);
      NextOutcome(s, h, acts[0], extra);
      RunOutcome(Next(s, acts[0], extra), Record(s, h, acts[0]), acts[1..], extra);
    }
  }

  /** What the caller finds in the reply when uvfs_make_request returns. */
  function ResultOf(out: Outcome): Result {
    match out
    case NotQueued => Eio
    case Interrupted => RestartSys
    case Drained => Eio
    case Replied(d) => Reply(d)
  }

  /** A returned request is on neither list and its outcome is the one its history calls for: it was never queued;
      or it was queued and its caller killed, answered or not; or its caller was not killed, a last close answered it
      and no server did; or its caller was not killed, exactly one server write answered it, with those data, and no
      last close did. */
  ghost predicate OutcomeFits(s: State, h: History, t: Tid)
    requires t in s.trans && s.trans[t].phase.Returned?
  {
    && t !in s.requests && t !in s.replies
    && (s.trans[t].phase.outcome.NotQueued? <==> t !in h.enqueued)
    && (s.trans[t].phase.outcome.Interrupted? <==> t in h.enqueued && s.trans[t].kill)
    && match s.trans[t].phase.outcome
       case NotQueued => t !in h.drained && t !in h.replied
       case Interrupted => true
       case Drained => t in h.drained && t !in h.replied
       case Replied(d) => t in h.replied && h.replied[t] == d && t !in h.drained
  }

  lemma InvariantFits(s: State, h: History, t: Tid)
    requires ListsOk(s) && MembersOk(s.trans, h) && OutcomeInv(s, h)
    requires t in s.trans && s.trans[t].phase.Returned?
    ensures OutcomeFits(s, h, t)
  {
    assert Told(s.trans[t], t, h);
  }

  /** In every run, every returned request has the one outcome its history calls for. */
  lemma OneOutcome(acts: seq<Action>, extra: bool, t: Tid)
    requires Legal(INIT, acts, extra)
    requires t in After(INIT, acts, extra).trans && After(INIT, acts, extra).trans[t].phase.Returned?
    ensures OutcomeFits(After(INIT, acts, extra), Chronicle(INIT, NO_HISTORY, acts, extra), t)
  {
    RunInv(INIT, acts, extra);
    RunFifo(INIT, NO_HISTORY, acts, extra);
    RunOutcome(INIT, NO_HISTORY, acts, extra);
    InvariantFits(After(INIT, acts, extra), Chronicle(INIT, NO_HISTORY, acts, extra), t);
  }

  lemma ReturnedStays(s: State, a: Action, extra: bool, t: Tid)
    requires Enabled(s, a) && t in s.trans && s.trans[t].phase.Returned?
    ensures t in Next(s, a, extra).trans && Next(s, a, extra).trans[t].phase == s.trans[t].phase
  {
    if !ByCaller(a) {
      ServerKeepsCallers(s, a, extra);
    }
  }

  /** Once returned, always returned with that outcome and off both lists, whatever follows. */
  lemma {:induction false} ReturnedForever(s: State, more: seq<Action>, extra: bool, t: Tid)
    requires Inv(s) && t in s.trans && s.trans[t].phase.Returned? && Legal(s, more, extra)
    ensures var s' := After(s, more, extra);
      t in s'.trans && s'.trans[t].phase == s.trans[t].phase && t !in s'.requests && t !in s'.replies
    decreases |more|
  {
    if more != [] {
      NextInv(s, more[0], extra);
      ReturnedStays(s, more[0], extra, t);
      ReturnedForever(Next(s, more[0], extra), more[1..], extra, t);
    }
  }

  /** The step by which a caller returns leaves in the reply what its outcome says. */
  lemma ReturnTells(s: State, h: History, a: Action, extra: bool)
    requires OutcomeInv(s, h) && Enabled(s, a) && ByCaller(a) && !a.DoKill?
    requires Next(s, a, extra).trans[a.t].phase.Returned?
    ensures Next(s, a, extra).trans[a.t].result == ResultOf(Next(s, a, extra).trans[a.t].phase.outcome)
  {
    assert a.DoCheck? ==> Told(s.trans[a.t], a.t, h);
  }

  /** What the section after the wait of line 368 decides: a killed caller is interrupted even if it has been
      answered, unless a window is open, for whose end it then waits; one that was not killed takes its answer, a last
      close's or a server's, as it is. No other transaction changes. */
  ghost predicate Decides(s: State, h: History, t: Tid, s': State) {
    && t in s.trans && t in s'.trans && s'.trans == s.trans[t := s'.trans[t]]
    && var tr, tr' := s.trans[t], s'.trans[t];
    && (tr.kill && !tr.inUse <==> tr'.phase == Returned(Interrupted))
    && (tr.kill && !tr.inUse ==> tr'.result == RestartSys && t !in s'.requests && t !in s'.replies)
    && (tr.kill && tr.inUse <==> tr'.phase == AbortWait)
    && (tr.kill && tr.inUse ==> tr'.abort && tr'.result == tr.result)
    && (!tr.kill && t in h.drained <==> tr'.phase == Returned(Drained))
    && (forall d :: !tr.kill && t in h.replied && h.replied[t] == d <==> tr'.phase == Returned(Replied(d)))
    && (!tr.kill ==> tr'.phase.Returned? && tr'.result == tr.result)
  }

  lemma Decided(s: State, h: History, t: Tid, extra: bool)
    requires OutcomeInv(s, h) && Enabled(s, DoCheck(t))
    ensures Decides(s, h, t, Next(s, DoCheck(t), extra))
  {
    assert Told(s.trans[t], t, h);
  }

  /** In every run, that is what it decides. */
  lemma CheckDecides(acts: seq<Action>, extra: bool, t: Tid)
    requires Legal(INIT, acts, extra) && Enabled(After(INIT, acts, extra), DoCheck(t))
    ensures Decides(After(INIT, acts, extra), Chronicle(INIT, NO_HISTORY, acts, extra), t,
                    Next(After(INIT, acts, extra), DoCheck(t), extra))
  {
    RunOutcome(INIT, NO_HISTORY, acts, extra);
    Decided(After(INIT, acts, extra), Chronicle(INIT, NO_HISTORY, acts, extra), t, extra);
  }

  /** And what the section of lines 379-384 does, always. */
  lemma AbortReturnInterrupts(s: State, t: Tid, extra: bool)
    requires Enabled(s, DoAbortReturn(t))
    ensures var s' := Next(s, DoAbortReturn(t), extra);
      && s'.trans == s.trans[t := s.trans[t].(result := RestartSys, phase := Returned(Interrupted))]
      && t !in s'.requests && t !in s'.replies && s'.ops == s.ops
  {
  }

  // ---------------------------------------------------------------- shutdown

  /** No step of `acts` closes the last file. */
  predicate SameSession(s: State, acts: seq<Action>, extra: bool)
    requires Legal(s, acts, extra)
    decreases |acts|
  {
    acts == [] || (!LastClose(s, acts[0]) && SameSession(Next(s, acts[0], extra), acts[1..], extra))
  }

  lemma ShutdownStep(s: State, h: History, a: Action, extra: bool)
    requires s.shuttingDown && Enabled(s, a) && !LastClose(s, a)
    ensures Next(s, a, extra).shuttingDown && Record(s, h, a).delivered == h.delivered
    ensures forall t | t in Next(s, a, extra).replies :: t in s.replies
  {
  }

  /** From a shutdown request to the last close nothing is delivered any more: no transaction moves from the request
      list to the reply list. */
  lemma {:induction false} ShutdownFreezesDelivery(s: State, h: History, acts: seq<Action>, extra: bool)
    requires s.shuttingDown && Legal(s, acts, extra) && SameSession(s, acts, extra)
    ensures After(s, acts, extra).shuttingDown
    ensures Chronicle(s, h, acts, extra).delivered == h.delivered
    ensures forall t | t in After(s, acts, extra).replies :: t in s.replies
    decreases |acts|
  {
    if acts != [] {
      ShutdownStep(s, h, acts[0], extra);
      ShutdownFreezesDelivery(Next(s, acts[0], extra), Record(s, h, acts[0]), acts[1..], extra);
    }
  }

  lemma StillAnswered(s: State, t: Tid, o: OpId, f: FileId, data: nat, extra: bool)
    requires t in s.trans && o !in s.ops && f in s.files && Find(s.replies, s.trans, s.trans[t].serial) == Found(t)
    ensures var acts := [DoWriteEnter(o, f, s.trans[t].serial), DoWriteExit(o, data)];
      && Legal(s, acts, extra)
      && var s' := After(s, acts, extra);
      && t in s'.trans && s'.trans[t].answered && s'.trans[t].result == Reply(data) && s'.shuttingDown == s.shuttingDown
  {
    var enter, exit := DoWriteEnter(o, f, s.trans[t].serial), DoWriteExit(o, data);
    ClaimThenComplete(s, t, o, f, data);
    RunOne(s, enter, extra);
    RunOne(Next(s, enter, extra), exit, extra);
    RunMore(s, [enter], [exit], extra);
    assert [enter] + [exit] == [enter, exit];
  }

  /** In every run within a session, whatever has been delivered and not answered can still be answered, shutdown or
      not: a server that sends its serial on an open file completes exactly it. */
  lemma DeliveredStillAnswered(acts: seq<Action>, t: Tid, o: OpId, f: FileId, data: nat, extra: bool)
    requires Legal(INIT, acts, extra)
    requires var s := After(INIT, acts, extra);
      t in s.replies && o !in s.ops && f in s.files && OneSession(s, Chronicle(INIT, NO_HISTORY, acts, extra))
    ensures var s := After(INIT, acts, extra);
      && t in s.trans
      && var reply := [DoWriteEnter(o, f, s.trans[t].serial), DoWriteExit(o, data)];
      && Legal(s, reply, extra)
      && var s' := After(s, reply, extra);
      && t in s'.trans && s'.trans[t].answered && s'.trans[t].result == Reply(data) && s'.shuttingDown == s.shuttingDown
  {
    RunInv(INIT, acts, extra);
    RunSerials(INIT, NO_HISTORY, acts, extra);
    FindsTheOne(After(INIT, acts, extra), Chronicle(INIT, NO_HISTORY, acts, extra), t);
    StillAnswered(After(INIT, acts, extra), t, o, f, data, extra);
  }

  /** The last close answers everything left with -EIO, in either list, and ends the shutdown. */
  lemma LastCloseAnswersTheRest(s: State, f: FileId, t: Tid)
    requires Inv(s) && Enabled(s, DoClose(f)) && LastClose(s, DoClose(f)) && (t in s.requests || t in s.replies)
    ensures var s' := Close(s, f);
      && s'.requests == [] && s'.replies == [] && !s'.shuttingDown
      && t in s'.trans && s'.trans[t].answered && s'.trans[t].result == Eio && Live(s'.trans[t].phase)
  {
  }
}
