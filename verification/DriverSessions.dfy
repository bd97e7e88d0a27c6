/** The abort handshake for a server described by the serials it sends, the run that shows the late claim is real, and
    the one that shows what serials of an earlier session do. */
module DriverSessions {
  import opened Lists
  import opened DriverModel
  import opened DriverInvariant
  import opened DriverHistory
  import opened DriverHandshake

  /** What keeps a completed read completed: queued transactions stay queued, only unqueued ones are enqueued, and a
      reader's window opens only on a pending request. */
  ghost predicate KeepsReads(s: State, s': State) {
    && (forall t | t in s.trans && Queued(s.trans[t]) :: t in s'.trans && Queued(s'.trans[t]))
    && (forall t | t in s'.requests && t !in s.requests :: t in s.trans && !Queued(s.trans[t]))
    && (forall o | o in s'.ops && s'.ops[o].pc.CopyOut? && !(o in s.ops && s.ops[o].pc == s'.ops[o].pc) ::
          s'.ops[o].pc.t in s.requests)
  }

  lemma ReadDoneFrame(s: State, h: History, s': State)
    requires ReadDoneInv(s, h) && KeepsReads(s, s')
    ensures ReadDoneInv(s', h)
  {
  }

  lemma CallerReads(s: State, a: Action, extra: bool)
    requires Enabled(s, a) && ByCaller(a)
    ensures KeepsReads(s, Next(s, a, extra))
  {
  }

  lemma PassReads(s: State, o: OpId, f: FileId, w: Wake, extra: bool)
    ensures KeepsReads(s, ReadPass(s, o, f, w, extra))
  {
  }

  lemma CloseReads(s: State, f: FileId)
    ensures KeepsReads(s, Close(s, f))
  {
  }

  lemma ServerReads(s: State, a: Action, extra: bool)
    requires Enabled(s, a) && !ByCaller(a)
    ensures KeepsReads(s, Next(s, a, extra))
  {
    match a
    case DoReadEnter(o, f, w) => PassReads(s, o, f, w, extra);
    case DoReadResume(o, w) => PassReads(s, o, s.ops[o].file, w, extra);
    case DoClose(f) => CloseReads(s, f);
    case _ =>
  }

  lemma NextReadDone(s: State, h: History, a: Action, extra: bool)
    requires Inv(s) && ReadDoneInv(s, h) && Enabled(s, a)
    ensures ReadDoneInv(Next(s, a, extra), Record(s, h, a))
  {
    if ByCaller(a) { CallerReads(s, a, extra); } else { ServerReads(s, a, extra); }
    var s' := Next(s, a, extra);
    ReadDoneFrame(s, h, s');
    if a.DoReadExit? {
      var t := s.ops[a.o].pc.t;
      assert t in s'.trans && Queued(s'.trans[t]) && t !in s'.requests;
      assert !ReaderWindow(s'.ops, t);
    }
  }

  /** A server that, at every write, sends a serial it has completely read in the current session, with only
      transactions of that session awaiting replies. */
  ghost predicate PatientRun(s: State, h: History, acts: seq<Action>, extra: bool)
    requires Legal(s, acts, extra)
    decreases |acts|
  {
    acts == [] ||
    (&& (acts[0].DoWriteEnter? ==> OneSession(s, h) && SeenSerial(s, h, acts[0].serial))
     && PatientRun(Next(s, acts[0], extra), Record(s, h, acts[0]), acts[1..], extra))
  }

  lemma {:induction false} PatientIsPolite(s: State, h: History, acts: seq<Action>, extra: bool)
    requires Inv(s) && SerialInv(s, h) && ReadDoneInv(s, h) && Legal(s, acts, extra) && PatientRun(s, h, acts, extra)
    ensures PoliteRun(s, acts, extra)
    decreases |acts|
  {
    if acts != [] {
      if acts[0].DoWriteEnter? {
        SeenSerialIsPolite(s, h, acts[0].o, acts[0].f, acts[0].serial);
      }
      NextInv(s, acts[0], extra);
      NextSerials(s, h, acts[0], extra);
      NextReadDone(s, h, acts[0], extra);
      PatientIsPolite(Next(s, acts[0], extra), Record(s, h, acts[0]), acts[1..], extra);
    }
  }

  /** The abort handshake stated on serials: with such a server, a window that outlasts its caller is a late claim. */
  lemma AbortHandshakeBySerial(acts: seq<Action>, extra: bool, o: OpId, t: Tid)
    requires Legal(INIT, acts, extra) && PatientRun(INIT, NO_HISTORY, acts, extra)
    requires var s := After(INIT, acts, extra);
      t in s.trans && s.trans[t].phase.Returned? && o in s.ops && Window(s.ops[o].pc, t)
    ensures LateClaim(Chronicle(INIT, NO_HISTORY, acts, extra), After(INIT, acts, extra).ops[o].pc, t)
  {
    PatientIsPolite(INIT, NO_HISTORY, acts, extra);
    AbortHandshake(acts, extra, o, t);
  }

  // ---------------------------------------------------------------- the late claim happens

  /** `acts` is a run of a patient server that leads to `s` and is remembered as `h`. */
  ghost predicate PatientlyReaches(acts: seq<Action>, s: State, h: History) {
    && Legal(INIT, acts, true) && PatientRun(INIT, NO_HISTORY, acts, true)
    && After(INIT, acts, true) == s && Chronicle(INIT, NO_HISTORY, acts, true) == h
  }

  lemma {:induction false} PatientMore(s: State, h: History, acts: seq<Action>, a: Action)
    requires Legal(s, acts, true) && PatientRun(s, h, acts, true)
    requires var s1, h1 := After(s, acts, true), Chronicle(s, h, acts, true);
      Enabled(s1, a) && (a.DoWriteEnter? ==> OneSession(s1, h1) && SeenSerial(s1, h1, a.serial))
    ensures Legal(s, acts + [a], true) && PatientRun(s, h, acts + [a], true)
    ensures After(s, acts + [a], true) == Next(After(s, acts, true), a, true)
    ensures Chronicle(s, h, acts + [a], true) == Record(After(s, acts, true), Chronicle(s, h, acts, true), a)
    decreases |acts|
  {
    if acts == [] {
      assert acts + [a] == [a];
      RunOne(s, a, true);
      assert [a][1..] == [];
    } else {
      assert (acts + [a])[0] == acts[0] && (acts + [a])[1..] == acts[1..] + [a];
      PatientMore(Next(s, acts[0], true), Record(s, h, acts[0]), acts[1..], a);
    }
  }

  lemma ExtendPatiently(acts: seq<Action>, s: State, h: History, a: Action, s': State) returns (acts': seq<Action>)
    requires PatientlyReaches(acts, s, h) && Enabled(s, a) && Next(s, a, true) == s'
    requires a.DoWriteEnter? ==> OneSession(s, h) && SeenSerial(s, h, a.serial)
    ensures PatientlyReaches(acts', s', Record(s, h, a))
  {
    acts' := acts + [a];
    PatientMore(INIT, NO_HISTORY, acts, a);
  }

  const WAITER := Trans(0, false, false, false, Unset, Waiting, true, false)

  /** A pending request whose caller has been killed. */
  const PENDING := State(map[0 := WAITER], [0], [], map[], {0}, 1, false, 1)

  const PENDING_HISTORY := NO_HISTORY.(birth := map[0 := Birth(0, 0)], allocs := 1, enqueued := [0])

  lemma ReachPending() returns (acts: seq<Action>)
    ensures PatientlyReaches(acts, PENDING, PENDING_HISTORY)
  {
    var s0, h0 := Open(INIT, 0), NO_HISTORY;
    acts := ExtendPatiently([], INIT, h0, DoOpen(0), s0);
    var s1, h1 := New(s0, 0), Record(s0, h0, DoNew(0));
    acts := ExtendPatiently(acts, s0, h0, DoNew(0), s1);
    var s2 := Kill(s1, 0);
    acts := ExtendPatiently(acts, s1, h1, DoKill(0), s2);
    assert Submit(s2, 0, Nobody) == PENDING && Record(s2, h1, DoSubmit(0, Nobody)) == PENDING_HISTORY;
    acts := ExtendPatiently(acts, s2, h1, DoSubmit(0, Nobody), PENDING);
  }

  /** The request is being copied out to a reader. */
  const READING := PENDING.(
    trans := map[0 := WAITER.(inUse := true)], requests := [], replies := [0],
    ops := map[1 := Op(0, CopyOut(0), false)])

  const READING_HISTORY := PENDING_HISTORY.(delivered := [0])

  lemma ReachReading() returns (acts: seq<Action>)
    ensures PatientlyReaches(acts, READING, READING_HISTORY)
  {
    acts := ReachPending();
    assert Deliver(PENDING, 1, 0, Nobody, true) == READING;
    acts := ExtendPatiently(acts, PENDING, PENDING_HISTORY, DoReadEnter(1, 0, Nobody), READING);
    assert Record(PENDING, PENDING_HISTORY, DoReadEnter(1, 0, Nobody)) == READING_HISTORY;
  }

  /** The caller has found the window and waits for it. */
  const ABORTING := READING.(trans := map[0 := READING.trans[0].(abort := true, phase := AbortWait)])

  const ABORTING_HISTORY := READING_HISTORY.(sawReader := {0})

  lemma ReachAborting() returns (acts: seq<Action>)
    ensures PatientlyReaches(acts, ABORTING, ABORTING_HISTORY)
  {
    acts := ReachReading();
    assert READING.ops[1].pc == CopyOut(0);
    assert Check(READING, 0) == ABORTING;
    acts := ExtendPatiently(acts, READING, READING_HISTORY, DoCheck(0), ABORTING);
    assert Record(READING, READING_HISTORY, DoCheck(0)) == ABORTING_HISTORY;
  }

  /** The window is closed and the caller is about to retake the lock. */
  const RETAKING := READING.(trans := map[0 := WAITER.(abort := true, phase := AbortRetake)], ops := map[])

  const RETAKING_HISTORY := ABORTING_HISTORY.(readDone := {0})

  lemma ReachRetaking() returns (acts: seq<Action>)
    ensures PatientlyReaches(acts, RETAKING, RETAKING_HISTORY)
  {
    acts := ReachAborting();
    var s := ReadExit(ABORTING, 1);
    acts := ExtendPatiently(acts, ABORTING, ABORTING_HISTORY, DoReadExit(1), s);
    assert Record(ABORTING, ABORTING_HISTORY, DoReadExit(1)) == RETAKING_HISTORY;
    assert AbortSeen(s, 0) == RETAKING;
    acts := ExtendPatiently(acts, s, RETAKING_HISTORY, DoAbortSeen(0), RETAKING);
  }

  const CLAIMED := RETAKING.(
    trans := map[0 := RETAKING.trans[0].(inUse := true)], replies := [], ops := map[2 := Op(0, CopyIn(0), false)])

  /** The caller finds the reader's window, waits for it, and a writer claims the transaction before the caller retakes
      the lock. */
  lemma ReachClaimed() returns (acts: seq<Action>)
    ensures PatientlyReaches(acts, CLAIMED, RETAKING_HISTORY.(lateClaim := {0}))
  {
    acts := ReachRetaking();
    assert Find(RETAKING.replies, RETAKING.trans, 0) == Found(0);
    acts := ExtendPatiently(acts, RETAKING, RETAKING_HISTORY, DoWriteEnter(2, 0, 0), CLAIMED) by {
      assert WriteEnter(RETAKING, 2, 0, 0).trans == CLAIMED.trans;
      assert Minus(RETAKING.replies, {0}) == [];
      assert 0 in RETAKING_HISTORY.readDone && RETAKING.trans[0].serial == 0;
    }
  }

  /** A run of a patient server in which uvfs_make_request returns with a writer's window open: the late claim. */
  lemma LateClaimHappens() returns (acts: seq<Action>, o: OpId)
    ensures Legal(INIT, acts, true) && PatientRun(INIT, NO_HISTORY, acts, true)
    ensures var s := After(INIT, acts, true);
      && 0 in s.trans && s.trans[0].phase.Returned?
      && o in s.ops && Window(s.ops[o].pc, 0)
      && LateClaim(Chronicle(INIT, NO_HISTORY, acts, true), s.ops[o].pc, 0)
  {
    acts := ReachClaimed();
    var s := Unlink(CLAIMED, 0);
    acts := ExtendPatiently(acts, CLAIMED, RETAKING_HISTORY.(lateClaim := {0}), DoAbortReturn(0), s);
    o := 2;
    assert s.ops[2].pc == CopyIn(0);
  }

  // ---------------------------------------------------------------- serials of an earlier session

  /** Transaction 0 was allocated and the last file closed. */
  const CLOSED := INIT.(trans := map[0 := Trans(0, false, false, false, Unset, Allocated, false, false)])

  /** A file has been opened again. */
  const REOPENED := CLOSED.(files := {0}, useCount := 1)

  const REOPENED_HISTORY := NO_HISTORY.(epoch := 1, birth := map[0 := Birth(0, 0)])

  lemma ReachReopened() returns (acts: seq<Action>)
    ensures PatientlyReaches(acts, REOPENED, REOPENED_HISTORY)
  {
    var s1, h1 := New(INIT, 0), Record(INIT, NO_HISTORY, DoNew(0));
    acts := ExtendPatiently([], INIT, NO_HISTORY, DoNew(0), s1);
    var s2 := Open(s1, 0);
    acts := ExtendPatiently(acts, s1, h1, DoOpen(0), s2);
    assert Close(s2, 0) == CLOSED && Record(s2, h1, DoClose(0)) == REOPENED_HISTORY;
    acts := ExtendPatiently(acts, s2, h1, DoClose(0), CLOSED);
    acts := ExtendPatiently(acts, CLOSED, REOPENED_HISTORY, DoOpen(0), REOPENED);
  }

  const QUEUED := Trans(0, false, false, false, Unset, Waiting, false, false)

  /** It is queued only now, and another request of the new session after it. Both carry serial 0. */
  const TWO_QUEUED := REOPENED.(trans := map[0 := QUEUED, 1 := QUEUED], requests := [0, 1], serial := 1)

  const TWO_QUEUED_HISTORY := REOPENED_HISTORY.(
    allocs := 1, birth := map[0 := Birth(0, 0), 1 := Birth(1, 0)], enqueued := [0, 1])

  lemma ReachTwoQueued() returns (acts: seq<Action>)
    ensures PatientlyReaches(acts, TWO_QUEUED, TWO_QUEUED_HISTORY)
  {
    acts := ReachReopened();
    var s1, h1 := Submit(REOPENED, 0, Nobody), Record(REOPENED, REOPENED_HISTORY, DoSubmit(0, Nobody));
    acts := ExtendPatiently(acts, REOPENED, REOPENED_HISTORY, DoSubmit(0, Nobody), s1);
    var s2, h2 := New(s1, 1), Record(s1, h1, DoNew(1));
    acts := ExtendPatiently(acts, s1, h1, DoNew(1), s2);
    assert Submit(s2, 1, Nobody) == TWO_QUEUED && Record(s2, h2, DoSubmit(1, Nobody)) == TWO_QUEUED_HISTORY;
    acts := ExtendPatiently(acts, s2, h2, DoSubmit(1, Nobody), TWO_QUEUED);
  }

  const TWO_READ := TWO_QUEUED.(requests := [], replies := [0, 1])

  const TWO_READ_HISTORY := TWO_QUEUED_HISTORY.(delivered := [0, 1], readDone := {0, 1})

  /** One request delivered and its read returned. */
  lemma ReadOne(acts: seq<Action>, s: State, h: History, s': State, h': History) returns (acts': seq<Action>)
    requires PatientlyReaches(acts, s, h) && !s.shuttingDown && s.requests != [] && s.ops == map[] && 0 in s.files
    requires s.requests[0] in s.trans && !s.trans[s.requests[0]].inUse && !s.trans[s.requests[0]].asleep
    requires s' == s.(requests := s.requests[1..], replies := s.replies + [s.requests[0]])
    requires h' == h.(delivered := h.delivered + [s.requests[0]], readDone := h.readDone + {s.requests[0]})
    ensures PatientlyReaches(acts', s', h')
  {
    var enter, exit := DoReadEnter(1, 0, Nobody), DoReadExit(1);
    var s1, h1 := Deliver(s, 1, 0, Nobody, true), Record(s, h, enter);
    acts' := ExtendPatiently(acts, s, h, enter, s1);
    assert s1.ops == map[1 := Op(0, CopyOut(s.requests[0]), false)];
    assert ReadExit(s1, 1).trans == s.trans && ReadExit(s1, 1).ops == map[];
    acts' := ExtendPatiently(acts', s1, h1, exit, s');
  }

  lemma ReachTwoRead() returns (acts: seq<Action>)
    ensures PatientlyReaches(acts, TWO_READ, TWO_READ_HISTORY)
  {
    acts := ReachTwoQueued();
    var s1 := TWO_QUEUED.(requests := [1], replies := [0]);
    var h1 := TWO_QUEUED_HISTORY.(delivered := [0], readDone := {0});
    acts := ReadOne(acts, TWO_QUEUED, TWO_QUEUED_HISTORY, s1, h1);
    acts := ReadOne(acts, s1, h1, TWO_READ, TWO_READ_HISTORY);
  }

  /** The server has completely read request 1 of this session, and its reply to it is taken for request 0. */
  ghost predicate GoesAstray(s: State, h: History) {
    && s.replies == [0, 1] && 1 in s.trans && 1 in h.birth && h.birth[1].epoch == h.epoch
    && SeenSerial(s, h, s.trans[1].serial) && !OneSession(s, h)
    && Enabled(s, DoWriteEnter(1, 0, s.trans[1].serial))
    && var s' := WriteEnter(s, 1, 0, s.trans[1].serial);
    && s'.replies == [1] && 1 in s'.ops && s'.ops[1].pc == CopyIn(0)
  }

  lemma TwoReadAstray()
    ensures GoesAstray(TWO_READ, TWO_READ_HISTORY)
  {
    assert 1 in TWO_READ_HISTORY.readDone && TWO_READ_HISTORY.birth[1].epoch == 1;
    assert 0 in TWO_READ.replies && TWO_READ_HISTORY.birth[0].epoch == 0;
    assert Find(TWO_READ.replies, TWO_READ.trans, 0) == Found(0);
    assert Minus([0, 1], {0}) == [1];
  }

  /** Without the restriction to one session a reply can go astray: to a request allocated before the last close and
      queued after it. */
  lemma OlderSessionTakesReply() returns (acts: seq<Action>)
    ensures Legal(INIT, acts, true) && PatientRun(INIT, NO_HISTORY, acts, true)
    ensures GoesAstray(After(INIT, acts, true), Chronicle(INIT, NO_HISTORY, acts, true))
  {
    acts := ReachTwoRead();
    TwoReadAstray();
  }
}
