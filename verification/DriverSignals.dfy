/** Wake-ups of server threads that take signals: which steps lose one, what mends it, and why the wake-up of line 199
    is then needed. */
module DriverSignals {
  import opened Lists
  import opened DriverModel
  import opened DriverInvariant
  import opened DriverWakeups

  /** No reader but `o` is on its way. */
  ghost predicate Alone(ops: map<OpId, Op>, o: OpId) {
    forall p | p in ops && p != o :: !Coming(ops[p])
  }

  /** No reader but `o` sleeps. */
  predicate NoOtherSleeper(ops: map<OpId, Op>, o: OpId) {
    forall p | p in ops && p != o :: ops[p].pc != Asleep
  }

  /** A signal reaches a woken reader before it has looked: it will leave through lines 184-189. */
  predicate SignalToWoken(s: State, a: Action) {
    a.DoSignal? && a.o in s.ops && s.ops[a.o].pc == Awake && !s.ops[a.o].signalled
  }

  /** The steps that lose a wake-up, by what there is before them: the only reader on its way takes a signal while there
      is work and a sleeper; or, without line 199, it takes one of several requests. */
  ghost predicate Loses(s: State, a: Action, extra: bool) {
    || (SignalToWoken(s, a) && (s.requests != [] || s.shuttingDown) && SomeAsleep(s.ops) && Alone(s.ops, a.o))
    || (!extra && Delivers(s, a) && |s.requests| > 1 && SomeAsleep(s.ops) && Alone(s.ops, a.o))
  }

  /** The steps that mend a lost wake-up: an enqueue, a shutdown request, a delivery (of the only request, if line 199
      is missing), a reader that enters during a shutdown; and those after which nobody is left to be woken: a signal
      to the only sleeper and an abort of the only request. */
  predicate Repairs(s: State, a: Action, extra: bool)
    requires Enabled(s, a)
  {
    match a
    case DoSubmit(_, _) => s.useCount != 0
    case DoShutdown(_, _) => true
    case DoReadEnter(_, _, _) => s.shuttingDown || extra || |s.requests| == 1
    case DoSignal(o) => NoOtherSleeper(s.ops, o)
    case DoCheck(t) => UnlinksNow(s, a) && s.requests == [t] && !s.shuttingDown
    case DoAbortReturn(t) => s.requests == [t] && !s.shuttingDown
    case _ => false
  }

  // ---------------------------------------------------------------- no signal pending for a sleeper

  lemma NextClean(s: State, a: Action, extra: bool)
    requires SleepersClean(s.ops) && Enabled(s, a)
    ensures SleepersClean(Next(s, a, extra).ops)
  {
    match a
    case DoReadEnter(o, f, w) => PassClean(s, o, f, w, extra);
    case DoReadResume(o, w) => PassClean(s, o, s.ops[o].file, w, extra);
    case _ =>
  }

  lemma PassClean(s: State, o: OpId, f: FileId, w: Wake, extra: bool)
    requires SleepersClean(s.ops)
    ensures SleepersClean(ReadPass(s, o, f, w, extra).ops)
  {
  }

  // ---------------------------------------------------------------- one step

  lemma UnlinkServed(s: State, t: Tid)
    requires NoDup(s.requests) && t in s.trans
    ensures Served(Unlink(s, t)) <==> Served(s) || (s.requests == [t] && !s.shuttingDown)
  {
    var q := s.requests;
    if q != [] && q != [t] {
      var x := if q[0] != t then q[0] else q[1];
      assert x in q && x != t;
      assert x in Minus(q, {t});
    }
  }

  lemma CallerServed(s: State, a: Action, extra: bool)
    requires Inv(s) && Enabled(s, a) && ByCaller(a) && !a.DoSubmit?
    ensures Served(Next(s, a, extra)) <==> Served(s) || Repairs(s, a, extra)
  {
    if a.DoAbortReturn? || (a.DoCheck? && UnlinksNow(s, a)) {
      UnlinkServed(s, a.t);
    }
  }

  /** Whoever sleeps after a wake-up sleeps beside the one it reached. */
  lemma WokenComing(ops: map<OpId, Op>, w: Wake, o: OpId)
    requires ValidWake(ops, w) && SleepersClean(ops) && (o in ops ==> ops[o].pc != Asleep)
    ensures var ops' := Woken(ops, w);
      SomeAsleep(ops') ==> w.Wakes? && w.op != o && w.op in ops' && Coming(ops'[w.op])
  {
  }

  lemma WakerServed(s: State, a: Action, extra: bool)
    requires Inv(s) && SleepersClean(s.ops) && Enabled(s, a) && (a.DoSubmit? || a.DoShutdown?)
    ensures Served(Next(s, a, extra))
  {
    if a.DoSubmit? && s.useCount == 0 {
      assert s.files == {};
    } else if a.w.Wakes? {
      assert Coming(Woken(s.ops, a.w)[a.w.op]);
    }
  }

  lemma ShutdownExitServed(s: State, o: OpId, w: Wake)
    requires o in s.ops && s.ops[o].pc == InShutdown && ValidWake(s.ops, w) && SleepersClean(s.ops)
    ensures Served(s) && Served(ShutdownExit(s, o, w))
  {
    var s' := ShutdownExit(s, o, w);
    if SomeAsleep(s'.ops) {
      var p :| p in s'.ops && s'.ops[p].pc == Asleep;
      assert Woken(s.ops, w)[p].pc == Asleep;
      WokenComing(s.ops, w, o);
      assert Coming(s'.ops[w.op]);
    }
  }

  /** A reader that leaves on a signal was not on its way any more. */
  lemma SignalledExitServed(s: State, o: OpId, w: Wake, extra: bool)
    requires o in s.ops && s.ops[o].pc == Awake && s.ops[o].signalled
    ensures Served(ReadResume(s, o, w, extra)) <==> Served(s)
  {
    var ops' := s.ops - {o};
    assert forall p | p in s.ops && p != o :: p in ops' && ops'[p] == s.ops[p];
    if p :| p in s.ops && s.ops[p].pc == Asleep {
      assert p in ops' && ops'[p].pc == Asleep;
    }
    if p :| p in s.ops && Coming(s.ops[p]) {
      assert p in ops' && Coming(ops'[p]);
    }
  }

  lemma SignalServed(s: State, o: OpId)
    requires SleepersClean(s.ops) && Enabled(s, DoSignal(o))
    ensures Served(Signal(s, o)) <==>
      !Loses(s, DoSignal(o), true) && (Served(s) || NoOtherSleeper(s.ops, o))
  {
    var ops' := Signal(s, o).ops;
    assert forall p | p in s.ops && p != o :: p in ops' && ops'[p] == s.ops[p];
    if p :| p in s.ops && p != o && s.ops[p].pc == Asleep {
      assert p in ops' && ops'[p].pc == Asleep;
    }
    if p :| p in s.ops && p != o && Coming(s.ops[p]) {
      assert p in ops' && Coming(ops'[p]);
    }
  }

  /** A delivery: with line 199 somebody is on the way to whatever is left; without it only if somebody was before. */
  lemma DeliverServed(s: State, o: OpId, f: FileId, w: Wake, extra: bool)
    requires s.requests != [] && !s.shuttingDown && ValidWake(s.ops, w) && SleepersClean(s.ops)
    requires o in s.ops ==> s.ops[o].pc == Awake
    ensures Served(Deliver(s, o, f, w, extra)) <==> extra || |s.requests| == 1 || !SomeAsleep(s.ops) || !Alone(s.ops, o)
  {
    var ops := if extra then Woken(s.ops, w) else s.ops;
    var s' := Deliver(s, o, f, w, extra);
    assert forall p | p in ops && p != o :: p in s'.ops && s'.ops[p] == ops[p];
    if extra {
      WokenComing(s.ops, w, o);
      if SomeAsleep(s'.ops) {
        var p :| p in s'.ops && s'.ops[p].pc == Asleep;
        assert ops[p].pc == Asleep;
        assert Coming(s'.ops[w.op]);
      }
    } else {
      assert SomeAsleep(s'.ops) <==> SomeAsleep(s.ops) by {
        if p :| p in s.ops && s.ops[p].pc == Asleep {
          assert p in s'.ops && s'.ops[p].pc == Asleep;
        }
      }
    }
  }

  lemma PassServed(s: State, a: Action, o: OpId, f: FileId, extra: bool)
    requires (a.DoReadEnter? || a.DoReadResume?) && a.o == o && ValidWake(s.ops, a.w) && SleepersClean(s.ops)
    requires if a.DoReadEnter? then o !in s.ops else o in s.ops && s.ops[o].pc == Awake && !s.ops[o].signalled
    ensures a.DoReadResume? ==> Served(s)
    ensures Served(ReadPass(s, o, f, a.w, extra)) <==>
      !Loses(s, a, extra) && (Served(s) || (a.DoReadEnter? && (s.shuttingDown || extra || |s.requests| == 1)))
  {
    var s' := ReadPass(s, o, f, a.w, extra);
    if s.shuttingDown {
      assert Coming(s'.ops[o]);
    } else if s.requests != [] {
      DeliverServed(s, o, f, a.w, extra);
    }
  }

  lemma CopierServed(s: State, a: Action, extra: bool)
    requires Enabled(s, a) && (a.DoReadExit? || a.DoWriteEnter? || a.DoWriteExit?)
    ensures Served(Next(s, a, extra)) <==> Served(s)
  {
    SameQueue(s.ops, Next(s, a, extra).ops);
  }

  lemma SubmitServed(s: State, a: Action, extra: bool)
    requires Inv(s) && SleepersClean(s.ops) && Enabled(s, a) && a.DoSubmit?
    ensures Served(Next(s, a, extra)) && (Served(s) || s.useCount != 0)
  {
    WakerServed(s, a, extra);
    if s.useCount == 0 {
      assert s.files == {};
    }
  }

  lemma ReaderServed(s: State, a: Action, extra: bool)
    requires SleepersClean(s.ops) && Enabled(s, a)
    requires (a.DoReadEnter? || a.DoReadResume? || a.DoSignal? || a.DoShutdownExit?)
    ensures Served(Next(s, a, extra)) <==> !Loses(s, a, extra) && (Served(s) || Repairs(s, a, extra))
  {
    match a
    case DoReadEnter(o, f, _) => PassServed(s, a, o, f, extra);
    case DoReadResume(o, w) =>
      if s.ops[o].signalled {
        SignalledExitServed(s, o, w, extra);
      } else {
        PassServed(s, a, o, s.ops[o].file, extra);
      }
    case DoSignal(o) => SignalServed(s, o);
    case DoShutdownExit(o, w) => ShutdownExitServed(s, o, w);
  }

  lemma CloseServed(s: State, f: FileId)
    requires Inv(s) && Enabled(s, DoClose(f))
    ensures Served(Close(s, f)) <==> Served(s)
  {
    if s.useCount == 1 {
      CloseInv(s, f);
      assert s.ops == map[];
    }
  }

  /** Exactly which steps leave work without anybody on the way to it, with signals and with or without line 199: those
      that lose a wake-up, and those that find one lost and do not mend it. */
  lemma StepServedExactly(s: State, a: Action, extra: bool)
    requires Inv(s) && SleepersClean(s.ops) && Enabled(s, a)
    ensures Served(Next(s, a, extra)) <==> !Loses(s, a, extra) && (Served(s) || Repairs(s, a, extra))
  {
    if a.DoReadEnter? || a.DoReadResume? || a.DoSignal? || a.DoShutdownExit? {
      ReaderServed(s, a, extra);
    } else {
      assert !Loses(s, a, extra);
      if a.DoSubmit? {
        SubmitServed(s, a, extra);
      } else if a.DoShutdown? {
        WakerServed(s, a, extra);
      } else if a.DoClose? {
        CloseServed(s, a.f);
      } else if a.DoReadExit? || a.DoWriteEnter? || a.DoWriteExit? {
        CopierServed(s, a, extra);
      } else if !a.DoOpen? {
        CallerServed(s, a, extra);
      }
    }
  }

  // ---------------------------------------------------------------- runs

  /** The state in which step `k` of a run is taken. */
  function StateAt(s: State, acts: seq<Action>, extra: bool, k: nat): (r: State)
    requires Legal(s, acts, extra) && k <= |acts|
    ensures k < |acts| ==> Enabled(r, acts[k])
    decreases k
  {
    if k == 0 then s else StateAt(Next(s, acts[0], extra), acts[1..], extra, k - 1)
  }

  /** From step `k` on nothing mends a lost wake-up. */
  ghost predicate NoRepair(s: State, acts: seq<Action>, extra: bool, k: nat)
    requires Legal(s, acts, extra)
  {
    forall m: nat | k <= m < |acts| :: !Repairs(StateAt(s, acts, extra, m), acts[m], extra)
  }

  /** Step `k` loses a wake-up that nothing mends. */
  ghost predicate LostAt(s: State, acts: seq<Action>, extra: bool, k: nat)
    requires Legal(s, acts, extra)
  {
    k < |acts| && Loses(StateAt(s, acts, extra, k), acts[k], extra) && NoRepair(s, acts, extra, k + 1)
  }

  lemma ShiftRepair(s: State, acts: seq<Action>, extra: bool, k: nat)
    requires Legal(s, acts, extra) && acts != []
    ensures NoRepair(s, acts, extra, k + 1) <==> NoRepair(Next(s, acts[0], extra), acts[1..], extra, k)
  {
    var s1, rest := Next(s, acts[0], extra), acts[1..];
    assert forall m: nat | m < |rest| ::
      StateAt(s, acts, extra, m + 1) == StateAt(s1, rest, extra, m) && acts[m + 1] == rest[m];
    if NoRepair(s1, rest, extra, k) {
      forall m: nat | k + 1 <= m < |acts| ensures !Repairs(StateAt(s, acts, extra, m), acts[m], extra) {
        assert !Repairs(StateAt(s1, rest, extra, m - 1), rest[m - 1], extra);
      }
    }
    if NoRepair(s, acts, extra, k + 1) {
      forall m: nat | k <= m < |rest| ensures !Repairs(StateAt(s1, rest, extra, m), rest[m], extra) {
        assert !Repairs(StateAt(s, acts, extra, m + 1), acts[m + 1], extra);
      }
    }
  }

  lemma ShiftLost(s: State, acts: seq<Action>, extra: bool, k: nat)
    requires Legal(s, acts, extra) && acts != []
    ensures LostAt(s, acts, extra, k + 1) <==> LostAt(Next(s, acts[0], extra), acts[1..], extra, k)
  {
    ShiftRepair(s, acts, extra, k + 1);
  }

  lemma {:induction false} RunServed(s: State, acts: seq<Action>, extra: bool)
    requires Inv(s) && SleepersClean(s.ops) && Legal(s, acts, extra)
    ensures !Served(After(s, acts, extra)) <==>
      (exists k: nat :: LostAt(s, acts, extra, k)) || (!Served(s) && NoRepair(s, acts, extra, 0))
    decreases |acts|
  {
    if acts != [] {
      var s1, rest := Next(s, acts[0], extra), acts[1..];
      NextInv(s, acts[0], extra);
      NextClean(s, acts[0], extra);
      StepServedExactly(s, acts[0], extra);
      RunServed(s1, rest, extra);
      HeadAndTail(s, acts, extra);
    }
  }

  /** What the first step adds to the losses of the rest. */
  lemma HeadAndTail(s: State, acts: seq<Action>, extra: bool)
    requires Legal(s, acts, extra) && acts != []
    ensures var s1, rest := Next(s, acts[0], extra), acts[1..];
      && ((exists k: nat :: LostAt(s, acts, extra, k)) <==>
            (exists k: nat :: LostAt(s1, rest, extra, k)) || (Loses(s, acts[0], extra) && NoRepair(s1, rest, extra, 0)))
      && (NoRepair(s, acts, extra, 0) <==> !Repairs(s, acts[0], extra) && NoRepair(s1, rest, extra, 0))
  {
    var s1, rest := Next(s, acts[0], extra), acts[1..];
    ShiftRepair(s, acts, extra, 0);
    assert StateAt(s, acts, extra, 0) == s;
    assert LostAt(s, acts, extra, 0) <==> Loses(s, acts[0], extra) && NoRepair(s1, rest, extra, 0);
    if k: nat :| LostAt(s, acts, extra, k) {
      if k > 0 {
        ShiftLost(s, acts, extra, k - 1);
      }
    }
    if k: nat :| LostAt(s1, rest, extra, k) {
      ShiftLost(s, acts, extra, k);
    }
  }

  /** In every run, with any signals and with or without line 199, work is left with nobody on the way to it if and
      only if some step lost a wake-up and no later step mended it. With line 199 only a signal to a woken reader
      loses one. */
  lemma WakeupLostExactly(acts: seq<Action>, extra: bool)
    requires Legal(INIT, acts, extra)
    ensures !Served(After(INIT, acts, extra)) <==> exists k: nat :: LostAt(INIT, acts, extra, k)
    ensures extra ==>
      forall k: nat | LostAt(INIT, acts, extra, k) :: SignalToWoken(StateAt(INIT, acts, extra, k), acts[k])
  {
    RunServed(INIT, acts, extra);
  }

  // ---------------------------------------------------------------- examples

  const SLEEPER := Op(0, Asleep, false)
  const ASLEEP := INIT.(files := {0}, useCount := 1, ops := map[1 := SLEEPER, 2 := SLEEPER, 3 := SLEEPER])

  /** `acts` leads from the start to `s`, with line 199 and without it. */
  ghost predicate ReachesBoth(acts: seq<Action>, s: State) {
    forall extra :: Legal(INIT, acts, extra) && After(INIT, acts, extra) == s
  }

  lemma ExtendBoth(acts: seq<Action>, s: State, a: Action, s': State) returns (acts': seq<Action>)
    requires ReachesBoth(acts, s) && Enabled(s, a) && Next(s, a, true) == s' == Next(s, a, false)
    ensures acts' == acts + [a] && ReachesBoth(acts', s')
  {
    acts' := acts + [a];
    forall extra ensures Legal(INIT, acts', extra) && After(INIT, acts', extra) == s' {
      RunOne(s, a, extra);
      RunMore(INIT, acts, [a], extra);
    }
  }

  lemma ThreeFallAsleep() returns (acts: seq<Action>)
    ensures ReachesBoth(acts, ASLEEP)
  {
    var s0 := Open(INIT, 0);
    var s1 := s0.(ops := map[1 := SLEEPER]);
    var s2 := s0.(ops := map[1 := SLEEPER, 2 := SLEEPER]);
    acts := ExtendBoth([], INIT, DoOpen(0), s0);
    acts := ExtendBoth(acts, s0, DoReadEnter(1, 0, Nobody), s1);
    assert s0.files == {0};
    assert s1.ops[2 := SLEEPER] == s2.ops;
    acts := ExtendBoth(acts, s1, DoReadEnter(2, 0, Wakes(1)), s2);
    assert s2.ops[3 := SLEEPER] == ASLEEP.ops;
    acts := ExtendBoth(acts, s2, DoReadEnter(3, 0, Wakes(1)), ASLEEP);
  }

  /** A request is pending, reader 1 was woken for it and then took a signal; 2 and 3 sleep. */
  const INTERRUPTED := ASLEEP.(
    trans := map[0 := Trans(0, false, false, false, Unset, Waiting, false, false)], requests := [0], serial := 1,
    ops := map[1 := Op(0, Awake, true), 2 := SLEEPER, 3 := SLEEPER])

  lemma ReachInterrupted() returns (acts: seq<Action>)
    ensures ReachesBoth(acts, INTERRUPTED)
  {
    acts := ThreeFallAsleep();
    var s1 := New(ASLEEP, 0);
    acts := ExtendBoth(acts, ASLEEP, DoNew(0), s1);
    var s2 := Submit(s1, 0, Wakes(1));
    acts := ExtendBoth(acts, s1, DoSubmit(0, Wakes(1)), s2);
    assert Signal(s2, 1) == INTERRUPTED;
    acts := ExtendBoth(acts, s2, DoSignal(1), INTERRUPTED);
  }

  /** A run that loses a wake-up although line 199 is there: the request stays pending with readers asleep and nobody on
      the way, from the signal on and still after the signalled reader has left; another signal changes nothing as long
      as somebody sleeps. */
  lemma SignalLosesWakeup() returns (lost: seq<Action>, left: seq<Action>, again: seq<Action>)
    ensures Legal(INIT, lost, true) && !Served(After(INIT, lost, true))
    ensures left == lost + [DoReadResume(1, Wakes(2))] && Legal(INIT, left, true) && !Served(After(INIT, left, true))
    ensures again == left + [DoSignal(2)] && Legal(INIT, again, true) && !Served(After(INIT, again, true))
  {
    lost := ReachInterrupted();
    assert INTERRUPTED.ops[3].pc == Asleep;
    assert After(INIT, lost, true) == INTERRUPTED;
    var s1 := INTERRUPTED.(ops := INTERRUPTED.ops - {1});
    left := ExtendBoth(lost, INTERRUPTED, DoReadResume(1, Wakes(2)), s1);
    assert s1.ops[3].pc == Asleep;
    assert After(INIT, left, true) == s1;
    var s2 := Signal(s1, 2);
    again := ExtendBoth(left, s1, DoSignal(2), s2);
    assert s2.ops[3].pc == Asleep;
    assert After(INIT, again, true) == s2;
  }

  /** Two requests are pending and one reader is on its way to them, because the other one woken left on a signal. */
  const SHORT := INTERRUPTED.(
    trans := INTERRUPTED.trans[1 := Trans(1, false, false, false, Unset, Waiting, false, false)],
    requests := [0, 1], serial := 2,
    ops := map[2 := Op(0, Awake, false), 3 := SLEEPER])

  lemma ReachShort() returns (acts: seq<Action>)
    ensures ReachesBoth(acts, SHORT)
  {
    acts := ReachInterrupted();
    var s1 := New(INTERRUPTED, 1);
    acts := ExtendBoth(acts, INTERRUPTED, DoNew(1), s1);
    var s2 := Submit(s1, 1, Wakes(2));
    acts := ExtendBoth(acts, s1, DoSubmit(1, Wakes(2)), s2);
    assert s2.ops - {1} == SHORT.ops;
    assert s2.(ops := s2.ops - {1}) == SHORT;
    acts := ExtendBoth(acts, s2, DoReadResume(1, Wakes(3)), SHORT);
  }

  /** After signals the wake-up of line 199 is not redundant: one run, in which nothing is lost so far, and one ordinary
      delivery after it that loses the wake-up without line 199 and not with it. */
  lemma ExtraWakeupNeeded() returns (acts: seq<Action>, a: Action)
    ensures Legal(INIT, acts, true) && Legal(INIT, acts, false) && After(INIT, acts, true) == After(INIT, acts, false)
    ensures var s := After(INIT, acts, true);
      Served(s) && Enabled(s, a) && Delivers(s, a) && Served(Next(s, a, true)) && !Served(Next(s, a, false))
  {
    acts := ReachShort();
    a := DoReadResume(2, Wakes(3));
    assert After(INIT, acts, true) == SHORT == After(INIT, acts, false);
    assert SHORT.ops[2].pc == Awake && SHORT.ops[3].pc == Asleep;
    DeliverServed(SHORT, 2, 0, Wakes(3), true);
    DeliverServed(SHORT, 2, 0, Wakes(3), false);
  }
}
