/** What whole runs of the driver promise about serials and order: distinct serials, exact reply matching, and first-in
    first-out delivery at most once. */
module DriverHistory {
  import opened Lists
  import opened DriverModel
  import opened DriverInvariant

  // ---------------------------------------------------------------- serials

  /** The serial of the n-th allocation of a session: Serial_number after n increments from 0. */
  function SerialOf(n: nat): int {
    if n == 0 then 0 else NextSerial(SerialOf(n - 1))
  }

  /** Incrementing n times is reducing n to a 32-bit signed integer. */
  lemma {:induction false} SerialOfWraps(n: nat)
    ensures SerialOf(n) == (n + 0x8000_0000) % INT_SPAN - 0x8000_0000
  {
    if n != 0 {
      SerialOfWraps(n - 1);
    }
  }

  /** Two allocations of one session share a serial exactly when a multiple of 2^32 allocations lies between them. */
  lemma SharedSerialExactly(m: nat, n: nat)
    ensures SerialOf(m) == SerialOf(n) <==> (m - n) % INT_SPAN == 0
  {
    var x, y := SerialOf(m), SerialOf(n);
    var a, b := m + 0x8000_0000, n + 0x8000_0000;
    assert x == a % INT_SPAN - 0x8000_0000 by { SerialOfWraps(m); }
    assert y == b % INT_SPAN - 0x8000_0000 by { SerialOfWraps(n); }
    SameRemainder(a, b);
    assert a - b == m - n;
  }

  lemma SameRemainder(a: nat, b: nat)
    ensures a % INT_SPAN == b % INT_SPAN <==> (a - b) % INT_SPAN == 0
  {
    var q := a / INT_SPAN - b / INT_SPAN;
    assert a - b == INT_SPAN * q + (a % INT_SPAN - b % INT_SPAN);
  }

  ghost predicate SerialInv(s: State, h: History) {
    && s.serial == SerialOf(h.allocs)
    && BirthsOk(s.trans, h)
  }

  ghost predicate BirthsOk(trans: map<Tid, Trans>, h: History) {
    && h.birth.Keys == trans.Keys
    && (forall t | t in trans :: trans[t].serial == SerialOf(h.birth[t].order) && h.birth[t].epoch <= h.epoch)
    && (forall t | t in trans && h.birth[t].epoch == h.epoch :: h.birth[t].order < h.allocs)
    && (forall t, u | t in trans && u in trans && t != u :: h.birth[t] != h.birth[u])
  }

  ghost predicate SameSerials(trans: map<Tid, Trans>, trans': map<Tid, Trans>) {
    trans'.Keys == trans.Keys && forall t | t in trans :: trans'[t].serial == trans[t].serial
  }

  lemma NewSerials(s: State, h: History, t: Tid)
    requires SerialInv(s, h) && t !in s.trans
    ensures SerialInv(New(s, t), Record(s, h, DoNew(t)))
  {
  }

  lemma SubmitSerials(s: State, t: Tid, w: Wake)
    requires t in s.trans
    ensures SameSerials(s.trans, Submit(s, t, w).trans) && Submit(s, t, w).serial == s.serial
  {
  }

  lemma CheckSerials(s: State, t: Tid)
    requires t in s.trans
    ensures SameSerials(s.trans, Check(s, t).trans) && Check(s, t).serial == s.serial
    ensures SameSerials(s.trans, Unlink(s, t).trans) && Unlink(s, t).serial == s.serial
  {
  }

  lemma PassSerials(s: State, o: OpId, f: FileId, w: Wake, extra: bool)
    ensures SameSerials(s.trans, ReadPass(s, o, f, w, extra).trans) && ReadPass(s, o, f, w, extra).serial == s.serial
  {
  }

  /** What a step other than an allocation and a last close leaves alone. */
  ghost predicate KeepsSerials(s: State, h: History, s': State, h': History) {
    && SameSerials(s.trans, s'.trans) && s'.serial == s.serial
    && h'.birth == h.birth && h'.epoch == h.epoch && h'.allocs == h.allocs
  }

  lemma SerialsFrame(s: State, h: History, s': State, h': History)
    requires SerialInv(s, h) && KeepsSerials(s, h, s', h')
    ensures SerialInv(s', h')
  {
  }

  lemma CallerSerials(s: State, h: History, a: Action, extra: bool)
    requires Enabled(s, a) && ByCaller(a) && !a.DoNew?
    ensures KeepsSerials(s, h, Next(s, a, extra), Record(s, h, a))
  {
    match a
    case DoSubmit(t, w) => SubmitSerials(s, t, w);
    case DoSleep(t) =>
    case DoKill(t) =>
    case DoCheck(t) => CheckSerials(s, t);
    case DoAbortSeen(t) =>
    case DoAbortReturn(t) => CheckSerials(s, t);
  }

  lemma CloseSerials(s: State, h: History, f: FileId)
    requires SerialInv(s, h) && Enabled(s, DoClose(f))
    ensures SerialInv(Close(s, f), Record(s, h, DoClose(f)))
  {
    assert SameSerials(s.trans, Close(s, f).trans);
  }

  lemma ReaderSerials(s: State, h: History, a: Action, extra: bool)
    requires Enabled(s, a) && !ByCaller(a) && !ByCopier(a) && !a.DoClose?
    ensures KeepsSerials(s, h, Next(s, a, extra), Record(s, h, a))
  {
    match a
    case DoReadEnter(o, f, w) => PassSerials(s, o, f, w, extra);
    case DoReadResume(o, w) => PassSerials(s, o, s.ops[o].file, w, extra);
    case _ =>
  }

  lemma CopierSerials(s: State, h: History, a: Action, extra: bool)
    requires Enabled(s, a) && ByCopier(a)
    ensures KeepsSerials(s, h, Next(s, a, extra), Record(s, h, a))
  {
  }

  lemma NextSerials(s: State, h: History, a: Action, extra: bool)
    requires SerialInv(s, h) && Enabled(s, a)
    ensures SerialInv(Next(s, a, extra), Record(s, h, a))
  {
    if a.DoNew? {
      NewSerials(s, h, a.t);
    } else if a.DoClose? {
      CloseSerials(s, h, a.f);
    } else {
      if ByCaller(a) {
        CallerSerials(s, h, a, extra);
      } else if ByCopier(a) {
        CopierSerials(s, h, a, extra);
      } else {
        ReaderSerials(s, h, a, extra);
      }
      SerialsFrame(s, h, Next(s, a, extra), Record(s, h, a));
    }
  }

  lemma {:induction false} RunSerials(s: State, h: History, acts: seq<Action>, extra: bool)
    requires SerialInv(s, h) && Legal(s, acts, extra)
    ensures SerialInv(After(s, acts, extra), Chronicle(s, h, acts, extra))
    decreases |acts|
  {
    if acts != [] {
      NextSerials(s, h, acts[0], extra);
      RunSerials(Next(s, acts[0], extra), Record(s, h, acts[0]), acts[1..], extra);
    }
  }

  /** In every run, two transactions allocated since the same last close, with at most 2^32 allocations in that
      time, carry different serials. */
  lemma SessionSerialsDistinct(acts: seq<Action>, extra: bool, t: Tid, u: Tid)
    requires Legal(INIT, acts, extra)
    requires var s, h := After(INIT, acts, extra), Chronicle(INIT, NO_HISTORY, acts, extra);
      t != u && t in s.trans && u in s.trans && t in h.birth && u in h.birth
      && h.birth[t].epoch == h.birth[u].epoch == h.epoch && h.allocs <= INT_SPAN
    ensures After(INIT, acts, extra).trans[t].serial != After(INIT, acts, extra).trans[u].serial
  {
    RunSerials(INIT, NO_HISTORY, acts, extra);
    var h := Chronicle(INIT, NO_HISTORY, acts, extra);
    SharedSerialExactly(h.birth[t].order, h.birth[u].order);
  }

  /** The exact statement over all sessions: in every run two transactions carry the same serial if and only if their
      places in the order of allocation, each counted from the last close before it, differ by a multiple of 2^32. */
  lemma EqualSerialsExactly(acts: seq<Action>, extra: bool, t: Tid, u: Tid)
    requires Legal(INIT, acts, extra) && t in After(INIT, acts, extra).trans && u in After(INIT, acts, extra).trans
    ensures var s, h := After(INIT, acts, extra), Chronicle(INIT, NO_HISTORY, acts, extra);
      && t in h.birth && u in h.birth
      && (s.trans[t].serial == s.trans[u].serial <==> (h.birth[t].order - h.birth[u].order) % INT_SPAN == 0)
  {
    RunSerials(INIT, NO_HISTORY, acts, extra);
    var h := Chronicle(INIT, NO_HISTORY, acts, extra);
    SharedSerialExactly(h.birth[t].order, h.birth[u].order);
  }

  /** Everything on the reply list was allocated since the latest last close, at most 2^32 allocations ago. */
  ghost predicate OneSession(s: State, h: History) {
    h.allocs <= INT_SPAN && forall t | t in s.replies && t in h.birth :: h.birth[t].epoch == h.epoch
  }

  lemma FindsTheOne(s: State, h: History, t: Tid)
    requires SerialInv(s, h) && OneSession(s, h) && t in s.replies && t in s.trans
    ensures Find(s.replies, s.trans, s.trans[t].serial) == Found(t)
  {
    var m := Find(s.replies, s.trans, s.trans[t].serial);
    assert m.Found?;
    SharedSerialExactly(h.birth[t].order, h.birth[m.t].order);
  }

  lemma ClaimThenComplete(s: State, t: Tid, o: OpId, f: FileId, data: nat)
    requires t in s.trans && o !in s.ops && Find(s.replies, s.trans, s.trans[t].serial) == Found(t)
    ensures var s1 := WriteEnter(s, o, f, s.trans[t].serial);
      && o in s1.ops && s1.ops[o].pc == CopyIn(t) && t !in s1.replies
      && WriteExit(s1, o, data) == s.(trans := s.trans[t := Completed(s.trans[t], data)],
                                      replies := Minus(s.replies, {t}))
  {
    var s1 := WriteEnter(s, o, f, s.trans[t].serial);
    var done := Completed(s.trans[t], data);
    assert s1.ops - {o} == s.ops;
    assert s1.trans[t := done] == s.trans[t := done];
  }

  /** Within a session a reply reaches exactly the transaction that carries its serial: the write claims that one,
      and when its copy window closes only that transaction has changed. */
  lemma ReplyCompletesItsTransaction(acts: seq<Action>, extra: bool, t: Tid, o: OpId, f: FileId, data: nat)
    requires Legal(INIT, acts, extra)
    requires var s := After(INIT, acts, extra);
      OneSession(s, Chronicle(INIT, NO_HISTORY, acts, extra)) && t in s.replies && o !in s.ops
    ensures t in After(INIT, acts, extra).trans
    ensures var s := After(INIT, acts, extra);
      var s1 := WriteEnter(s, o, f, s.trans[t].serial);
      && o in s1.ops && s1.ops[o].pc == CopyIn(t) && t !in s1.replies
      && WriteExit(s1, o, data) == s.(trans := s.trans[t := Completed(s.trans[t], data)],
                                      replies := Minus(s.replies, {t}))
  {
    RunInv(INIT, acts, extra);
    RunSerials(INIT, NO_HISTORY, acts, extra);
    var s := After(INIT, acts, extra);
    FindsTheOne(s, Chronicle(INIT, NO_HISTORY, acts, extra), t);
    ClaimThenComplete(s, t, o, f, data);
  }

  lemma ClaimKept(s: State, a: Action, extra: bool, o: OpId)
    requires Enabled(s, a) && o in s.ops && s.ops[o].pc.CopyIn? && !(a.DoWriteExit? && a.o == o)
    ensures o in Next(s, a, extra).ops && Next(s, a, extra).ops[o] == s.ops[o]
  {
  }

  /** A claim is held through anything the other threads do, and ends in the completion of the transaction claimed,
      which touches no other. */
  lemma {:induction false} ClaimHeldUntilExit(s: State, acts: seq<Action>, extra: bool, o: OpId, data: nat)
    requires Inv(s) && Legal(s, acts, extra) && o in s.ops && s.ops[o].pc.CopyIn?
    requires forall a | a in acts :: !(a.DoWriteExit? && a.o == o)
    ensures var t, s1 := s.ops[o].pc.t, After(s, acts, extra);
      && o in s1.ops && s1.ops[o] == s.ops[o]
      && t in s1.trans && !s1.trans[t].answered && t !in s1.requests && t !in s1.replies
      && WriteExit(s1, o, data).trans == s1.trans[t := Completed(s1.trans[t], data)]
    decreases |acts|
  {
    if acts != [] {
      assert acts[0] in acts;
      NextInv(s, acts[0], extra);
      ClaimKept(s, acts[0], extra, o);
      ClaimHeldUntilExit(Next(s, acts[0], extra), acts[1..], extra, o, data);
    }
  }

  /** A write whose serial nothing on the reply list carries changes nothing, and only such a write does. */
  lemma UnmatchedReplyIgnored(s: State, o: OpId, f: FileId, serial: int)
    requires o !in s.ops
    ensures WriteEnter(s, o, f, serial) == s <==>
      forall t | t in s.replies && t in s.trans :: s.trans[t].serial != serial
  {
    var m := Find(s.replies, s.trans, serial);
    if m.Found? {
      assert o in WriteEnter(s, o, f, serial).ops;
    }
  }

  // ---------------------------------------------------------------- first in, first out

  ghost predicate OrderOk(requests: seq<Tid>, h: History) {
    NoDup(h.enqueued) && h.delivered + requests == Minus(h.enqueued, h.dropped)
  }

  ghost predicate MembersOk(trans: map<Tid, Trans>, h: History) {
    && (forall t | t in h.enqueued :: t in trans && Queued(trans[t]))
    && (forall t | t in trans && Queued(trans[t]) :: t in h.enqueued)
    && (forall t | t in h.dropped :: t in h.enqueued && (t in h.drained || trans[t].phase == Returned(Interrupted)))
  }

  ghost predicate FifoInv(s: State, h: History) {
    MembersOk(s.trans, h) && OrderOk(s.requests, h)
  }

  lemma OrderSubmit(q: seq<Tid>, h: History, t: Tid)
    requires OrderOk(q, h) && t !in h.enqueued && t !in h.dropped
    ensures OrderOk(q + [t], h.(enqueued := h.enqueued + [t]))
  {
    NoDupAppend(h.enqueued, t);
    MinusConcat(h.enqueued, [t], h.dropped);
    assert h.delivered + (q + [t]) == (h.delivered + q) + [t];
  }

  lemma FrontKept(front: seq<Tid>, q: seq<Tid>, gone: set<Tid>)
    requires NoDup(front + q) && forall t | t in gone :: t in q
    ensures Minus(front + q, gone) == front + Minus(q, gone)
  {
    var line := front + q;
    MinusConcat(front, q, gone);
    assert forall i | 0 <= i < |front| :: front[i] == line[i];
    assert forall j | 0 <= j < |q| :: q[j] == line[|front| + j];
    MinusNothing(front, gone);
  }

  /** Taking elements off the request list, none of which was delivered. */
  lemma OrderDrop(q: seq<Tid>, h: History, gone: set<Tid>)
    requires OrderOk(q, h) && forall t | t in gone :: t in q
    ensures h.delivered + Minus(q, gone) == Minus(h.enqueued, h.dropped + gone)
  {
    MinusNoDup(h.enqueued, h.dropped);
    MinusMinus(h.enqueued, h.dropped, gone);
    FrontKept(h.delivered, q, gone);
  }

  lemma OrderDeliver(q: seq<Tid>, h: History)
    requires OrderOk(q, h) && q != []
    ensures OrderOk(q[1..], h.(delivered := h.delivered + [q[0]]))
  {
    assert (h.delivered + [q[0]]) + q[1..] == h.delivered + q;
  }

  lemma UnlinkMembers(trans: map<Tid, Trans>, h: History, t: Tid, tr: Trans)
    requires MembersOk(trans, h) && t in trans && Queued(trans[t]) && tr.phase == Returned(Interrupted)
    ensures MembersOk(trans[t := tr], h) && MembersOk(trans[t := tr], h.(dropped := h.dropped + {t}))
  {
  }

  lemma UnlinkFifo(s: State, h: History, t: Tid)
    requires FifoInv(s, h) && t in s.trans && Live(s.trans[t].phase)
    ensures FifoInv(Unlink(s, t), if t in s.requests then h.(dropped := h.dropped + {t}) else h)
  {
    UnlinkMembers(s.trans, h, t, Unlink(s, t).trans[t]);
    if t in s.requests {
      OrderDrop(s.requests, h, {t});
    } else {
      MinusNothing(s.requests, {t});
    }
  }

  /** A caller that moves on without entering or leaving the queue. */
  lemma MembersMove(trans: map<Tid, Trans>, h: History, t: Tid, tr: Trans)
    requires MembersOk(trans, h) && t in trans && Queued(tr) == Queued(trans[t]) && !trans[t].phase.Returned?
    ensures MembersOk(trans[t := tr], h)
  {
  }

  lemma DrainMembers(trans: map<Tid, Trans>, h: History, p: seq<Tid>, q: seq<Tid>)
    requires MembersOk(trans, h)
    requires forall t | t in p :: t in trans && Queued(trans[t])
    ensures MembersOk(Drain(Drain(trans, p), q),
                      h.(dropped := h.dropped + (set t | t in p),
                        drained := h.drained + (set t | t in p) + (set t | t in q)))
  {
    var trans' := Drain(Drain(trans, p), q);
    assert forall t | t in trans :: t in trans' && trans'[t].phase == trans[t].phase;
  }

  lemma LastCloseFifo(s: State, h: History, f: FileId)
    requires ListsOk(s) && FifoInv(s, h) && Enabled(s, DoClose(f)) && LastClose(s, DoClose(f))
    ensures FifoInv(Close(s, f), Record(s, h, DoClose(f)))
  {
    OrderDrop(s.requests, h, set t | t in s.requests);
    MinusAll(s.requests);
    DrainMembers(s.trans, h, s.requests, s.replies);
    var h' := Record(s, h, DoClose(f));
    assert MembersOk(Close(s, f).trans, h');
  }

  ghost predicate SamePhases(trans: map<Tid, Trans>, trans': map<Tid, Trans>) {
    trans'.Keys == trans.Keys && forall t | t in trans :: trans'[t].phase == trans[t].phase
  }

  /** A step that changes neither the request list nor who is queued. */
  lemma FifoFrame(s: State, h: History, s': State, h': History)
    requires FifoInv(s, h)
    requires s'.requests == s.requests && SamePhases(s.trans, s'.trans)
    requires h'.enqueued == h.enqueued && h'.delivered == h.delivered
    requires h'.dropped == h.dropped && h'.drained == h.drained
    ensures FifoInv(s', h')
  {
  }

  lemma SubmitFifo(s: State, h: History, t: Tid, w: Wake)
    requires FifoInv(s, h) && t in s.trans && s.trans[t].phase.Allocated?
    ensures FifoInv(Submit(s, t, w), if s.useCount == 0 then h else h.(enqueued := h.enqueued + [t]))
  {
    if s.useCount != 0 {
      OrderSubmit(s.requests, h, t);
    } else {
      MembersMove(s.trans, h, t, Submit(s, t, w).trans[t]);
    }
  }

  lemma CheckFifo(s: State, h: History, t: Tid)
    requires FifoInv(s, h) && Enabled(s, DoCheck(t))
    ensures FifoInv(Check(s, t), Record(s, h, DoCheck(t)))
  {
    if UnlinksNow(s, DoCheck(t)) {
      UnlinkFifo(s, h, t);
    } else {
      MembersMove(s.trans, h, t, Check(s, t).trans[t]);
    }
  }

  lemma NewFifo(s: State, h: History, t: Tid)
    requires FifoInv(s, h) && t !in s.trans
    ensures FifoInv(New(s, t), Record(s, h, DoNew(t)))
  {
  }

  lemma WaitingFifo(s: State, h: History, t: Tid)
    requires FifoInv(s, h) && t in s.trans
    ensures FifoInv(Sleep(s, t), h) && FifoInv(Kill(s, t), h)
    ensures s.trans[t].phase.AbortWait? ==> FifoInv(AbortSeen(s, t), h)
  {
    FifoFrame(s, h, Sleep(s, t), h);
    FifoFrame(s, h, Kill(s, t), h);
    if s.trans[t].phase.AbortWait? {
      MembersMove(s.trans, h, t, AbortSeen(s, t).trans[t]);
    }
  }

  lemma CallerFifo(s: State, h: History, a: Action, extra: bool)
    requires FifoInv(s, h) && Enabled(s, a) && ByCaller(a)
    ensures FifoInv(Next(s, a, extra), Record(s, h, a))
  {
    match a
    case DoNew(t) => NewFifo(s, h, t);
    case DoSubmit(t, w) => SubmitFifo(s, h, t, w);
    case DoCheck(t) => CheckFifo(s, h, t);
    case DoAbortReturn(t) => UnlinkFifo(s, h, t);
    case DoSleep(t) => WaitingFifo(s, h, t);
    case DoKill(t) => WaitingFifo(s, h, t);
    case DoAbortSeen(t) => WaitingFifo(s, h, t);
  }

  lemma ReaderFifo(s: State, h: History, a: Action, extra: bool)
    requires FifoInv(s, h) && Enabled(s, a) && !ByCaller(a) && !ByCopier(a) && !LastClose(s, a)
    ensures FifoInv(Next(s, a, extra), Record(s, h, a))
  {
    if Delivers(s, a) {
      OrderDeliver(s.requests, h);
      assert SamePhases(s.trans, Next(s, a, extra).trans);
    } else {
      FifoFrame(s, h, Next(s, a, extra), Record(s, h, a));
    }
  }

  lemma CopierFifo(s: State, h: History, a: Action, extra: bool)
    requires FifoInv(s, h) && Enabled(s, a) && ByCopier(a)
    ensures FifoInv(Next(s, a, extra), Record(s, h, a))
  {
    FifoFrame(s, h, Next(s, a, extra), Record(s, h, a));
  }

  lemma NextFifo(s: State, h: History, a: Action, extra: bool)
    requires Inv(s) && FifoInv(s, h) && Enabled(s, a)
    ensures FifoInv(Next(s, a, extra), Record(s, h, a))
  {
    if ByCaller(a) {
      CallerFifo(s, h, a, extra);
    } else if LastClose(s, a) {
      LastCloseFifo(s, h, a.f);
    } else if ByCopier(a) {
      CopierFifo(s, h, a, extra);
    } else {
      ReaderFifo(s, h, a, extra);
    }
  }

  lemma {:induction false} RunFifo(s: State, h: History, acts: seq<Action>, extra: bool)
    requires Inv(s) && FifoInv(s, h) && Legal(s, acts, extra)
    ensures FifoInv(After(s, acts, extra), Chronicle(s, h, acts, extra))
    decreases |acts|
  {
    if acts != [] {
      NextInv(s, acts[0], extra);
      NextFifo(s, h, acts[0], extra);
      RunFifo(Next(s, acts[0], extra), Record(s, h, acts[0]), acts[1..], extra);
    }
  }

  /** In every run: what was delivered, followed by what is pending, is the enqueue history without the transactions
      that an abort or a last close took off the request list; each transaction is queued, and so delivered, at
      most once. */
  lemma FifoAtMostOnce(acts: seq<Action>, extra: bool)
    requires Legal(INIT, acts, extra)
    ensures var s, h := After(INIT, acts, extra), Chronicle(INIT, NO_HISTORY, acts, extra);
      && NoDup(h.enqueued)
      && h.delivered + s.requests == Minus(h.enqueued, h.dropped)
      && NoDup(h.delivered + s.requests)
      && (forall t | t in h.dropped :: t in s.trans && (t in h.drained || s.trans[t].phase == Returned(Interrupted)))
  {
    RunFifo(INIT, NO_HISTORY, acts, extra);
    var h := Chronicle(INIT, NO_HISTORY, acts, extra);
    MinusNoDup(h.enqueued, h.dropped);
  }
}
