/** uvfs_readdir (dir.c:494-559): nested loops that move `f_pos` and a record cursor, resumable when the user's buffer
    fills. The server is a function from the number of the request and the entry it asks for to a reply; the user's
    buffer is a function from the number of the attempt to whether filldir takes the entry. */
module Readdir {
  import opened Common
  import opened DirRecords

  /** A failed request, or records. An allocation failure shows as Fail(-ENOMEM). */
  datatype Reply = Fail(error: int) | Records(count: nat, data: seq<Byte>)

  type Server = (nat, int) -> Reply

  /** What filldir receives. */
  datatype Shown = Shown(name: seq<Byte>, ino: nat, offset: int)

  ghost predicate Means(r: Reply, es: seq<Dirent>) {
    r.Records? && r.count == |es| && Holds(r.data, 0, es)
  }

  /** Entries in strict index order, none before position `p`. */
  ghost predicate Ahead(es: seq<Dirent>, p: int) {
    es == [] || (p <= es[0].index < MAX_INDEX && Ahead(es[1..], es[0].index + 1))
  }

  lemma {:induction false} AheadSorted(es: seq<Dirent>, p: int)
    requires Ahead(es, p)
    ensures forall i | 0 <= i < |es| :: p <= es[i].index < MAX_INDEX
    ensures forall i, j | 0 <= i < j < |es| :: es[i].index < es[j].index
    decreases |es|
  {
    if es != [] {
      AheadSorted(es[1..], es[0].index + 1);
      assert forall i | 1 <= i < |es| :: es[i] == es[1..][i - 1];
    }
  }

  /** What any server of this protocol owes: an error, or entries in index order, none before the one asked for. */
  ghost predicate InOrder(r: Reply, p: int) {
    if r.Fail? then r.error < 0
    else exists es: seq<Dirent> :: Means(r, es) && Ahead(es, p)
  }

  ghost predicate Orderly(serve: Server) {
    forall k: nat, p: int | 0 <= p :: InOrder(serve(k, p), p)
  }

  /** The entries of `dir` from index `p` on. */
  function From(dir: seq<Dirent>, p: int): seq<Dirent> {
    if dir == [] || p <= dir[0].index then dir else From(dir[1..], p)
  }

  /** A reply about a directory that holds `dir`: an error, or a nonempty beginning of what is left (empty only when
      nothing is left). */
  ghost predicate ChunkOf(r: Reply, dir: seq<Dirent>, p: int) {
    r.Fail? || exists m: nat :: m <= |From(dir, p)| && (m == 0 ==> From(dir, p) == []) && Means(r, From(dir, p)[..m])
  }

  /** The directory is `dir` throughout, however the server cuts it into replies. */
  ghost predicate FixedDir(serve: Server, dir: seq<Dirent>) {
    Ahead(dir, 0) && forall k: nat, p: int | 0 <= p :: ChunkOf(serve(k, p), dir, p)
  }

  /** `f_pos` after showing `es` from position `pos`. */
  function PosAfter(es: seq<Dirent>, pos: int): int {
    if es == [] then pos else es[|es| - 1].index + 1
  }

  /** What the user has received when `es` were shown: the names and inode numbers, each with the `f_pos` before it. */
  ghost predicate Received(out: seq<Shown>, es: seq<Dirent>) {
    && |out| == |es|
    && forall i {:trigger out[i]} | 0 <= i < |es| ::
         out[i] == Shown(es[i].name, es[i].ino, if i == 0 then 0 else es[i - 1].index + 1)
  }

  // ---------------------------------------------------------------- what one call does

  /** The entries of several replies, one after the other. */
  function Flat(chunks: seq<seq<Dirent>>): seq<Dirent> {
    if chunks == [] then [] else chunks[0] + Flat(chunks[1..])
  }

  /** `f_pos` after all of them. */
  function PosAfterAll(chunks: seq<seq<Dirent>>, pos: int): int {
    if chunks == [] then pos else PosAfterAll(chunks[1..], PosAfter(chunks[0], pos))
  }

  /** From request number `k` on, asked at `pos`, the server's replies are these, none of them empty, each asked for
      at the position the one before it led to. */
  ghost predicate Replies(serve: Server, k: nat, pos: int, chunks: seq<seq<Dirent>>)
    decreases |chunks|
  {
    chunks == [] ||
    (chunks[0] != [] && Means(serve(k, pos), chunks[0]) && Replies(serve, k + 1, PosAfter(chunks[0], pos), chunks[1..]))
  }

  lemma {:induction false} OneMoreReply(serve: Server, k: nat, pos: int, chunks: seq<seq<Dirent>>,
                                        n: nat, p: int, es: seq<Dirent>)
    requires Replies(serve, k, pos, chunks) && es != []
    requires n == k + |chunks| && p == PosAfterAll(chunks, pos) && Means(serve(n, p), es)
    ensures Replies(serve, k, pos, chunks + [es])
    ensures Flat(chunks + [es]) == Flat(chunks) + es
    ensures PosAfterAll(chunks + [es], pos) == PosAfter(es, p)
    decreases |chunks|
  {
    if chunks == [] {
      assert chunks + [es] == [es] && [es][1..] == [];
    } else {
      assert (chunks + [es])[0] == chunks[0] && (chunks + [es])[1..] == chunks[1..] + [es];
      OneMoreReply(serve, k + 1, PosAfter(chunks[0], pos), chunks[1..], n, p, es);
      assert Flat(chunks + [es]) == chunks[0] + (Flat(chunks[1..]) + es);
    }
  }

  /** The buffer takes the attempts from number `a` up to number `b`. */
  ghost predicate TakesAll(accepts: nat -> bool, a: nat, b: nat) {
    forall i: nat | a <= i < b :: accepts(i)
  }

  /** How a call ends at the reply `last`, which follows those of `chunks`, and what it has shown by then: all the
      entries of `chunks`, and those of `last` before the one the buffer refused, if it refused one. */
  ghost predicate Ends(last: Reply, chunks: seq<seq<Dirent>>, accepts: nat -> bool, added: seq<Dirent>, ret: int,
    full: bool)
  {
    && TakesAll(accepts, 0, |added|)
    && if full then
         && ret == 0 && !accepts(|added|)
         && exists es: seq<Dirent>, done: seq<Dirent> :: Means(last, es) && done < es && added == Flat(chunks) + done
       else
         && added == Flat(chunks)
         && if ret < 0 then last == Fail(ret) else ret == 0 && last.Records? && last.count == 0
  }

  lemma {:induction false} FromSkips(dir: seq<Dirent>, k: nat, p: int)
    requires Ahead(dir, p) && k <= |dir|
    ensures From(dir, PosAfter(dir[..k], p)) == dir[k..]
    decreases k
  {
    if k > 0 {
      AheadSorted(dir, p);
      var q := PosAfter(dir[..k], p);
      assert q == dir[k - 1].index + 1 && dir[0].index < q;
      FromSkips(dir[1..], k - 1, dir[0].index + 1);
      assert dir[1..][..k - 1] == dir[1..k] && dir[1..][k - 1..] == dir[k..];
    } else if dir != [] {
      assert dir[..0] == [] && dir[0..] == dir;
    }
  }

  /** The entries shown so far are exactly the entries of the directory with index below `f_pos`. */
  lemma ShownIsBelow(dir: seq<Dirent>, shown: seq<Dirent>, e: Dirent)
    requires Ahead(dir, 0) && shown <= dir
    ensures e in shown <==> e in dir && e.index < PosAfter(shown, 0)
  {
    AheadSorted(dir, 0);
    if e in shown {
      var i :| 0 <= i < |shown| && shown[i] == e;
      assert dir[i] == e && shown[|shown| - 1] == dir[|shown| - 1];
    }
    if e in dir && e.index < PosAfter(shown, 0) {
      var j :| 0 <= j < |dir| && dir[j] == e;
      assert shown != [] ==> shown[|shown| - 1] == dir[|shown| - 1];
      assert j < |shown| && shown[j] == e;
    }
  }

  lemma FullEnds(last: Reply, chunks: seq<seq<Dirent>>, accepts: nat -> bool, es: seq<Dirent>, done: seq<Dirent>,
                 tries: nat)
    requires Means(last, es) && done < es && tries == |Flat(chunks)| + |done|
    requires TakesAll(accepts, 0, tries) && !accepts(tries)
    ensures Ends(last, chunks, accepts, Flat(chunks) + done, 0, true)
  {
  }

  lemma Regroup<T>(a: seq<T>, b: seq<T>, c: seq<T>)
    ensures (a + b) + c == a + (b + c)
  {
  }

  lemma TakesOne(accepts: nat -> bool, a: nat, b: nat)
    requires TakesAll(accepts, a, b) && accepts(b)
    ensures TakesAll(accepts, a, b + 1)
  {
  }

  lemma TakesOn(accepts: nat -> bool, a: nat, b: nat)
    requires TakesAll(accepts, 0, a) && TakesAll(accepts, a, b)
    ensures TakesAll(accepts, 0, b)
  {
  }

  /** Whole replies about a fixed directory go on where the entries shown so far end. */
  lemma {:induction false} FixedReplies(serve: Server, dir: seq<Dirent>, k: nat, shown: seq<Dirent>, pos: int,
                                        chunks: seq<seq<Dirent>>)
    requires FixedDir(serve, dir) && shown <= dir && 0 <= pos == PosAfter(shown, 0)
    requires Replies(serve, k, pos, chunks)
    ensures shown + Flat(chunks) <= dir
    ensures 0 <= PosAfterAll(chunks, pos) == PosAfter(shown + Flat(chunks), 0)
    decreases |chunks|
  {
    if chunks == [] {
      assert shown + Flat(chunks) == shown;
    } else {
      var es := chunks[0];
      assert ChunkOf(serve(k, pos), dir, pos);
      ChunkContinues(serve(k, pos), dir, shown, es);
      AheadSorted(dir, 0);
      assert (shown + es)[|shown + es| - 1] == dir[|shown + es| - 1];
      FixedReplies(serve, dir, k + 1, shown + es, PosAfter(es, pos), chunks[1..]);
      Regroup(shown, es, Flat(chunks[1..]));
    }
  }

  /** What a call on a fixed directory has shown when it ends. */
  lemma FixedEnds(serve: Server, dir: seq<Dirent>, shown: seq<Dirent>, pos: int, chunks: seq<seq<Dirent>>,
                  accepts: nat -> bool, added: seq<Dirent>, ret: int, full: bool)
    requires FixedDir(serve, dir) && shown <= dir && 0 <= pos == PosAfter(shown, 0) && Replies(serve, 0, pos, chunks)
    requires Ends(serve(|chunks|, PosAfterAll(chunks, pos)), chunks, accepts, added, ret, full)
    ensures shown + added <= dir && (ret == 0 ==> (full <==> shown + added != dir))
  {
    FixedReplies(serve, dir, 0, shown, pos, chunks);
    var p, before := PosAfterAll(chunks, pos), shown + Flat(chunks);
    var last := serve(|chunks|, p);
    assert ChunkOf(last, dir, p);
    if full {
      var es: seq<Dirent>, done: seq<Dirent> :| Means(last, es) && done < es && added == Flat(chunks) + done;
      ChunkContinues(last, dir, before, es);
      Regroup(shown, Flat(chunks), done);
      assert before + done < before + es;
    } else if ret == 0 {
      assert Means(last, []);
      ChunkContinues(last, dir, before, []);
    }
  }

  /** An open directory: the struct file and what its user has received. */
  class DirFile {
    var fPos: int
    var out: seq<Shown>
    ghost var shown: seq<Dirent>  // the entries behind `out`

    ghost predicate Valid()
      reads this
    {
      Ahead(shown, 0) && fPos == PosAfter(shown, 0) && Received(out, shown) && fPos <= MAX_INDEX
    }

    constructor ()
      ensures Valid() && shown == [] && fPos == 0
    {
      fPos, out, shown := 0, [], [];
    }

    /** A filldir that succeeds, and line 546. */
    method ShowOne(rec: Dirent)
      requires Valid() && fPos <= rec.index < MAX_INDEX
      modifies this
      ensures Valid() && shown == old(shown) + [rec] && fPos == rec.index + 1
    {
      AheadMore(shown, rec, 0);
      out := out + [Shown(rec.name, rec.ino, fPos)];
      shown := shown + [rec];
      fPos := rec.index + 1;
    }

    /** The records from address `ent` of a buffer at `base` on are `rest`, and all of them lie ahead of `f_pos`. */
    ghost predicate Facing(data: seq<Byte>, base: nat, ent: nat, rest: seq<Dirent>)
      reads this
    {
      Valid() && base <= ent && Holds(data, ent - base, rest) && Ahead(rest, fPos)
    }

    /** The body of the inner loop for the record at address `ent`, once filldir has taken it. */
    method ShowNext(data: seq<Byte>, base: nat, ent: nat, ghost rest: seq<Dirent>) returns (next: nat)
      requires base % 4 == 0 && Facing(data, base, ent, rest) && rest != []
      modifies this
      ensures Facing(data, base, next, rest[1..]) && shown == old(shown) + [rest[0]]
      ensures fPos == rest[0].index + 1 && old(fPos) < fPos
    {
      var rec;
      rec, next := Fetch(data, base, ent, rest);
      ShowOne(rec);
    }

    /** The inner loop has shown `done` of the entries `es` of a reply, from `f_pos` == `pos` and `start` shown
        before. */
    ghost predicate Midway(data: seq<Byte>, base: nat, ent: nat, es: seq<Dirent>, done: seq<Dirent>,
                           start: seq<Dirent>, pos: int)
      reads this
    {
      && done <= es && Facing(data, base, ent, es[|done|..]) && shown == start + done
      && fPos == PosAfter(done, pos) && pos <= fPos && (done != [] ==> pos < fPos)
    }

    method ShowStep(data: seq<Byte>, base: nat, ent: nat, ghost es: seq<Dirent>, ghost done: seq<Dirent>,
                    ghost start: seq<Dirent>, ghost pos: int) returns (next: nat, ghost done': seq<Dirent>)
      requires base % 4 == 0 && Midway(data, base, ent, es, done, start, pos) && |done| < |es|
      modifies this
      ensures Midway(data, base, next, es, done', start, pos) && |done'| == |done| + 1
    {
      ghost var rest := es[|done|..];
      next := ShowNext(data, base, ent, rest);
      done' := done + [rest[0]];
      assert es[|done'|..] == rest[1..];
      Regroup(start, done, [rest[0]]);
    }

    /** The inner loop, over the records `es` of one reply at address `base`. It shows the first of these, `done`, and
        stops before the end only at an entry that filldir refuses. */
    method ShowRecords(reply: Reply, base: nat, accepts: nat -> bool, tries: nat, ghost es: seq<Dirent>)
        returns (full: bool, tries': nat, ghost done: seq<Dirent>)
      requires Valid() && base % 4 == 0 && Means(reply, es) && Ahead(es, fPos)
      modifies this
      ensures Valid() && done <= es && shown == old(shown) + done
      ensures if full then |done| < |es| else done == es
      ensures full ==> !accepts(tries')
      ensures tries' == tries + |done| && TakesAll(accepts, tries, tries')
      ensures fPos == PosAfter(done, old(fPos)) && old(fPos) <= fPos && (done != [] ==> old(fPos) < fPos)
    {
      tries', full, done := tries, false, [];
      var i, ent := 0, base;
      assert es[|done|..] == es;
      while i < reply.count
        invariant i == |done| && tries' == tries + i && TakesAll(accepts, tries, tries')
        invariant Midway(reply.data, base, ent, es, done, old(shown), old(fPos))
      {
        if !accepts(tries') {
          full := true;
          break;
        }
        TakesOne(accepts, tries, tries');
        tries' := tries' + 1;
        ent, done := ShowStep(reply.data, base, ent, es, done, old(shown), old(fPos));
        i := i + 1;
      }
    }

    /** uvfs_readdir. The call asks at `f_pos` again and again, shows whole replies as long as the buffer takes every
        entry, and ends at an error, which it returns, at an empty reply, or at the entry the buffer refuses (`Ends`).
        With any orderly server, even one whose directory changes, it only adds entries with indices above all those
        shown before, so no index repeats, and it terminates. With a fixed directory, the entries shown over all calls
        are a beginning of it: all of it if a call returns 0 without a full buffer, and not all of it if the buffer
        was full. */
    method ReadDir(serve: Server, base: nat, accepts: nat -> bool, ghost dir: seq<Dirent>)
        returns (ret: int, full: bool, ghost chunks: seq<seq<Dirent>>, ghost added: seq<Dirent>)
      requires Valid() && base % 4 == 0 && Orderly(serve)
      modifies this
      ensures Valid() && shown == old(shown) + added && old(fPos) <= fPos
      ensures Replies(serve, 0, old(fPos), chunks)
      ensures Ends(serve(|chunks|, PosAfterAll(chunks, old(fPos))), chunks, accepts, added, ret, full)
      ensures !full ==> fPos == PosAfterAll(chunks, old(fPos))
      ensures FixedDir(serve, dir) && old(shown) <= dir ==> shown <= dir && (ret == 0 ==> (full <==> shown != dir))
    {
      var calls, tries := 0, 0;
      ghost var start, pos := shown, fPos;
      ret, full, chunks, added := 0, false, [], [];
      while true
        invariant Valid() && shown == start + added && pos <= fPos && !full && ret == 0
        invariant calls == |chunks| && Replies(serve, 0, pos, chunks)
        invariant added == Flat(chunks) && fPos == PosAfterAll(chunks, pos)
        invariant tries == |added| && TakesAll(accepts, 0, tries)
        decreases MAX_INDEX - fPos
      {
        var reply := serve(calls, fPos);
        assert InOrder(reply, fPos);
        if reply.Fail? {
          ret := reply.error;
          break;
        }
        ghost var es: seq<Dirent> :| Means(reply, es) && Ahead(es, fPos);
        if reply.count == 0 {
          break;
        }
        ghost var p, done := fPos, [];
        full, tries, done := ShowRecords(reply, base, accepts, tries, es);
        Regroup(start, added, done);
        TakesOn(accepts, |added|, tries);
        added := added + done;
        if full {
          FullEnds(reply, chunks, accepts, es, done, tries);
          break;
        }
        OneMoreReply(serve, 0, pos, chunks, calls, p, es);
        calls, chunks := calls + 1, chunks + [es];
      }
      if FixedDir(serve, dir) && start <= dir {
        FixedEnds(serve, dir, start, pos, chunks, accepts, added, ret, full);
      }
    }
  }

  /** Dereferences the record at address `ent` of a buffer at `base` and computes the address of the next one, as lines
      548-551 do. */
  method Fetch(data: seq<Byte>, base: nat, ent: nat, ghost rest: seq<Dirent>) returns (rec: Dirent, next: nat)
    requires base % 4 == 0 && base <= ent && rest != [] && Holds(data, ent - base, rest)
    ensures rec == rest[0] && base <= next && Holds(data, next - base, rest[1..])
  {
    assert RecordAt(data, ent - base, rest[0]);
    rec := RecordOf(data, ent - base);
    AddressIsOffset(base, ent - base, |rec.name|);
    next := (ent + HEADER + |rec.name| + 3) / 4 * 4;
  }

  lemma {:induction false} AheadMore(es: seq<Dirent>, e: Dirent, p: int)
    requires Ahead(es, p) && PosAfter(es, p) <= e.index < MAX_INDEX
    ensures Ahead(es + [e], p)
    decreases |es|
  {
    if es == [] {
      assert es + [e] == [e];
    } else {
      assert (es + [e])[0] == es[0] && (es + [e])[1..] == es[1..] + [e];
      AheadMore(es[1..], e, es[0].index + 1);
    }
  }

  /** A reply about a fixed directory, asked for at the position reached, goes on exactly where the entries shown so far
      end. */
  lemma ChunkContinues(reply: Reply, dir: seq<Dirent>, shown: seq<Dirent>, es: seq<Dirent>)
    requires Ahead(dir, 0) && shown <= dir && Means(reply, es)
    requires ChunkOf(reply, dir, PosAfter(shown, 0))
    ensures shown + es <= dir && (es == [] ==> shown == dir)
  {
    var p := PosAfter(shown, 0);
    assert shown == dir[..|shown|];
    FromSkips(dir, |shown|, 0);
    var m: nat :| m <= |From(dir, p)| && (m == 0 ==> From(dir, p) == []) && Means(reply, From(dir, p)[..m]);
    CursorRecovers(reply.data, 0, es);
    CursorRecovers(reply.data, 0, From(dir, p)[..m]);
    assert es == dir[|shown|..][..m];
    assert shown + es == dir[..|shown| + m];
  }
}
