/** Attribute-driven invalidation of cached pages: uvfs_refresh_inode, uvfs_revalidate_inode and uvfs_readpage
    (super.c:214-283, file.c:171-217) for a client that only reads, while the file changes on the server. */
module PageFreshness {
  import opened Common
  import opened FilePages

  type Content = seq<Byte>

  /** One version of the file: its bytes, and its modification time as attribute replies carry it. */
  datatype Version = Version(content: Content, mtime: (nat, nat))

  /** What uvfs_refresh_inode compares. The size in a reply has 32 bits. */
  datatype Stamp = Stamp(size: nat, mtime: (nat, nat))

  function StampOf(v: Version): Stamp {
    Stamp(ToUnsigned(|v.content|), v.mtime)
  }

  /** The versions the server goes through, in order. Version `cur` is the present one. `stamp` is what the client's
      inode holds; a page remembers the version it was filled from. */
  datatype State = State(cur: nat, stamp: Stamp, pages: map<nat, nat>)

  datatype Event =
    | Change                 // the server moves to its next version
    | Fill(page: nat)        // uvfs_readpage
    | Refresh(version: nat)  // uvfs_refresh_inode with attributes taken when the file was at `version`, perhaps late
    | Drop(page: nat)        // the kernel reclaims a page

  predicate Enabled(hist: seq<Version>, s: State, e: Event) {
    match e
    case Change => s.cur + 1 < |hist|
    case Fill(_) => true
    case Refresh(v) => v <= s.cur
    case Drop(_) => true
  }

  function Next(hist: seq<Version>, s: State, e: Event): State
    requires s.cur < |hist| && Enabled(hist, s, e)
  {
    match e
    case Change => s.(cur := s.cur + 1)
    case Fill(p) => s.(pages := s.pages[p := s.cur])
    case Refresh(v) =>
      var stamp := StampOf(hist[v]);
      State(s.cur, stamp, if stamp == s.stamp then s.pages else map[])
    case Drop(p) => s.(pages := s.pages - {p})
  }

  predicate Legal(hist: seq<Version>, s: State, es: seq<Event>)
    requires s.cur < |hist|
    decreases |es|
  {
    es == [] || (Enabled(hist, s, es[0]) && Legal(hist, Next(hist, s, es[0]), es[1..]))
  }

  function After(hist: seq<Version>, s: State, es: seq<Event>): (r: State)
    requires s.cur < |hist| && Legal(hist, s, es)
    ensures r.cur < |hist|
    decreases |es|
  {
    if es == [] then s else After(hist, Next(hist, s, es[0]), es[1..])
  }

  /** An inode fresh from uvfs_iget, with the attributes of version 0 and no pages. */
  function Start(hist: seq<Version>): State
    requires hist != []
  {
    State(0, StampOf(hist[0]), map[])
  }

  /** What page `p` shows when it is filled from a version. */
  function Shown(v: Version, p: nat): seq<Byte> {
    PageRead(v.content, p)
  }

  /** Every cached page shows what a page filled now would show. */
  ghost predicate Fresh(hist: seq<Version>, s: State)
    requires s.cur < |hist|
  {
    forall p | p in s.pages :: s.pages[p] < |hist| && Shown(hist[s.pages[p]], p) == Shown(hist[s.cur], p)
  }

  /** The same bytes, where a page read can reach; behind the end of a file it finds zeros. */
  ghost predicate SameBytes(a: Content, b: Content) {
    forall i | 0 <= i < 0x8000_0000 :: ByteAt(a, i) == ByteAt(b, i)
  }

  /** What sizes and modification times must promise: between two versions that agree in the time and in the low 32
      bits of the size no byte has changed. */
  ghost predicate StampsTell(hist: seq<Version>) {
    forall i, m, j | 0 <= i <= m <= j < |hist| && hist[i].mtime == hist[j].mtime
                     && |hist[i].content| % 0x1_0000_0000 == |hist[j].content| % 0x1_0000_0000 ::
      SameBytes(hist[m].content, hist[j].content)
  }

  lemma SameBytesShown(v: Version, w: Version, p: nat)
    requires SameBytes(v.content, w.content)
    ensures Shown(v, p) == Shown(w, p)
  {
    WholePages(p);
    var off := ToInt(p * PAGE);
    forall k | 0 <= k < PAGE ensures Shown(v, p)[k] == Shown(w, p)[k] {
      assert off + k < 0x8000_0000;
    }
  }

  /** Versions that differ in some byte differ in the page it lies in. */
  lemma DifferentPage(v: Version, w: Version) returns (p: nat)
    requires !SameBytes(v.content, w.content)
    ensures Shown(v, p) != Shown(w, p)
  {
    var i :| 0 <= i < 0x8000_0000 && ByteAt(v.content, i) != ByteAt(w.content, i);
    p := i / PAGE;
    PageBytes(v.content, i);
    PageBytes(w.content, i);
    assert p * PAGE <= i;
  }

  /** The inode's stamp is that of some version no later than any page in the cache. */
  ghost predicate StampBelow(hist: seq<Version>, s: State, v: nat) {
    v <= s.cur < |hist| && StampOf(hist[v]) == s.stamp && forall p | p in s.pages :: v <= s.pages[p] <= s.cur
  }

  ghost predicate Inv(hist: seq<Version>, s: State) {
    exists v: nat :: StampBelow(hist, s, v)
  }

  lemma NextInv(hist: seq<Version>, s: State, e: Event)
    requires Inv(hist, s) && Enabled(hist, s, e)
    ensures Inv(hist, Next(hist, s, e))
  {
    var v: nat :| StampBelow(hist, s, v);
    var s' := Next(hist, s, e);
    if e.Refresh? && StampOf(hist[e.version]) != s.stamp {
      assert StampBelow(hist, s', e.version);
    } else {
      assert StampBelow(hist, s', v);
    }
  }

  lemma {:induction false} RunInv(hist: seq<Version>, s: State, es: seq<Event>)
    requires Inv(hist, s) && Legal(hist, s, es)
    ensures Inv(hist, After(hist, s, es))
    decreases |es|
  {
    if es != [] {
      NextInv(hist, s, es[0]);
      RunInv(hist, Next(hist, s, es[0]), es[1..]);
    }
  }

  /** With the present stamp on the inode, a cache that obeys the invariant is fresh. */
  lemma CurrentStampFresh(hist: seq<Version>, s: State)
    requires Inv(hist, s) && s.cur < |hist| && s.stamp == StampOf(hist[s.cur])
    ensures StampsTell(hist) ==> Fresh(hist, s)
  {
    var v: nat :| StampBelow(hist, s, v);
    if StampsTell(hist) {
      forall p | p in s.pages ensures Shown(hist[s.pages[p]], p) == Shown(hist[s.cur], p) {
        assert v <= s.pages[p] <= s.cur;
        SameBytesShown(hist[s.pages[p]], hist[s.cur], p);
      }
    }
  }

  /** If the stamps tell, then in every run, whatever late attribute replies were applied on the way, the pages that
      survive a refresh with current attributes show what the file holds now. */
  lemma RevalidatedPagesAreFresh(hist: seq<Version>, es: seq<Event>)
    requires hist != [] && StampsTell(hist) && Legal(hist, Start(hist), es)
    ensures var s := After(hist, Start(hist), es);
      Fresh(hist, Next(hist, s, Refresh(s.cur)))
  {
    assert StampBelow(hist, Start(hist), 0);
    RunInv(hist, Start(hist), es);
    var s := After(hist, Start(hist), es);
    NextInv(hist, s, Refresh(s.cur));
    CurrentStampFresh(hist, Next(hist, s, Refresh(s.cur)));
  }

  /** Distinct stamps for distinct versions are enough. */
  lemma DistinctStampsTell(hist: seq<Version>)
    requires forall i, j | 0 <= i < j < |hist| ::
      |hist[i].content| % 0x1_0000_0000 != |hist[j].content| % 0x1_0000_0000 || hist[i].mtime != hist[j].mtime
    ensures StampsTell(hist)
  {
  }

  // ---------------------------------------------------------------- and nothing less is

  function Changes(n: nat): seq<Event> {
    seq(n, i => Change)
  }

  lemma {:induction false} ChangesRun(hist: seq<Version>, s: State, n: nat, more: seq<Event>)
    requires s.cur + n < |hist| && Legal(hist, s.(cur := s.cur + n), more)
    ensures Legal(hist, s, Changes(n) + more)
    ensures After(hist, s, Changes(n) + more) == After(hist, s.(cur := s.cur + n), more)
    decreases n
  {
    var es := Changes(n) + more;
    if n == 0 {
      assert es == more;
    } else {
      assert es[0] == Change && es[1..] == Changes(n - 1) + more;
      ChangesRun(hist, s.(cur := s.cur + 1), n - 1, more);
    }
  }

  /** The state after a run and a refresh with current attributes. */
  ghost function Refreshed(hist: seq<Version>, es: seq<Event>): (s: State)
    requires hist != [] && Legal(hist, Start(hist), es)
    ensures s.cur < |hist|
  {
    var s := After(hist, Start(hist), es);
    Next(hist, s, Refresh(s.cur))
  }

  /** If the stamps do not tell, some run ends with a page that survives a refresh with current attributes and shows old
      bytes: refresh at the first version, fill a page that differs at the one in between, refresh at the last. */
  lemma StaleOtherwise(hist: seq<Version>, i: nat, m: nat, j: nat) returns (es: seq<Event>, p: nat)
    requires i <= m <= j < |hist| && hist[i].mtime == hist[j].mtime
    requires |hist[i].content| % 0x1_0000_0000 == |hist[j].content| % 0x1_0000_0000
    requires !SameBytes(hist[m].content, hist[j].content)
    ensures Legal(hist, Start(hist), es)
    ensures var s := After(hist, Start(hist), es);
      && s.cur == j
      && var s' := Next(hist, s, Refresh(j));
      && p in s'.pages && s'.pages[p] == m && Shown(hist[m], p) != Shown(hist[j], p)
    ensures !Fresh(hist, Refreshed(hist, es))
  {
    p := DifferentPage(hist[m], hist[j]);
    var s0 := Start(hist);
    var s1 := s0.(cur := i);
    var s2 := State(i, StampOf(hist[i]), map[]);
    var s3 := s2.(cur := m);
    var s4 := s3.(pages := map[p := m]);
    var s5 := s4.(cur := j);
    var last := Changes(j - m) + [];
    ChangesRun(hist, s4, j - m, []);
    var fill := [Fill(p)] + last;
    assert fill[1..] == last && s3.pages[p := m] == s4.pages;
    assert Next(hist, s3, Fill(p)) == s4;
    var mid := Changes(m - i) + fill;
    ChangesRun(hist, s2, m - i, fill);
    var refresh := [Refresh(i)] + mid;
    assert refresh[1..] == mid;
    assert Next(hist, s1, Refresh(i)) == s2;
    es := Changes(i) + refresh;
    ChangesRun(hist, s0, i, refresh);
    assert After(hist, s0, es) == s5;
    assert p in Refreshed(hist, es).pages;
  }

  lemma SomeStale(hist: seq<Version>) returns (es: seq<Event>)
    requires hist != [] && !StampsTell(hist)
    ensures Legal(hist, Start(hist), es) && !Fresh(hist, Refreshed(hist, es))
  {
    var i, m, j :|
      && 0 <= i <= m <= j < |hist| && hist[i].mtime == hist[j].mtime
      && |hist[i].content| % 0x1_0000_0000 == |hist[j].content| % 0x1_0000_0000
      && !SameBytes(hist[m].content, hist[j].content);
    var p;
    es, p := StaleOtherwise(hist, i, m, j);
  }

  /** The exact condition on a server's history: every run is fresh after every current refresh if and only if the
      stamps tell. */
  lemma FreshExactly(hist: seq<Version>)
    requires hist != []
    ensures StampsTell(hist) <==>
      forall es: seq<Event> :: Legal(hist, Start(hist), es) ==> Fresh(hist, Refreshed(hist, es))
  {
    if StampsTell(hist) {
      forall es: seq<Event> | Legal(hist, Start(hist), es) ensures Fresh(hist, Refreshed(hist, es)) {
        RevalidatedPagesAreFresh(hist, es);
      }
    } else {
      var es := SomeStale(hist);
    }
  }

  // ---------------------------------------------------------------- the inode, updated in place

  /** The part of an inode and its mapping that freshness is about, next to the server's present version. */
  class CachedFile {
    var stamp: Stamp
    var pages: map<nat, seq<Byte>>   // the bytes of the pages in the mapping
    var cur: nat
    ghost var origin: map<nat, nat>  // the version each page was filled from

    ghost function Abs(): State
      reads this
    {
      State(cur, stamp, origin)
    }

    ghost predicate Valid(hist: seq<Version>)
      reads this
    {
      && Inv(hist, Abs())
      && pages.Keys == origin.Keys
      && (forall p | p in pages :: origin[p] < |hist| && pages[p] == Shown(hist[origin[p]], p))
    }

    /** uvfs_refresh_inode with the size and modification time of version `v`. */
    method RefreshInode(hist: seq<Version>, v: nat)
      requires v <= cur < |hist| && Valid(hist)
      modifies `stamp, `pages, `origin
      ensures Valid(hist) && Abs() == Next(hist, old(Abs()), Refresh(v))
      ensures pages ==
        if && old(stamp.size) == |hist[v].content| % 0x1_0000_0000
           && old(stamp.mtime.0) == hist[v].mtime.0 && old(stamp.mtime.1) == hist[v].mtime.1
        then old(pages) else map[]
      ensures stamp.size == |hist[v].content| % 0x1_0000_0000 && stamp.mtime == hist[v].mtime
    {
      NextInv(hist, Abs(), Refresh(v));
      var size, mtime := ToUnsigned(|hist[v].content|), hist[v].mtime;
      if stamp.size != size || stamp.mtime.0 != mtime.0 || stamp.mtime.1 != mtime.1 {
        pages, origin := map[], map[];
      }
      stamp := Stamp(size, mtime);
    }

    /** uvfs_revalidate_inode whose getattr reply is current: an error changes nothing; success leaves only pages with
        the bytes a page filled now would get, if the stamps tell. */
    method RevalidateInode(hist: seq<Version>, error: int) returns (ret: int)
      requires cur < |hist| && Valid(hist)
      modifies `stamp, `pages, `origin
      ensures ret == error && Valid(hist)
      ensures if error != 0 then Abs() == old(Abs()) && pages == old(pages)
        else Abs() == Next(hist, old(Abs()), Refresh(cur))
      ensures error == 0 && StampsTell(hist) ==> forall p | p in pages :: pages[p] == Shown(hist[cur], p)
    {
      ret := error;
      if error == 0 {
        RefreshInode(hist, cur);
        CurrentStampFresh(hist, Abs());
      }
    }

    /** uvfs_readpage of the version the server holds. */
    method FillPage(hist: seq<Version>, p: nat, error: int) returns (ret: int)
      requires cur < |hist| && Valid(hist)
      modifies `pages, `origin
      ensures Valid(hist)
      ensures if error < 0 then ret == error && Abs() == old(Abs()) && pages == old(pages)
              else ret == 0 && Abs() == Next(hist, old(Abs()), Fill(p)) && pages == old(pages)[p := Shown(hist[cur], p)]
    {
      NextInv(hist, Abs(), Fill(p));
      var page := new Byte[PAGE](i => 0);
      var uptodate;
      ret, uptodate := ReadPage(page, p, hist[cur].content, error);
      if uptodate {
        pages, origin := pages[p := page[..]], origin[p := cur];
      }
    }
  }
}
