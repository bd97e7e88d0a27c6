/** Page-wise file I/O (file.c): uvfs_writepage, uvfs_readpage and the chunks of a write through uvfs_write_begin,
    uvfs_write_end and uvfs_commit_write, against a flat sequence of bytes. */
module FilePages {
  import opened Common

  const PAGE: int := 4096              // PAGE_CACHE_SIZE
  const U32: int := 0x1_0000_0000
  const MAX_BYTES: int := 0xffff_ffff  // s_maxbytes, super.c:641

  /** Conversion to `unsigned` and to `int`. */
  function ToUnsigned(n: int): int { n % U32 }
  function ToInt(n: int): int { (n + 0x8000_0000) % U32 - 0x8000_0000 }

  lemma NoWrap(n: int)
    requires 0 <= n <= MAX_BYTES
    ensures ToUnsigned(n) == n
  {
  }

  function Max(a: int, b: int): int { if a < b then b else a }
  function Min(a: int, b: int): int { if a < b then a else b }

  function ByteAt(content: seq<Byte>, i: int): Byte {
    if 0 <= i < |content| then content[i] else 0
  }

  function Zeros(n: nat): (r: seq<Byte>)
    ensures |r| == n && forall i | 0 <= i < n :: r[i] == 0
  {
    if n == 0 then [] else Zeros(n - 1) + [0]
  }

  function Pad(content: seq<Byte>, n: nat): seq<Byte> {
    if |content| < n then content + Zeros(n - |content|) else content
  }

  /** One byte written at a position; a gap behind the end reads as zeros. */
  function Poke(content: seq<Byte>, i: nat, b: Byte): (r: seq<Byte>)
    ensures |r| == Max(|content|, i + 1)
    ensures forall j | 0 <= j < |r| :: r[j] == if j == i then b else ByteAt(content, j)
  {
    Pad(content, i + 1)[i := b]
  }

  /** The server's content after a write of `data` at `off`, byte by byte; a write of nothing changes nothing. */
  function Splice(content: seq<Byte>, off: nat, data: seq<Byte>): (r: seq<Byte>)
    ensures |r| == if data == [] then |content| else Max(|content|, off + |data|)
    decreases |data|
  {
    if data == [] then content else Splice(Poke(content, off, data[0]), off + 1, data[1..])
  }

  lemma {:induction false} SpliceAt(content: seq<Byte>, off: nat, data: seq<Byte>, i: nat)
    requires i < |Splice(content, off, data)|
    ensures Splice(content, off, data)[i] == if off <= i < off + |data| then data[i - off] else ByteAt(content, i)
    decreases |data|
  {
    if data != [] {
      SpliceAt(Poke(content, off, data[0]), off + 1, data[1..], i);
    }
  }

  /** Two adjacent writes are one. */
  lemma {:induction false} SpliceTwice(content: seq<Byte>, off: nat, a: seq<Byte>, b: seq<Byte>)
    ensures Splice(Splice(content, off, a), off + |a|, b) == Splice(content, off, a + b)
    decreases |a|
  {
    if a == [] {
      assert a + b == b;
    } else {
      assert (a + b)[0] == a[0] && (a + b)[1..] == a[1..] + b;
      SpliceTwice(Poke(content, off, a[0]), off + 1, a[1..], b);
    }
  }

  lemma SpliceMore(content: seq<Byte>, off: nat, data: seq<Byte>, done: nat, len: nat)
    requires done + len <= |data|
    ensures Splice(Splice(content, off, data[..done]), off + done, data[done..done + len]) ==
      Splice(content, off, data[..done + len])
  {
    SpliceTwice(content, off, data[..done], data[done..done + len]);
    assert data[..done] + data[done..done + len] == data[..done + len];
  }

  // ---------------------------------------------------------------- writing pages back

  datatype Request = Skip | Send(offset: int, count: int)

  /** The request of uvfs_writepage for page `index` of a file of `size` bytes. */
  function PageRequest(size: nat, index: nat): Request {
    var endIndex := ToUnsigned(size / PAGE);
    if index < endIndex then Send(ToUnsigned(index * PAGE), PAGE)
    else
      var count := ToUnsigned(size % PAGE);
      if index > endIndex || count == 0 then Skip else Send(ToUnsigned(index * PAGE), count)
  }

  predicate Covers(r: Request, b: int) {
    r.Send? && r.offset <= b < r.offset + r.count
  }

  /** For every size the mount allows, the request for a page covers exactly the bytes of the file in that page, without
      32-bit wrap. */
  lemma PageRequestExact(size: nat, index: nat)
    requires size <= MAX_BYTES
    ensures PageRequest(size, index) ==
      if index * PAGE < size then Send(index * PAGE, Min(PAGE, size - index * PAGE)) else Skip
  {
  }

  /** Writing back all pages sends each byte of the file exactly once, in the request of its own page, and no other
      byte. */
  lemma EachByteSentOnce(size: nat, b: int, index: nat)
    requires size <= MAX_BYTES
    ensures Covers(PageRequest(size, index), b) <==> 0 <= b < size && index == b / PAGE
  {
    PageRequestExact(size, index);
  }

  ghost predicate FullPages(pages: seq<seq<Byte>>) {
    forall i | 0 <= i < |pages| :: |pages[i]| == PAGE
  }

  /** The byte the pages of a file show at a position. */
  function PagesByte(pages: seq<seq<Byte>>, b: nat): Byte {
    if b / PAGE < |pages| then ByteAt(pages[b / PAGE], b % PAGE) else 0
  }

  /** The server holds what the pages show, up to `n`. */
  ghost predicate WrittenBack(content: seq<Byte>, pages: seq<seq<Byte>>, n: int) {
    n <= |content| && forall b | 0 <= b < n :: content[b] == PagesByte(pages, b)
  }

  lemma InPage(pages: seq<seq<Byte>>, i: nat, b: nat)
    requires FullPages(pages) && i < |pages| && i * PAGE <= b < i * PAGE + PAGE
    ensures PagesByte(pages, b) == pages[i][b - i * PAGE]
  {
    assert b / PAGE == i;
  }

  lemma BackStep(content: seq<Byte>, pages: seq<seq<Byte>>, i: nat, size: nat)
    requires FullPages(pages) && i < |pages| && |content| <= size && WrittenBack(content, pages, Min(i * PAGE, size))
    ensures var content' :=
        if i * PAGE < size then Splice(content, i * PAGE, pages[i][..Min(PAGE, size - i * PAGE)]) else content;
      |content'| <= size && WrittenBack(content', pages, Min((i + 1) * PAGE, size))
  {
    if i * PAGE < size {
      var data := pages[i][..Min(PAGE, size - i * PAGE)];
      var content' := Splice(content, i * PAGE, data);
      forall b | 0 <= b < Min((i + 1) * PAGE, size) ensures content'[b] == PagesByte(pages, b) {
        SpliceAt(content, i * PAGE, data, b);
        if i * PAGE <= b {
          InPage(pages, i, b);
        }
      }
    }
  }

  // ---------------------------------------------------------------- reading pages

  /** The bytes of the content from `offset` on that fill a page, zeros where it has none. */
  function PageFrom(content: seq<Byte>, offset: int): (r: seq<Byte>)
    ensures |r| == PAGE && forall k | 0 <= k < PAGE :: r[k] == ByteAt(content, offset + k)
  {
    seq<Byte>(PAGE, k => ByteAt(content, offset + k))
  }

  /** Page `index` of the content. */
  function PageOf(content: seq<Byte>, index: nat): (r: seq<Byte>)
    ensures |r| == PAGE
  {
    PageFrom(content, index * PAGE)
  }

  /** Bytes read through pages are the bytes of the file, zero-padded. */
  lemma PageBytes(content: seq<Byte>, b: nat)
    ensures PageOf(content, b / PAGE)[b % PAGE] == ByteAt(content, b)
  {
    assert b == b / PAGE * PAGE + b % PAGE;
  }

  /** What the server returns to a read request; it has nothing at a negative offset. */
  function ServerRead(content: seq<Byte>, offset: int, count: nat): (r: seq<Byte>)
    ensures |r| <= count
  {
    if 0 <= offset <= |content| then content[offset..Min(|content|, offset + count)] else []
  }

  /** The offset uvfs_readpage asks for is that of the page exactly below 2^31, among the pages the mount allows. */
  lemma ReadOffsetExact(index: nat)
    requires index * PAGE <= MAX_BYTES
    ensures ToInt(index * PAGE) == index * PAGE <==> index * PAGE < 0x8000_0000
  {
  }

  /** What uvfs_readpage puts in page `index`: the bytes at the offset that the `int` of the request holds. */
  function PageRead(content: seq<Byte>, index: nat): (r: seq<Byte>)
    ensures |r| == PAGE && (index * PAGE < 0x8000_0000 ==> r == PageOf(content, index))
  {
    PageFrom(content, ToInt(index * PAGE))
  }

  /** Offsets are multiples of the page size, so a negative one leaves the whole page before the file, and no page
      reaches beyond 2^31. */
  lemma WholePages(index: nat)
    ensures ToInt(index * PAGE) < 0 ==> ToInt(index * PAGE) + PAGE <= 0
    ensures ToInt(index * PAGE) + PAGE <= 0x8000_0000
  {
    var n := index * PAGE + 0x8000_0000;
    var q := n / U32;
    assert ToInt(index * PAGE) == (index - q * 0x10_0000) * PAGE;
  }

  /** Among the pages the mount allows, a page read is the file's page exactly below offset 2^31, or where the file
      holds nothing but zeros: beyond, the request's offset is negative and the page comes back empty. */
  lemma PageReadExact(content: seq<Byte>, index: nat)
    requires index * PAGE <= MAX_BYTES
    ensures PageRead(content, index) == PageOf(content, index) <==>
      index * PAGE < 0x8000_0000 || forall b | index * PAGE <= b < index * PAGE + PAGE :: ByteAt(content, b) == 0
  {
    ReadOffsetExact(index);
    WholePages(index);
    var page := PageOf(content, index);
    if index * PAGE >= 0x8000_0000 {
      assert forall k | 0 <= k < PAGE :: PageRead(content, index)[k] == 0;
      if PageRead(content, index) == page {
        forall b | index * PAGE <= b < index * PAGE + PAGE ensures ByteAt(content, b) == 0 {
          assert page[b - index * PAGE] == ByteAt(content, b);
        }
      }
    }
  }

  /** uvfs_readpage into the page buffer, for every page. The page holds the file's bytes if its offset is below 2^31.
      On an error it is left alone. */
  method ReadPage(page: array<Byte>, index: nat, content: seq<Byte>, error: int) returns (ret: int, uptodate: bool)
    requires page.Length == PAGE
    modifies page
    ensures if error < 0 then ret == error && !uptodate && page[..] == old(page[..])
            else ret == 0 && uptodate && page[..] == PageRead(content, index)
  {
    if error < 0 {
      return error, false;
    }
    WholePages(index);
    var reply := ServerRead(content, ToInt(index * PAGE), PAGE);
    forall i | 0 <= i < |reply| {
      page[i] := reply[i];
    }
    if |reply| < PAGE {
      forall i | |reply| <= i < PAGE {
        page[i] := 0;
      }
    }
    return 0, true;
  }

  // ---------------------------------------------------------------- the file

  /** How much of a write at `pos` with `left` bytes to go fits in the page. */
  function ChunkLength(pos: nat, left: nat): (n: nat)
    requires left > 0
    ensures 0 < n <= left && pos % PAGE + n <= PAGE
  {
    Min(PAGE - pos % PAGE, left)
  }

  function SpliceAll(content: seq<Byte>, writes: seq<(nat, seq<Byte>)>): seq<Byte>
    decreases |writes|
  {
    if writes == [] then content else SpliceAll(Splice(content, writes[0].0, writes[0].1), writes[1..])
  }

  /** A write of some bytes at `off` covers position `i`. */
  predicate Hits(w: (nat, seq<Byte>), i: nat) {
    w.0 <= i < w.0 + |w.1|
  }

  lemma {:induction false} UntouchedByte(content: seq<Byte>, writes: seq<(nat, seq<Byte>)>, i: nat)
    requires forall m | 0 <= m < |writes| :: !Hits(writes[m], i)
    ensures ByteAt(SpliceAll(content, writes), i) == ByteAt(content, i)
    decreases |writes|
  {
    if writes != [] {
      var w, rest := writes[0], writes[1..];
      assert !Hits(w, i);
      assert forall m | 0 <= m < |rest| :: rest[m] == writes[m + 1];
      SpliceByte(content, w, i);
      UntouchedByte(Splice(content, w.0, w.1), rest, i);
    }
  }

  lemma SpliceByte(content: seq<Byte>, w: (nat, seq<Byte>), i: nat)
    ensures ByteAt(Splice(content, w.0, w.1), i) == if Hits(w, i) then w.1[i - w.0] else ByteAt(content, i)
  {
    if i < |Splice(content, w.0, w.1)| {
      SpliceAt(content, w.0, w.1, i);
    }
  }

  /** After a run of writes every byte written is that of the last write that covers it. */
  lemma {:induction false} LastWriteWins(content: seq<Byte>, writes: seq<(nat, seq<Byte>)>, k: nat, i: nat)
    requires k < |writes| && Hits(writes[k], i) && forall m | k < m < |writes| :: !Hits(writes[m], i)
    ensures ByteAt(SpliceAll(content, writes), i) == writes[k].1[i - writes[k].0]
    decreases |writes|
  {
    var w, rest := writes[0], writes[1..];
    var content' := Splice(content, w.0, w.1);
    assert forall m | 0 <= m < |rest| :: rest[m] == writes[m + 1];
    if k == 0 {
      SpliceByte(content, w, i);
      UntouchedByte(content', rest, i);
    } else {
      LastWriteWins(content', rest, k - 1, i);
    }
  }

  /** The file reaches as far as it did or as the farthest nonempty write. */
  lemma {:induction false} RunReaches(content: seq<Byte>, writes: seq<(nat, seq<Byte>)>, n: nat)
    ensures |SpliceAll(content, writes)| <= n <==>
      |content| <= n && forall k | 0 <= k < |writes| && writes[k].1 != [] :: writes[k].0 + |writes[k].1| <= n
    decreases |writes|
  {
    if writes != [] {
      var w, rest := writes[0], writes[1..];
      RunReaches(Splice(content, w.0, w.1), rest, n);
      assert forall k | 1 <= k < |writes| :: writes[k] == rest[k - 1];
      assert forall m | 0 <= m < |rest| :: rest[m] == writes[m + 1];
    }
  }

  lemma PagePosition(pos: nat)
    ensures pos / PAGE * PAGE + pos % PAGE == pos
  {
  }

  /** memset of a part of a page to zero. */
  method Clear(page: array<Byte>, from: nat, to: nat)
    requires from <= to <= page.Length
    modifies page
    ensures page[..from] == old(page[..from]) && page[from..to] == Zeros(to - from) && page[to..] == old(page[to..])
  {
    forall i | from <= i < to {
      page[i] := 0;
    }
  }

  /** `i_size` and the server agree after a commit exactly when something was written or nothing was raised: a refused
      or an empty commit beyond the end leaves `i_size` too large. */
  lemma CommitSizeExactly(content: seq<Byte>, start: nat, data: seq<Byte>, error: int)
    ensures var content' := if error == 0 then Splice(content, start, data) else content;
      Max(|content|, start + |data|) == |content'| <==> (error == 0 && data != []) || start + |data| <= |content|
  {
  }

  class File {
    var isize: int           // i_size of the inode
    var server: seq<Byte>    // the content the server holds

    /** uvfs_write of the bytes `data` to `offset` on the server. */
    method Write(data: seq<Byte>, offset: int, error: int) returns (ret: int)
      requires 0 <= offset
      modifies `server
      ensures ret == error
      ensures server == if error == 0 then Splice(old(server), offset, data) else old(server)
    {
      if error == 0 {
        server := Splice(server, offset, data);
      }
      ret := error;
    }

    /** uvfs_writepage of a page that shows `page`. */
    method WritePage(page: seq<Byte>, index: nat, error: int) returns (ret: int)
      requires |page| == PAGE && 0 <= isize <= MAX_BYTES
      modifies `server
      ensures index * PAGE >= isize ==> ret == 0 && server == old(server)
      ensures index * PAGE < isize ==> ret == error
      ensures index * PAGE < isize ==>
        server ==
          if error == 0 then Splice(old(server), index * PAGE, page[..Min(PAGE, isize - index * PAGE)]) else old(server)
    {
      PageRequestExact(isize, index);
      var endIndex := ToUnsigned(isize / PAGE);
      var count := PAGE;
      if index >= endIndex {
        count := isize % PAGE;
        if index > endIndex || count == 0 {
          return 0;
        }
      }
      NoWrap(index * PAGE);
      ret := Write(page[..count], ToUnsigned(index * PAGE), error);
    }

    /** One pass of write-back over all pages of the file, every request succeeding. The server then holds exactly
        what the pages show. */
    method WriteBack(pages: seq<seq<Byte>>)
      requires 0 <= isize <= MAX_BYTES && |server| <= isize <= |pages| * PAGE && FullPages(pages)
      modifies `server
      ensures |server| == isize && forall b | 0 <= b < isize :: server[b] == PagesByte(pages, b)
    {
      for i := 0 to |pages|
        invariant |server| <= isize && WrittenBack(server, pages, Min(i * PAGE, isize))
      {
        BackStep(server, pages, i, isize);
        var ret := WritePage(pages[i], i, 0);
      }
    }

    /** uvfs_commit_write of the bytes [offset, to) of page `index`. It raises `i_size` even when the server refused the
        write. */
    method CommitWrite(page: array<Byte>, index: nat, offset: nat, to: nat, error: int) returns (ret: int)
      requires page.Length == PAGE && offset <= to <= PAGE && index * PAGE + to <= MAX_BYTES
      modifies this
      ensures ret == error && isize == Max(old(isize), index * PAGE + to)
      ensures server == if error == 0 then Splice(old(server), index * PAGE + offset, page[offset..to]) else old(server)
    {
      var start := index * PAGE;
      NoWrap(start + offset);
      ret := Write(page[offset..to], ToUnsigned(start + offset), error);
      var pos := start + to;
      if pos > isize {
        isize := pos;
      }
    }

    /** Lines 255-263 for the bytes of page `index` from `from` on. */
    method EndCopy(page: array<Byte>, index: nat, from: nat, len: nat, copied: nat, error: int)
      requires page.Length == PAGE && copied <= len && from + len <= PAGE && index * PAGE + from + copied <= MAX_BYTES
      modifies this, page
      ensures isize == Max(old(isize), index * PAGE + from + copied)
      ensures server ==
        if error == 0 then Splice(old(server), index * PAGE + from, old(page[from..from + copied])) else old(server)
      ensures page[..from + copied] == old(page[..from + copied]) && page[from + len..] == old(page[from + len..])
      ensures page[from + copied..from + len] == Zeros(len - copied)
    {
      ghost var bytes := page[from..from + copied];
      if copied < len {
        Clear(page, from + copied, from + len);
        assert page[from..from + copied] == page[..from + copied][from..];
      }
      assert page[from..from + copied] == bytes;
      var r := CommitWrite(page, index, from, from + copied, error);
    }

    /** uvfs_write_end: a short copy zeroes the part of the page not copied; the copied part is committed, and the
        answer is its length whatever the server said. */
    method WriteEnd(page: array<Byte>, pos: nat, len: nat, copied: nat, error: int) returns (ret: int)
      requires page.Length == PAGE && copied <= len && pos % PAGE + len <= PAGE && pos + copied <= MAX_BYTES
      modifies this, page
      ensures ret == copied && isize == Max(old(isize), pos + copied)
      ensures server ==
        if error == 0 then Splice(old(server), pos, old(page[pos % PAGE..pos % PAGE + copied])) else old(server)
      ensures var from := pos % PAGE;
        && page[..from + copied] == old(page[..from + copied]) && page[from + len..] == old(page[from + len..])
        && page[from + copied..from + len] == Zeros(len - copied)
    {
      var index, from := pos / PAGE, pos % PAGE;
      PagePosition(pos);
      EndCopy(page, index, from, len, copied, error);
      ret := copied;
    }

    /** One page chunk of a write, copied in full and accepted: uvfs_write_begin gives a page, the kernel copies the
        bytes into it, uvfs_write_end sends them. */
    method WriteChunk(pos: nat, chunk: seq<Byte>)
      requires isize == |server| && chunk != [] && pos % PAGE + |chunk| <= PAGE && pos + |chunk| <= MAX_BYTES
      modifies this
      ensures server == Splice(old(server), pos, chunk) && isize == |server|
    {
      var from := pos % PAGE;
      var page := new Byte[PAGE](i => 0);
      forall i | from <= i < from + |chunk| {
        page[i] := chunk[i - from];
      }
      assert page[from..from + |chunk|] == chunk;
      var copied := WriteEnd(page, pos, |chunk|, |chunk|, 0);
    }

    /** A write system call, cut by the kernel into page chunks: the server ends with the flat splice. */
    method WriteFile(pos: nat, data: seq<Byte>)
      requires isize == |server| && pos + |data| <= MAX_BYTES
      modifies this
      ensures server == Splice(old(server), pos, data) && isize == |server|
    {
      var done := 0;
      while done < |data|
        invariant done <= |data| && isize == |server| && server == Splice(old(server), pos, data[..done])
      {
        var len := ChunkLength(pos + done, |data| - done);
        WriteChunk(pos + done, data[done..done + len]);
        SpliceMore(old(server), pos, data, done, len);
        done := done + len;
      }
      assert data[..done] == data;
    }

    /** Any run of writes leaves the server with the flat splices of all of them, and `i_size` with its length. */
    method WriteRun(writes: seq<(nat, seq<Byte>)>)
      requires isize == |server| && forall i | 0 <= i < |writes| :: writes[i].0 + |writes[i].1| <= MAX_BYTES
      modifies this
      ensures server == SpliceAll(old(server), writes) && isize == |server|
    {
      for i := 0 to |writes|
        invariant isize == |server| && SpliceAll(server, writes[i..]) == SpliceAll(old(server), writes)
      {
        assert writes[i..][0] == writes[i] && writes[i..][1..] == writes[i + 1..];
        WriteFile(writes[i].0, writes[i].1);
      }
    }
  }
}
