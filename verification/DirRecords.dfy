/** The packed directory records of a readdir reply (protocol.h:467-483) and the cursor of dir.c:534-552 over them. */
module DirRecords {

  import opened Common

  const BUFFSIZE: nat := 2048    // UVFS_BUFFSIZE
  const HEADER: nat := 12        // sizeof(uvfs_dirent_s)
  const MAX_INDEX: int := 0x7fff_ffff
  const WORD_SPAN: int := 0x1_0000_0000

  /** One directory entry. The index leaves room for `index + 1` in an int. */
  datatype Dirent = Dirent(index: nat, ino: nat, name: seq<Byte>) {
    predicate Fits() { index < MAX_INDEX && ino < WORD_SPAN && |name| <= BUFFSIZE }
  }

  /** The number whose bytes, least significant first, are `bs`. */
  function Little(bs: seq<Byte>): nat {
    if bs == [] then 0 else bs[0] as nat + 256 * Little(bs[1..])
  }

  function EncodeWord(w: nat): (r: seq<Byte>)
    requires w < WORD_SPAN
    ensures |r| == 4
  {
    [w % 256, w / 256 % 256, w / 65536 % 256, w / 16777216]
  }

  lemma WordRoundTrip(w: nat)
    requires w < WORD_SPAN
    ensures Little(EncodeWord(w)) == w
  {
    var b := EncodeWord(w);
    assert b[1..][1..] == b[2..] && b[2..][1..] == b[3..] && b[3..][1..] == [];
    assert Little(b[3..]) == b[3];
    assert Little(b[2..]) == b[2] as nat + 256 * Little(b[3..]);
    assert Little(b[1..]) == b[1] as nat + 256 * Little(b[2..]);
    assert w == w % 256 + 256 * (w / 256);
    assert w / 256 == w / 256 % 256 + 256 * (w / 65536);
    assert w / 65536 == w / 65536 % 256 + 256 * (w / 16777216);
  }

  /** The int at an offset of the buffer. */
  function DecodeWord(data: seq<Byte>, off: nat): nat
    requires off + 4 <= |data|
  {
    Little(data[off..off + 4])
  }

  function Round4(n: nat): nat {
    (n + 3) / 4 * 4
  }

  /** Where the record after one at `off` with a name of `len` bytes starts. */
  function After(off: nat, len: nat): nat {
    Round4(off + HEADER + len)
  }

  function Padding(len: nat): (p: seq<Byte>)
    ensures (HEADER + len + |p|) % 4 == 0 && HEADER + len + |p| == Round4(HEADER + len)
  {
    seq(Round4(HEADER + len) - HEADER - len, i => 0)
  }

  function PackOne(e: Dirent): seq<Byte>
    requires e.Fits()
  {
    EncodeWord(|e.name|) + EncodeWord(e.ino) + EncodeWord(e.index) + e.name + Padding(|e.name|)
  }

  ghost predicate AllFit(es: seq<Dirent>) {
    forall i | 0 <= i < |es| :: es[i].Fits()
  }

  /** The records of `es`, each rounded up to four bytes. */
  function Pack(es: seq<Dirent>): seq<Byte>
    requires AllFit(es)
  {
    if es == [] then [] else PackOne(es[0]) + Pack(es[1..])
  }

  /** The record header and the name behind it. */
  function RecordOf(data: seq<Byte>, off: nat): Dirent
    requires off + HEADER <= |data| && off + HEADER + DecodeWord(data, off) <= |data|
  {
    var name := data[off + HEADER..off + HEADER + DecodeWord(data, off)];
    Dirent(DecodeWord(data, off + 8), DecodeWord(data, off + 4), name)
  }

  /** A record for `e` lies at `off`, wholly inside the buffer and aligned. */
  ghost predicate RecordAt(data: seq<Byte>, off: nat, e: Dirent) {
    && off % 4 == 0 && off + HEADER <= |data| && off + HEADER + DecodeWord(data, off) <= |data|
    && RecordOf(data, off) == e
  }

  /** The records from `off` on are those of `es`; what lies between and behind them is arbitrary. */
  ghost predicate Holds(data: seq<Byte>, off: nat, es: seq<Dirent>)
    decreases |es|
  {
    es == [] || (RecordAt(data, off, es[0]) && Holds(data, After(off, |es[0].name|), es[1..]))
  }

  lemma SubSlice(data: seq<Byte>, off: nat, part: seq<Byte>, i: nat, j: nat)
    requires off + |part| <= |data| && data[off..off + |part|] == part && i <= j <= |part|
    ensures data[off + i..off + j] == part[i..j]
  {
    forall k | 0 <= k < j - i ensures data[off + i..off + j][k] == part[i..j][k] {
      assert data[off..off + |part|][i + k] == part[i + k];
    }
  }

  /** The parts of one packed record. */
  ghost predicate Parts(one: seq<Byte>, e: Dirent) {
    && |one| == Round4(HEADER + |e.name|)
    && Little(one[0..4]) == |e.name| && Little(one[4..8]) == e.ino && Little(one[8..12]) == e.index
    && one[HEADER..HEADER + |e.name|] == e.name
  }

  lemma PackOneParts(e: Dirent)
    requires e.Fits()
    ensures Parts(PackOne(e), e)
  {
    var one := PackOne(e);
    WordRoundTrip(|e.name|);
    WordRoundTrip(e.ino);
    WordRoundTrip(e.index);
    assert one[0..4] == EncodeWord(|e.name|) && one[4..8] == EncodeWord(e.ino) && one[8..12] == EncodeWord(e.index);
  }

  lemma PartsRecord(data: seq<Byte>, off: nat, one: seq<Byte>, e: Dirent)
    requires off % 4 == 0 && off + |one| <= |data| && data[off..off + |one|] == one && Parts(one, e)
    ensures RecordAt(data, off, e) && off + |one| == After(off, |e.name|)
  {
    SubSlice(data, off, one, 0, 4);
    SubSlice(data, off, one, 4, 8);
    SubSlice(data, off, one, 8, 12);
    SubSlice(data, off, one, HEADER, HEADER + |e.name|);
  }

  /** A record in front of others. */
  lemma HoldsCons(data: seq<Byte>, off: nat, one: seq<Byte>, rest: seq<Byte>, es: seq<Dirent>)
    requires es != [] && off % 4 == 0 && Parts(one, es[0])
    requires off + |one| + |rest| <= |data| && data[off..off + |one| + |rest|] == one + rest
    ensures (off + |one|) % 4 == 0 && data[off + |one|..off + |one| + |rest|] == rest
    ensures Holds(data, off + |one|, es[1..]) ==> Holds(data, off, es)
  {
    SubSlice(data, off, one + rest, 0, |one|);
    SubSlice(data, off, one + rest, |one|, |one| + |rest|);
    assert (one + rest)[0..|one|] == one && (one + rest)[|one|..|one| + |rest|] == rest;
    PartsRecord(data, off, one, es[0]);
  }

  /** A buffer that contains packed entries at an aligned offset holds exactly those entries there. */
  lemma {:induction false} PackedHolds(data: seq<Byte>, off: nat, es: seq<Dirent>)
    requires AllFit(es) && off % 4 == 0 && off + |Pack(es)| <= |data| && data[off..off + |Pack(es)|] == Pack(es)
    ensures Holds(data, off, es)
    decreases |es|
  {
    if es != [] {
      var one, rest := PackOne(es[0]), Pack(es[1..]);
      PackOneParts(es[0]);
      HoldsCons(data, off, one, rest, es);
      PackedHolds(data, off + |one|, es[1..]);
    }
  }

  /** Every record the cursor dereferences in `n` steps from `off` is aligned and inside the buffer. */
  predicate InBounds(data: seq<Byte>, off: nat, n: nat)
    decreases n
  {
    n == 0 ||
    (&& off % 4 == 0 && off + HEADER <= |data| && off + HEADER + DecodeWord(data, off) <= |data|
     && InBounds(data, After(off, DecodeWord(data, off)), n - 1))
  }

  /** What the cursor reads. */
  function Cursor(data: seq<Byte>, off: nat, n: nat): seq<Dirent>
    requires InBounds(data, off, n)
    decreases n
  {
    if n == 0 then []
    else [RecordOf(data, off)] + Cursor(data, After(off, DecodeWord(data, off)), n - 1)
  }

  /** The cursor stays aligned and in bounds on a buffer that holds `es`, and reads exactly `es`. */
  lemma {:induction false} CursorRecovers(data: seq<Byte>, off: nat, es: seq<Dirent>)
    requires Holds(data, off, es)
    ensures InBounds(data, off, |es|) && Cursor(data, off, |es|) == es
    decreases |es|
  {
    if es != [] {
      assert RecordAt(data, off, es[0]);
      CursorRecovers(data, After(off, |es[0].name|), es[1..]);
      assert es == [es[0]] + es[1..];
    }
  }

  /** Records round-trip: whatever list the server packs at the start of the data buffer, and whatever lies behind it,
      the cursor recovers that list. */
  lemma PackRoundTrip(es: seq<Dirent>, data: seq<Byte>)
    requires AllFit(es) && Pack(es) <= data
    ensures InBounds(data, 0, |es|) && Cursor(data, 0, |es|) == es
  {
    PackedHolds(data, 0, es);
    CursorRecovers(data, 0, es);
  }

  /** The address computation of lines 548-551, on a buffer whose address is a multiple of four, is the offset
      computation. */
  lemma AddressIsOffset(base: nat, off: nat, len: nat)
    requires base % 4 == 0
    ensures (base + off + HEADER + len + 3) / 4 * 4 == base + After(off, len)
  {
  }
}
