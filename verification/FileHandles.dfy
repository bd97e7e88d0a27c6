/** Exported file handles: uvfs_encode_fh and its decoders (super.c:285-385). */
module FileHandles {
  import opened Handles
  import opened InodeCache

  const INVALID_TYPE: int := 255

  /** What an encoded handle amounts to: its type and its words. */
  datatype Encoded = Refused | Encoded(kind: int, words: seq<Word>)

  /** The file handle of `node`, whose dentry lies in a directory `parent`, for a buffer of `maxLen` words. */
  function Encode(node: Handle, isDir: bool, parent: Handle, maxLen: int, connectable: bool): Encoded {
    if maxLen < 3 || (connectable && maxLen < 5) then Refused
    else if connectable && !isDir then Encoded(2, [node.aruid, node.sfuid, node.sbxid, parent.sfuid, parent.sbxid])
    else Encoded(1, [node.aruid, node.sfuid, node.sbxid])
  }

  /** uvfs_encode_fh, into the caller's buffer. Words beyond the returned length are left alone. */
  method EncodeFh(fh: array<Word>, node: Handle, isDir: bool, parent: Handle, maxLen: int, connectable: bool)
      returns (kind: int, len: int)
    requires maxLen <= fh.Length
    modifies fh
    ensures var e := Encode(node, isDir, parent, maxLen, connectable);
      if e.Refused? then kind == INVALID_TYPE && len == maxLen && fh[..] == old(fh[..])
      else kind == e.kind && len == |e.words| <= fh.Length && fh[..len] == e.words && fh[len..] == old(fh[len..])
    ensures kind == (if maxLen < 3 || (connectable && maxLen < 5) then 255 else if connectable && !isDir then 2 else 1)
    ensures kind == 1 || kind == 2 ==> fh[0] == node.aruid && fh[1] == node.sfuid && fh[2] == node.sbxid
    ensures kind == 2 ==> len == 5 && fh[3] == parent.sfuid && fh[4] == parent.sbxid
    ensures kind == 1 ==> len == 3
  {
    len := maxLen;
    if len < 3 || (connectable && len < 5) {
      return INVALID_TYPE, len;
    }
    len, kind := 3, 1;
    fh[0] := node.aruid;
    fh[1] := node.sfuid;
    fh[2] := node.sbxid;
    if connectable && !isDir {
      fh[3] := parent.sfuid;
      fh[4] := parent.sbxid;
      len, kind := 5, 2;
    }
  }

  /** uvfs_fh_to_dentry, as far as the handle it asks uvfs_get_dentry for. */
  function FhToDentry(raw: seq<Word>, kind: int): Option<Handle> {
    if |raw| < 3 || kind > 2 then None else Some(BareHandle(Key(raw[0], raw[1], raw[2])))
  }

  /** uvfs_fh_to_parent. */
  function FhToParent(raw: seq<Word>, kind: int): Option<Handle> {
    if |raw| < 5 || kind != 2 then None else Some(BareHandle(Key(raw[0], raw[3], raw[4])))
  }

  /** uvfs_decode_fh of older kernels: both handles at once. It trusts the length that goes with the type. */
  function DecodeFh(raw: seq<Word>, kind: int): Option<(Handle, Option<Handle>)>
    requires kind == 1 ==> |raw| >= 3
    requires kind == 2 ==> |raw| >= 5
  {
    if kind == 2 then Some((BareHandle(Key(raw[0], raw[1], raw[2])), Some(BareHandle(Key(raw[0], raw[3], raw[4])))))
    else if kind == 1 then Some((BareHandle(Key(raw[0], raw[1], raw[2])), None))
    else None
  }

  /** Decoding what was encoded gives a handle with the key of the inode. A parent comes back exactly for a connectable
      non-directory, and it has the key of the real parent exactly when that shares the archive id, which is sent only
      once. */
  lemma HandleRoundTrip(node: Handle, isDir: bool, parent: Handle, maxLen: int, connectable: bool)
    ensures var e := Encode(node, isDir, parent, maxLen, connectable);
      && (e.Refused? <==> maxLen < 3 || (connectable && maxLen < 5))
      && (e.Encoded? ==>
            && |e.words| <= maxLen
            && FhToDentry(e.words, e.kind).Some? && KeyOf(FhToDentry(e.words, e.kind).value) == KeyOf(node)
            && (FhToParent(e.words, e.kind).Some? <==> connectable && !isDir)
            && (FhToParent(e.words, e.kind).Some? ==>
                  (KeyOf(FhToParent(e.words, e.kind).value) == KeyOf(parent) <==> parent.aruid == node.aruid)))
  {
  }

  /** The two generations of decoders agree on a handle exactly when its type is at least 1; types below 1
      only the newer one takes. */
  lemma DecodersAgreeExactly(raw: seq<Word>, kind: int)
    requires |raw| >= 5 || (|raw| >= 3 && kind != 2)
    ensures (DecodeFh(raw, kind) ==
             (if FhToDentry(raw, kind).None? then None else Some((FhToDentry(raw, kind).value, FhToParent(raw, kind)))))
            <==> kind >= 1
  {
  }

  /** What a server of exported handles does with one: encode the handle of a cached inode, decode it, look it up. While
      the inode is cached this gives back that very inode, and asks nobody. */
  method Resolve(cache: Cache, node: Handle, isDir: bool, parent: Handle, connectable: bool, error: int, a: Attr)
      returns (r: Found)
    requires cache.Valid() && KeyOf(node) in cache.index
    modifies cache
    ensures cache.Valid() && cache.index == old(cache.index) && r == At(cache.index[KeyOf(node)])
  {
    var buffer := new Word[5](i => 0);
    var kind, len := EncodeFh(buffer, node, isDir, parent, 5, connectable);
    HandleRoundTrip(node, isDir, parent, 5, connectable);
    var handle := FhToDentry(buffer[..len], kind);
    r := cache.GetDentry(handle.value, error, a, false, 0);
  }
}
