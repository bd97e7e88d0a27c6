/** File handles (protocol.h:75-84) and the comparison that says when two name the same file (super.c:125-135). */
module Handles {
  type Word = w: int | 0 <= w < 0x1_0000_0000

  datatype Option<T> = None | Some(value: T)

  datatype Handle = Handle(
    mntid: Word, flags: Word, ipaddr: Word, aruid: Word, nodeSbxid: Word, sbxid: Word, sfuid: Word, blank: Word)

  datatype Key = Key(aruid: Word, sfuid: Word, sbxid: Word)

  function KeyOf(h: Handle): Key {
    Key(h.aruid, h.sfuid, h.sbxid)
  }

  /** uvfs_compare_inode. */
  predicate Compare(a: Handle, b: Handle) {
    a.aruid == b.aruid && a.sfuid == b.sfuid && a.sbxid == b.sbxid
  }

  /** The value uvfs_iget and uvfs_get_dentry hash by. */
  function HashOf(h: Handle): Word {
    h.sfuid
  }

  /** memset to zero, then the three fields of the key. */
  function BareHandle(k: Key): Handle {
    Handle(0, 0, 0, k.aruid, 0, k.sbxid, k.sfuid, 0)
  }

  /** The comparison is equality of keys, so an equivalence, and handles it identifies hash alike. */
  lemma CompareIsKeyEquality(a: Handle, b: Handle, c: Handle)
    ensures Compare(a, b) <==> KeyOf(a) == KeyOf(b)
    ensures Compare(a, a) && (Compare(a, b) ==> Compare(b, a)) && (Compare(a, b) && Compare(b, c) ==> Compare(a, c))
    ensures Compare(a, b) ==> HashOf(a) == HashOf(b)
    ensures forall k :: KeyOf(BareHandle(k)) == k
    ensures forall k :: BareHandle(k) == Handle(0, 0, 0, k.aruid, 0, k.sbxid, k.sfuid, 0)
  {
  }
}
