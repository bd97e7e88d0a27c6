/** The inode cache behind uvfs_iget and uvfs_get_dentry (super.c:125-212, 437-518): hash chains searched with
    uvfs_compare_inode, against a plain map from (aruid, sfuid, sbxid) to the inode. */
module InodeCache {
  import opened Common
  import opened Handles

  type InodeId = nat

  /** The attributes of an inode that a refresh replaces. */
  datatype Attr = Attr(mode: nat, nlink: nat, uid: nat, gid: nat, size: nat, mtime: (nat, nat), ctime: (nat, nat))

  /** An inode as its chain has it: the handle is the one it was first seen with. */
  datatype Node = Node(id: InodeId, fh: Handle)

  datatype Found = Missing | At(node: Node) | Failed(error: int)

  /** The nodes of one chain have different keys. */
  ghost predicate Distinct(chain: seq<Node>) {
    forall i, j | 0 <= i < j < |chain| :: KeyOf(chain[i].fh) != KeyOf(chain[j].fh)
  }

  type Chains = map<nat, seq<Node>>

  ghost predicate Indexed(bucket: Word -> nat, index: map<Key, Node>, b: nat, n: Node) {
    bucket(HashOf(n.fh)) == b && KeyOf(n.fh) in index && index[KeyOf(n.fh)] == n
  }

  /** Every node lies where the hash of its handle says and is the inode the plain map has for its key. */
  ghost predicate AllIndexed(bucket: Word -> nat, chains: Chains, index: map<Key, Node>) {
    forall b, i | b in chains && 0 <= i < |chains[b]| :: Indexed(bucket, index, b, chains[b][i])
  }

  ghost predicate Has(chain: seq<Node>, k: Key) {
    exists i :: 0 <= i < |chain| && KeyOf(chain[i].fh) == k
  }

  /** Every key of the plain map is on the chain it hashes to. */
  ghost predicate AllChained(bucket: Word -> nat, chains: Chains, index: map<Key, Node>) {
    forall k | k in index :: bucket(k.sfuid) in chains && Has(chains[bucket(k.sfuid)], k)
  }

  /** The chains hold each inode of the plain map once and nothing else. */
  ghost predicate Implements(bucket: Word -> nat, chains: Chains, index: map<Key, Node>) {
    && (forall b | b in chains :: Distinct(chains[b]))
    && AllIndexed(bucket, chains, index)
    && AllChained(bucket, chains, index)
  }

  function ChainAt(chains: Chains, b: nat): seq<Node> {
    if b in chains then chains[b] else []
  }

  lemma InsertImplements(bucket: Word -> nat, chains: Chains, index: map<Key, Node>, n: Node)
    requires Implements(bucket, chains, index) && KeyOf(n.fh) !in index
    ensures var b := bucket(HashOf(n.fh));
      Implements(bucket, chains[b := ChainAt(chains, b) + [n]], index[KeyOf(n.fh) := n])
  {
    var b := bucket(HashOf(n.fh));
    var chain := ChainAt(chains, b);
    var chains', index' := chains[b := chain + [n]], index[KeyOf(n.fh) := n];
    assert forall i | 0 <= i < |chain| :: Indexed(bucket, index, b, chain[i]);
    forall k | k in index' ensures bucket(k.sfuid) in chains' && Has(chains'[bucket(k.sfuid)], k) {
      var c := bucket(k.sfuid);
      if k == KeyOf(n.fh) {
        assert KeyOf(chains'[b][|chain|].fh) == k;
      } else {
        assert Has(chains[c], k);
        var i :| 0 <= i < |chains[c]| && KeyOf(chains[c][i].fh) == k;
        assert KeyOf(chains'[c][i].fh) == k;
      }
    }
  }

  function Cut(chain: seq<Node>, i: nat): seq<Node>
    requires i < |chain|
  {
    chain[..i] + chain[i + 1..]
  }

  lemma CutKeeps(chain: seq<Node>, i: nat, k: Key)
    requires Distinct(chain) && i < |chain|
    ensures Distinct(Cut(chain, i))
    ensures Has(Cut(chain, i), k) <==> Has(chain, k) && k != KeyOf(chain[i].fh)
  {
    var cut := Cut(chain, i);
    assert forall j | 0 <= j < |cut| :: cut[j] == chain[if j < i then j else j + 1];
    if Has(chain, k) && k != KeyOf(chain[i].fh) {
      var j :| 0 <= j < |chain| && KeyOf(chain[j].fh) == k;
      assert KeyOf(cut[if j < i then j else j - 1].fh) == k;
    }
    if Has(cut, k) {
      var j :| 0 <= j < |cut| && KeyOf(cut[j].fh) == k;
      assert KeyOf(chain[if j < i then j else j + 1].fh) == k;
    }
  }

  lemma EvictImplements(bucket: Word -> nat, chains: Chains, index: map<Key, Node>, b: nat, i: nat)
    requires Implements(bucket, chains, index) && b in chains && i < |chains[b]|
    ensures Implements(bucket, chains[b := Cut(chains[b], i)], index - {KeyOf(chains[b][i].fh)})
  {
    var k, cut := KeyOf(chains[b][i].fh), Cut(chains[b], i);
    var chains', index' := chains[b := cut], index - {k};
    assert Indexed(bucket, index, b, chains[b][i]);
    CutKeeps(chains[b], i, k);
    forall c, j | c in chains' && 0 <= j < |chains'[c]| ensures Indexed(bucket, index', c, chains'[c][j]) {
      if c == b {
        assert chains'[c][j] == chains[b][if j < i then j else j + 1];
        assert !Has(cut, k);
      }
      var n := chains'[c][j];
      assert Indexed(bucket, index, c, n);
    }
    forall l | l in index' ensures bucket(l.sfuid) in chains' && Has(chains'[bucket(l.sfuid)], l) {
      CutKeeps(chains[b], i, l);
    }
  }

  class Cache {
    const bucket: Word -> nat              // the kernel's choice of chain for a hash value
    var chains: Chains
    var attr: map<InodeId, Attr>
    var nextId: InodeId
    ghost var index: map<Key, Node>     // the plain map the chains implement

    ghost predicate Valid()
      reads this
    {
      && Implements(bucket, chains, index)
      && (forall k | k in index :: index[k].id < nextId && KeyOf(index[k].fh) == k)
      && (forall k, l | k in index && l in index && index[k].id == index[l].id :: k == l)
    }

    constructor (bucket: Word -> nat)
      ensures Valid() && index == map[]
    {
      this.bucket := bucket;
      chains, attr, nextId, index := map[], map[], 0, map[];
    }

    /** ilookup5 with uvfs_compare_inode: walk the one chain the hash of the handle selects. It finds exactly the inode
        the plain map has for the key. */
    method Lookup(fh: Handle) returns (r: Found)
      requires Valid()
      ensures r == if KeyOf(fh) in index then At(index[KeyOf(fh)]) else Missing
    {
      var b := bucket(HashOf(fh));
      if b in chains {
        for i := 0 to |chains[b]|
          invariant forall j | 0 <= j < i :: KeyOf(chains[b][j].fh) != KeyOf(fh)
        {
          if Compare(chains[b][i].fh, fh) {
            assert Indexed(bucket, index, b, chains[b][i]);
            return At(chains[b][i]);
          }
        }
      }
      assert KeyOf(fh) in index ==> b in chains && Has(chains[b], KeyOf(fh));
      r := Missing;
    }

    /** A new inode for `fh` on its chain: what iget5_locked does with uvfs_init_inode when it finds none. */
    method Insert(fh: Handle) returns (n: Node)
      requires Valid() && KeyOf(fh) !in index
      modifies `chains, `nextId, `index
      ensures Valid() && n == Node(old(nextId), fh) && index == old(index)[KeyOf(fh) := n]
    {
      n := Node(nextId, fh);
      InsertImplements(bucket, chains, index, n);
      var b := bucket(HashOf(fh));
      chains := chains[b := ChainAt(chains, b) + [n]];
      nextId := nextId + 1;
      index := index[KeyOf(fh) := n];
    }

    /** uvfs_iget: the inode the plain map has for the key, refreshed, or a new one. `noMemory` is a failed
        allocation. */
    method Iget(fh: Handle, a: Attr, noMemory: bool) returns (r: Found)
      requires Valid()
      modifies this
      ensures Valid()
      ensures KeyOf(fh) in old(index) ==>
        r == At(old(index)[KeyOf(fh)]) && index == old(index) && attr == old(attr)[r.node.id := a]
      ensures KeyOf(fh) !in old(index) && noMemory ==> r == Missing && index == old(index) && attr == old(attr)
      ensures KeyOf(fh) !in old(index) && !noMemory ==>
        r == At(Node(old(nextId), fh)) && index == old(index)[KeyOf(fh) := r.node] && attr == old(attr)[r.node.id := a]
    {
      r := Lookup(fh);
      if r.Missing? {
        if noMemory { return; }
        var n := Insert(fh);
        r := At(n);
      }
      attr := attr[r.node.id := a];
    }

    /** The kernel drops an inode from its chain; a step of the surroundings that keeps the cache what it is. */
    method Evict(b: nat, i: nat)
      requires Valid() && b in chains && i < |chains[b]|
      modifies `chains, `index
      ensures Valid() && index == old(index) - {KeyOf(old(chains)[b][i].fh)}
    {
      EvictImplements(bucket, chains, index, b, i);
      index := index - {KeyOf(chains[b][i].fh)};
      chains := chains[b := Cut(chains[b], i)];
    }

    /** uvfs_get_dentry: the cached inode with the handle's key if there is one, without asking the server; otherwise
        the server's answer `error`, `a` decides, and -ECOMM is told as -ESTALE. `aliasError` is what finding a dentry
        for the inode ends with: it changes the answer, not the cache. */
    method GetDentry(fh: Handle, error: int, a: Attr, noMemory: bool, aliasError: int) returns (r: Found)
      requires Valid()
      modifies this
      ensures Valid()
      ensures KeyOf(fh) in old(index) ==> index == old(index) && attr == old(attr)
      ensures KeyOf(fh) in old(index) ==> r == if aliasError != 0 then Failed(aliasError) else At(old(index)[KeyOf(fh)])
      ensures KeyOf(fh) !in old(index) && error != 0 ==>
        r == Failed(if error == -ECOMM then -ESTALE else error) && index == old(index)
      ensures KeyOf(fh) !in old(index) && error == 0 && noMemory ==> r == Failed(-EACCES) && index == old(index)
      ensures KeyOf(fh) !in old(index) && error == 0 && !noMemory ==>
        var n := Node(old(nextId), fh);
        && index == old(index)[KeyOf(fh) := n] && attr == old(attr)[n.id := a]
        && r == if aliasError != 0 then Failed(aliasError) else At(n)
    {
      r := Lookup(fh);
      if r.Missing? {
        if error != 0 {
          return Failed(if error == -ECOMM then -ESTALE else error);
        }
        r := Iget(fh, a, noMemory);
        if r.Missing? {
          return Failed(-EACCES);
        }
      }
      if aliasError != 0 {
        r := Failed(aliasError);
      }
    }
  }
}
