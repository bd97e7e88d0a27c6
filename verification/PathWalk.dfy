/** Path lookup through the dentry cache: uvfs_lookup_by_name, uvfs_lookup and uvfs_dentry_revalidate (dir.c:92-183,
    568-624) under the kernel's component-by-component walk. */
module PathWalk {
  import opened Common
  import opened Handles
  import IC = InodeCache

  type Name = string
  type DentryId = nat

  const MAX_NAMELEN: nat := 256

  datatype Lookup = Found(fh: Handle, attr: IC.Attr) | Error(error: int)

  /** The server's answer to a lookup request, for one state of its tree. */
  type Server = (Handle, Name) -> Lookup

  /** The inode of a dentry; a negative dentry has none. */
  datatype Inode = Negative | Inode(fh: Handle, isDir: bool)

  /** S_ISDIR of a mode. */
  predicate IsDir(a: IC.Attr) {
    a.mode / 0x1000 % 0x10 == 4
  }

  /** uvfs_lookup_by_name: names that are too long are not sent. */
  function LookupByName(server: Server, dir: Handle, name: Name): Lookup {
    if |name| > MAX_NAMELEN then Error(-ENAMETOOLONG) else server(dir, name)
  }

  ghost predicate SameAnswer(a: Lookup, b: Lookup) {
    if a.Found? then b.Found? && Compare(a.fh, b.fh) else b.Error?
  }

  /** A server that goes by the key of a handle. */
  ghost predicate Keyed(server: Server) {
    forall a, b, n | Compare(a, b) :: SameAnswer(server(a, n), server(b, n))
  }

  /** No lookup is interrupted. */
  ghost predicate Uninterrupted(server: Server) {
    forall a, n | server(a, n).Error? :: server(a, n).error != -ERESTARTSYS
  }

  /** The walk without a cache: every component asked of the server. Names of more than 256 bytes lead nowhere. */
  function ServerWalk(server: Server, dir: Handle, path: seq<Name>): Option<Handle>
    decreases |path|
  {
    if path == [] then Some(dir)
    else if |path[0]| > 256 then None
    else
      match server(dir, path[0])
      case Error(_) => None
      case Found(fh, _) => ServerWalk(server, fh, path[1..])
  }

  ghost predicate SameFile(a: Option<Handle>, b: Option<Handle>) {
    if a.Some? then b.Some? && Compare(a.value, b.value) else b.None?
  }

  /** Which of two handles of one file a walk starts from does not matter. */
  lemma {:induction false} WalkByKey(server: Server, a: Handle, b: Handle, path: seq<Name>)
    requires Keyed(server) && Compare(a, b)
    ensures SameFile(ServerWalk(server, a, path), ServerWalk(server, b, path))
    decreases |path|
  {
    if path != [] {
      var x, y := server(a, path[0]), server(b, path[0]);
      assert SameAnswer(x, y);
      if x.Found? && |path[0]| <= 256 {
        WalkByKey(server, x.fh, y.fh, path[1..]);
      }
    }
  }

  /** What may go wrong during the lookup of one component: no memory for an inode, something mounted below. */
  datatype Trouble = Trouble(noMemory: bool, submounts: bool)

  class Dcache {
    const icache: IC.Cache
    var inode: map<DentryId, Inode>             // d_inode of every dentry
    var child: map<(DentryId, Name), DentryId>  // the hashed dentries, by parent and name
    var nextId: DentryId

    /** Shape only: what the entries say may be arbitrarily out of date. */
    ghost predicate Valid()
      reads this, icache
    {
      && icache.Valid()
      && (forall d | d in inode :: d < nextId)
      && (forall l | l in child :: child[l] in inode)
    }

    /** A fresh mount: only the root has a dentry. */
    constructor (icache: IC.Cache, root: Handle)
      requires icache.Valid()
      ensures Valid() && this.icache == icache && inode == map[0 := Inode(root, true)] && child == map[]
    {
      this.icache := icache;
      inode, child, nextId := map[0 := Inode(root, true)], map[], 1;
    }

    /** uvfs_dentry_revalidate of dentry `d`, hashed as `name` under `parent`. A negative dentry is never trusted; one
        with an inode is trusted exactly when the server still names that file there, the lookup was interrupted, or
        it is a directory with something mounted below. What is not trusted is unhashed. The server is asked for names
        of at most 256 bytes. */
    method Revalidate(server: Server, parent: DentryId, name: Name, d: DentryId, submounts: bool) returns (ok: bool)
      requires Valid() && parent in inode && inode[parent].Inode? && d in inode
      modifies `child
      ensures Valid()
      ensures ok <==>
        && old(inode)[d].Inode?
        && var ans := server(old(inode)[parent].fh, name);
           || (|name| <= 256 && ans.Found? && Compare(old(inode)[d].fh, ans.fh))
           || (|name| <= 256 && ans.Error? && ans.error == -ERESTARTSYS)
           || (old(inode)[d].isDir && submounts)
      ensures child == if ok then old(child) else old(child) - {(parent, name)}
    {
      var node := inode[d];
      if node.Inode? {
        var ans := LookupByName(server, inode[parent].fh, name);
        if ans.Found? && Compare(node.fh, ans.fh) { return true; }
        if ans.Error? && ans.error == -ERESTARTSYS { return true; }
        if node.isDir && submounts { return true; }
      }
      child := child - {(parent, name)};
      ok := false;
    }

    /** uvfs_lookup: a new dentry under `parent`, with the inode of the server's answer, or a negative one whatever the
        error was, a failed uvfs_iget included. */
    method LookUp(server: Server, parent: DentryId, name: Name, noMemory: bool) returns (d: DentryId)
      requires Valid() && parent in inode && inode[parent].Inode?
      modifies this, icache
      ensures Valid() && d in inode && (forall e | e in old(inode) :: e in inode && inode[e] == old(inode)[e])
      ensures child == old(child)[(parent, name) := d]
      ensures var ans := server(old(inode)[parent].fh, name);
        if |name| > 256 || ans.Error? || (noMemory && KeyOf(ans.fh) !in old(icache.index)) then inode[d].Negative?
        else inode[d].Inode? && Compare(inode[d].fh, ans.fh) && (inode[d].isDir <==> ans.attr.mode / 4096 % 16 == 4)
             && KeyOf(ans.fh) in icache.index && inode[d].fh == icache.index[KeyOf(ans.fh)].fh
    {
      var ans := LookupByName(server, inode[parent].fh, name);
      var node := Negative;
      if ans.Found? {
        var r := icache.Iget(ans.fh, ans.attr, noMemory);
        if r.At? {
          node := Inode(r.node.fh, IsDir(ans.attr));
        }
      }
      d := nextId;
      nextId := nextId + 1;
      inode := inode[d := node];
      child := child[(parent, name) := d];
    }

    /** One component of a walk: the cached dentry if there is one and it passes, a fresh lookup otherwise. */
    method Component(server: Server, parent: DentryId, name: Name, t: Trouble) returns (d: DentryId)
      requires Valid() && parent in inode && inode[parent].Inode?
      modifies this, icache
      ensures Valid() && d in inode && (forall e | e in old(inode) :: e in inode && inode[e] == old(inode)[e])
      ensures var ans := server(old(inode)[parent].fh, name);
        Uninterrupted(server) && !t.submounts ==>
          && (ans.Error? || |name| > 256 ==> inode[d].Negative?)
          && (ans.Found? && |name| <= 256 && !t.noMemory ==> inode[d].Inode?)
          && (inode[d].Inode? ==> ans.Found? && Compare(inode[d].fh, ans.fh))
    {
      if (parent, name) in child {
        d := child[(parent, name)];
        var ok := Revalidate(server, parent, name, d, t.submounts);
        if ok { return; }
      }
      d := LookUp(server, parent, name, t.noMemory);
    }

    /** The walk of a path from a dentry with an inode, `troubles` saying what goes wrong at each component. For a
        server that goes by keys, with no lookup interrupted and nothing mounted below, it ends, through any dentry
        cache however stale, where asking the server for every component ends: at the same file or nowhere. Running
        out of memory can only make it end nowhere. */
    method Walk(server: Server, start: DentryId, path: seq<Name>, troubles: seq<Trouble>) returns (r: Option<Handle>)
      requires Valid() && start in inode && inode[start].Inode? && |troubles| == |path|
      modifies this, icache
      ensures Valid()
      ensures Keyed(server) && Uninterrupted(server) && (forall i | 0 <= i < |path| :: !troubles[i].submounts) ==>
        var direct := ServerWalk(server, old(inode)[start].fh, path);
        && (r.None? || SameFile(r, direct))
        && ((forall i | 0 <= i < |path| :: !troubles[i].noMemory) ==> SameFile(r, direct))
    {
      ghost var smooth :=
        Keyed(server) && Uninterrupted(server) && forall i | 0 <= i < |path| :: !troubles[i].submounts;
      var cur := start;
      for i := 0 to |path|
        invariant Valid() && cur in inode && inode[cur].Inode?
        invariant smooth ==>
          SameFile(ServerWalk(server, inode[cur].fh, path[i..]), ServerWalk(server, old(inode)[start].fh, path))
      {
        ghost var ans := server(inode[cur].fh, path[i]);
        assert path[i..][0] == path[i] && path[i..][1..] == path[i + 1..];
        cur := Component(server, cur, path[i], troubles[i]);
        if inode[cur].Negative? {
          return None;
        }
        if smooth {
          WalkByKey(server, inode[cur].fh, ans.fh, path[i + 1..]);
        }
      }
      r := Some(inode[cur].fh);
    }
  }
}
