/** Link counts: the client adjusts `i_nlink` step by step in uvfs_create, uvfs_symlink, uvfs_mkdir, uvfs_unlink,
    uvfs_rmdir and uvfs_rename (dir.c), where the server's namespace determines them. */
module LinkCounts {
  import opened Common

  type Ino = nat
  type Name = string
  datatype Kind = Dir | Other

  /** The server's namespace: what each inode is, and which name in which directory leads to which inode. */
  datatype Tree = Tree(root: Ino, kind: map<Ino, Kind>, entry: map<(Ino, Name), Ino>)

  /** The names of an inode. */
  function Names(t: Tree, i: Ino): set<(Ino, Name)> {
    set k | k in t.entry && t.entry[k] == i
  }

  predicate IsDir(t: Tree, i: Ino) {
    i in t.kind && t.kind[i] == Dir
  }

  /** The names of the subdirectories of a directory. */
  function Subdirs(t: Tree, d: Ino): set<(Ino, Name)> {
    set k | k in t.entry && k.0 == d && IsDir(t, t.entry[k])
  }

  predicate Empty(t: Tree, d: Ino) {
    forall k | k in t.entry :: k.0 != d
  }

  /** A directory is in use while it is the root or has a name. */
  predicate InUse(t: Tree, d: Ino) {
    IsDir(t, d) && (d == t.root || Names(t, d) != {})
  }

  /** The link count recomputed from the namespace. */
  function Recount(t: Tree, i: Ino): nat {
    if !IsDir(t, i) then |Names(t, i)|
    else if InUse(t, i) then 2 + |Subdirs(t, i)|
    else 0
  }

  ghost predicate WellFormed(t: Tree) {
    && IsDir(t, t.root)
    && (forall k | k in t.entry :: InUse(t, k.0) && t.entry[k] in t.kind && t.entry[k] != t.root)
    && (forall j, k | j in t.entry && k in t.entry && t.entry[j] == t.entry[k] && IsDir(t, t.entry[k]) :: j == k)
  }

  function Link(t: Tree, k: (Ino, Name), i: Ino): Tree {
    t.(entry := t.entry[k := i])
  }

  function Unlink(t: Tree, k: (Ino, Name)): Tree {
    t.(entry := t.entry - {k})
  }

  function One(b: bool): nat { if b then 1 else 0 }

  lemma LinkNames(t: Tree, k: (Ino, Name), i: Ino, j: Ino)
    requires k !in t.entry
    ensures |Names(Link(t, k, i), j)| == |Names(t, j)| + One(j == i)
  {
    var t' := Link(t, k, i);
    if j == i {
      assert Names(t', j) == Names(t, j) + {k};
    } else {
      assert Names(t', j) == Names(t, j);
    }
  }

  lemma LinkSubdirs(t: Tree, k: (Ino, Name), i: Ino, j: Ino)
    requires k !in t.entry
    ensures |Subdirs(Link(t, k, i), j)| == |Subdirs(t, j)| + One(j == k.0 && IsDir(t, i))
  {
    var t' := Link(t, k, i);
    if j == k.0 && IsDir(t, i) {
      assert Subdirs(t', j) == Subdirs(t, j) + {k};
    } else {
      assert Subdirs(t', j) == Subdirs(t, j);
    }
  }

  lemma LinkCount(t: Tree, k: (Ino, Name), i: Ino, j: Ino)
    requires k !in t.entry
    ensures |Names(Link(t, k, i), j)| == |Names(t, j)| + One(j == i)
    ensures |Subdirs(Link(t, k, i), j)| == |Subdirs(t, j)| + One(j == k.0 && IsDir(t, i))
  {
    LinkNames(t, k, i, j);
    LinkSubdirs(t, k, i, j);
  }

  /** Taking a name away undoes adding it. */
  lemma UnlinkCount(t: Tree, k: (Ino, Name), j: Ino)
    requires k in t.entry
    ensures |Names(t, j)| == |Names(Unlink(t, k), j)| + One(j == t.entry[k])
    ensures |Subdirs(t, j)| == |Subdirs(Unlink(t, k), j)| + One(j == k.0 && IsDir(t, t.entry[k]))
  {
    var t' := Unlink(t, k);
    assert Link(t', k, t.entry[k]) == t;
    LinkCount(t', k, t.entry[k], j);
  }

  // ---------------------------------------------------------------- what the server does

  /** A new inode under a new name. */
  function Created(t: Tree, k: (Ino, Name), i: Ino, kind: Kind): Tree {
    Link(t.(kind := t.kind[i := kind]), k, i)
  }

  predicate CanCreate(t: Tree, k: (Ino, Name), i: Ino) {
    InUse(t, k.0) && k !in t.entry && i !in t.kind
  }

  predicate CanUnlink(t: Tree, k: (Ino, Name)) {
    k in t.entry && !IsDir(t, t.entry[k])
  }

  predicate CanRmdir(t: Tree, k: (Ino, Name)) {
    k in t.entry && IsDir(t, t.entry[k]) && Empty(t, t.entry[k])
  }

  /** The kernel asks for a rename only between different inodes of the same kind; a directory that is replaced must be
      empty, and the target directory must outlive the removal of the source. */
  predicate CanRename(t: Tree, src: (Ino, Name), dst: (Ino, Name)) {
    && src in t.entry && src != dst && InUse(t, dst.0) && dst.0 != t.entry[src]
    && (dst in t.entry ==>
          && t.entry[dst] != t.entry[src] && IsDir(t, t.entry[dst]) == IsDir(t, t.entry[src])
          && (IsDir(t, t.entry[dst]) ==> Empty(t, t.entry[dst])))
  }

  function Renamed(t: Tree, src: (Ino, Name), dst: (Ino, Name)): Tree
    requires src in t.entry
  {
    Link(Unlink(Unlink(t, dst), src), dst, t.entry[src])
  }

  // ---------------------------------------------------------------- namespaces stay well formed

  lemma NamesNonempty(t: Tree, i: Ino, k: (Ino, Name))
    requires k in t.entry && t.entry[k] == i
    ensures Names(t, i) != {}
  {
    assert k in Names(t, i);
  }

  lemma CreatedWellFormed(t: Tree, k: (Ino, Name), i: Ino, kind: Kind)
    requires WellFormed(t) && CanCreate(t, k, i)
    ensures WellFormed(Created(t, k, i, kind))
  {
    var t' := Created(t, k, i, kind);
    forall j | j in t'.entry ensures InUse(t', j.0) {
      assert forall n | n in Names(t, j.0) :: n in Names(t', j.0);
    }
  }

  lemma RemovedWellFormed(t: Tree, k: (Ino, Name))
    requires WellFormed(t) && (CanUnlink(t, k) || CanRmdir(t, k))
    ensures WellFormed(Unlink(t, k))
  {
    var t' := Unlink(t, k);
    forall j | j in t'.entry ensures InUse(t', j.0) {
      assert forall n | n in Names(t, j.0) && n != k :: n in Names(t', j.0);
    }
  }

  /** A directory keeps a name through a rename unless it is the one replaced. */
  lemma RenamedInUse(t: Tree, src: (Ino, Name), dst: (Ino, Name), d: Ino)
    requires src in t.entry && InUse(t, d) && (dst in t.entry ==> t.entry[dst] != d)
    ensures InUse(Renamed(t, src, dst), d)
  {
    var t' := Renamed(t, src, dst);
    if d == t.entry[src] {
      NamesNonempty(t', d, dst);
    } else if Names(t, d) != {} {
      var n :| n in Names(t, d);
      assert n != src && n != dst;
      NamesNonempty(t', d, n);
    }
  }

  lemma RenamedWellFormed(t: Tree, src: (Ino, Name), dst: (Ino, Name))
    requires WellFormed(t) && CanRename(t, src, dst)
    ensures WellFormed(Renamed(t, src, dst))
  {
    var t' := Renamed(t, src, dst);
    forall j | j in t'.entry ensures InUse(t', j.0) {
      RenamedInUse(t, src, dst, j.0);
    }
  }

  // ---------------------------------------------------------------- counts after each operation

  ghost predicate Agrees(nlink: map<Ino, int>, t: Tree) {
    nlink.Keys == t.kind.Keys && forall i | i in t.kind :: nlink[i] == Recount(t, i)
  }

  lemma CreatedRecount(t: Tree, k: (Ino, Name), i: Ino, kind: Kind, j: Ino)
    requires WellFormed(t) && CanCreate(t, k, i) && j in Created(t, k, i, kind).kind
    ensures Recount(Created(t, k, i, kind), j) ==
      if j == i then (if kind == Dir then 2 else 1)
      else Recount(t, j) + One(j == k.0 && kind == Dir)
  {
    var t1 := t.(kind := t.kind[i := kind]);
    assert Names(t1, j) == Names(t, j) && Subdirs(t1, j) == Subdirs(t, j);
    LinkCount(t1, k, i, j);
    if j == i {
      assert Names(t, i) == {} && Subdirs(t, i) == {};
    }
  }

  lemma RemovedRecount(t: Tree, k: (Ino, Name), j: Ino)
    requires WellFormed(t) && (CanUnlink(t, k) || CanRmdir(t, k)) && j in t.kind
    ensures var i := t.entry[k];
      Recount(Unlink(t, k), j) ==
        if j == i then (if IsDir(t, i) then 0 else Recount(t, j) - 1)
        else Recount(t, j) - One(j == k.0 && IsDir(t, i))
    ensures IsDir(t, t.entry[k]) ==> Recount(t, t.entry[k]) == 2
  {
    var i := t.entry[k];
    UnlinkCount(t, k, j);
    if IsDir(t, i) {
      assert Names(t, i) == {k};
      assert Subdirs(t, i) == {};
      assert Names(Unlink(t, k), i) == {};
    }
  }

  /** The inode count of rename, with its target gone first. */
  lemma RenamedCounts(t: Tree, src: (Ino, Name), dst: (Ino, Name), j: Ino)
    requires CanRename(t, src, dst)
    ensures |Names(Renamed(t, src, dst), j)| == |Names(t, j)| - One(dst in t.entry && j == t.entry[dst])
    ensures |Subdirs(Renamed(t, src, dst), j)| == |Subdirs(t, j)|
      - One(dst in t.entry && j == dst.0 && IsDir(t, t.entry[dst]))
      - One(j == src.0 && IsDir(t, t.entry[src])) + One(j == dst.0 && IsDir(t, t.entry[src]))
  {
    var t1 := Unlink(t, dst);
    if dst in t.entry {
      UnlinkCount(t, dst, j);
    } else {
      assert t1 == t;
    }
    UnlinkCount(t1, src, j);
    LinkCount(Unlink(t1, src), dst, t.entry[src], j);
  }

  lemma RenamedRecount(t: Tree, src: (Ino, Name), dst: (Ino, Name), j: Ino)
    requires WellFormed(t) && CanRename(t, src, dst) && j in t.kind
    ensures var i, t' := t.entry[src], Renamed(t, src, dst);
      Recount(t', j) ==
        if dst in t.entry && j == t.entry[dst] then (if IsDir(t, j) then 0 else Recount(t, j) - 1)
        else (Recount(t, j) - One(dst in t.entry && j == dst.0 && IsDir(t, t.entry[dst]))
              - One(j == src.0 && IsDir(t, i)) + One(j == dst.0 && IsDir(t, i)))
  {
    var t' := Renamed(t, src, dst);
    RenamedCounts(t, src, dst, j);
    NamesNonempty(t, t.entry[src], src);
    NamesNonempty(t', t.entry[src], dst);
    if dst in t.entry && j == t.entry[dst] && IsDir(t, j) {
      assert Names(t, j) == {dst};
    } else if IsDir(t, j) {
      assert |Names(t', j)| == |Names(t, j)|;
      assert InUse(t', j) == InUse(t, j);
    }
  }

  // ---------------------------------------------------------------- runs of successful operations

  datatype Op =
    | Create(k: (Ino, Name), i: Ino)
    | Mkdir(k: (Ino, Name), i: Ino)
    | Symlink(k: (Ino, Name), i: Ino)
    | Remove(k: (Ino, Name))
    | Rmdir(k: (Ino, Name))
    | Rename(src: (Ino, Name), dst: (Ino, Name))

  predicate Can(t: Tree, op: Op) {
    match op
    case Create(k, i) => CanCreate(t, k, i)
    case Mkdir(k, i) => CanCreate(t, k, i)
    case Symlink(k, i) => CanCreate(t, k, i)
    case Remove(k) => CanUnlink(t, k)
    case Rmdir(k) => CanRmdir(t, k)
    case Rename(src, dst) => CanRename(t, src, dst)
  }

  /** The namespace after the server has done `op`. */
  function Serve(t: Tree, op: Op): Tree
    requires Can(t, op)
  {
    match op
    case Create(k, i) => Created(t, k, i, Other)
    case Mkdir(k, i) => Created(t, k, i, Dir)
    case Symlink(k, i) => Created(t, k, i, Other)
    case Remove(k) => Unlink(t, k)
    case Rmdir(k) => Unlink(t, k)
    case Rename(src, dst) => Renamed(t, src, dst)
  }

  function Add(nlink: map<Ino, int>, i: Ino, n: int): map<Ino, int> {
    if i in nlink then nlink[i := nlink[i] + n] else nlink
  }

  /** The counts the client keeps after `op` succeeded. A new inode gets the count in the server's reply. */
  function Adjust(nlink: map<Ino, int>, t: Tree, op: Op): map<Ino, int>
    requires Can(t, op)
  {
    match op
    case Create(k, i) => nlink[i := 1]
    case Symlink(k, i) => nlink[i := 1]
    case Mkdir(k, i) => Add(nlink[i := 2], k.0, 1)
    case Remove(k) => Add(nlink, t.entry[k], -1)
    case Rmdir(k) => Add(Add(nlink, t.entry[k], -2), k.0, -1)
    case Rename(src, dst) =>
      var n1 :=
        if dst !in t.entry then nlink
        else if IsDir(t, t.entry[dst]) then Add(Add(nlink, t.entry[dst], -2), dst.0, -1)
        else Add(nlink, t.entry[dst], -1);
      if IsDir(t, t.entry[src]) then Add(Add(n1, dst.0, 1), src.0, -1) else n1
  }

  lemma CreatePoint(nlink: map<Ino, int>, t: Tree, op: Op, j: Ino)
    requires WellFormed(t) && Can(t, op) && (op.Create? || op.Mkdir? || op.Symlink?) && nlink.Keys == t.kind.Keys
    requires j in t.kind ==> nlink[j] == Recount(t, j)
    requires j in Serve(t, op).kind
    ensures j in Adjust(nlink, t, op) && Adjust(nlink, t, op)[j] == Recount(Serve(t, op), j)
  {
    CreatedRecount(t, op.k, op.i, if op.Mkdir? then Dir else Other, j);
  }

  lemma RemovePoint(nlink: map<Ino, int>, t: Tree, op: Op, j: Ino)
    requires WellFormed(t) && Can(t, op) && (op.Remove? || op.Rmdir?) && nlink.Keys == t.kind.Keys
    requires j in t.kind && nlink[j] == Recount(t, j)
    ensures Adjust(nlink, t, op)[j] == Recount(Serve(t, op), j)
  {
    RemovedRecount(t, op.k, j);
    if op.Rmdir? {
      EmptyDirCount(t, op.k);
    }
  }

  lemma RenamePoint(nlink: map<Ino, int>, t: Tree, op: Op, j: Ino)
    requires WellFormed(t) && Can(t, op) && op.Rename? && nlink.Keys == t.kind.Keys
    requires j in t.kind && nlink[j] == Recount(t, j)
    ensures Adjust(nlink, t, op)[j] == Recount(Serve(t, op), j)
  {
    RenamedRecount(t, op.src, op.dst, j);
    if op.dst in t.entry && IsDir(t, t.entry[op.dst]) {
      EmptyDirCount(t, op.dst);
    }
  }

  lemma EmptyDirCount(t: Tree, k: (Ino, Name))
    requires k in t.entry && IsDir(t, t.entry[k]) && Empty(t, t.entry[k])
    ensures Recount(t, t.entry[k]) == 2 && t.entry[k] != k.0
  {
    NamesNonempty(t, t.entry[k], k);
    assert Subdirs(t, t.entry[k]) == {};
  }

  lemma SameInodes(nlink: map<Ino, int>, t: Tree, op: Op)
    requires WellFormed(t) && Can(t, op) && nlink.Keys == t.kind.Keys
    ensures Adjust(nlink, t, op).Keys == Serve(t, op).kind.Keys
    ensures op.Remove? || op.Rmdir? || op.Rename? ==> Serve(t, op).kind == t.kind
  {
  }

  lemma ServeWellFormed(t: Tree, op: Op)
    requires WellFormed(t) && Can(t, op)
    ensures WellFormed(Serve(t, op))
  {
    match op
    case Create(k, i) => CreatedWellFormed(t, k, i, Other);
    case Mkdir(k, i) => CreatedWellFormed(t, k, i, Dir);
    case Symlink(k, i) => CreatedWellFormed(t, k, i, Other);
    case Remove(k) => RemovedWellFormed(t, k);
    case Rmdir(k) => RemovedWellFormed(t, k);
    case Rename(src, dst) => RenamedWellFormed(t, src, dst);
  }

  /** One successful operation keeps the counts equal to the recomputed ones. */
  lemma AdjustAgrees(nlink: map<Ino, int>, t: Tree, op: Op)
    requires WellFormed(t) && Agrees(nlink, t) && Can(t, op)
    ensures WellFormed(Serve(t, op)) && Agrees(Adjust(nlink, t, op), Serve(t, op))
  {
    ServeWellFormed(t, op);
    SameInodes(nlink, t, op);
    forall j | j in Serve(t, op).kind ensures Adjust(nlink, t, op)[j] == Recount(Serve(t, op), j) {
      if op.Rename? {
        RenamePoint(nlink, t, op, j);
      } else if op.Remove? || op.Rmdir? {
        RemovePoint(nlink, t, op, j);
      } else {
        CreatePoint(nlink, t, op, j);
      }
    }
  }

  predicate CanAll(t: Tree, ops: seq<Op>)
    decreases |ops|
  {
    ops == [] || (Can(t, ops[0]) && CanAll(Serve(t, ops[0]), ops[1..]))
  }

  function ServeAll(t: Tree, ops: seq<Op>): Tree
    requires CanAll(t, ops)
    decreases |ops|
  {
    if ops == [] then t else ServeAll(Serve(t, ops[0]), ops[1..])
  }

  function AdjustAll(nlink: map<Ino, int>, t: Tree, ops: seq<Op>): map<Ino, int>
    requires CanAll(t, ops)
    decreases |ops|
  {
    if ops == [] then nlink else AdjustAll(Adjust(nlink, t, ops[0]), Serve(t, ops[0]), ops[1..])
  }

  /** Over every run of successful operations the counts kept step by step are the ones the namespace calls for. */
  lemma {:induction false} CountsAgreeOverRuns(nlink: map<Ino, int>, t: Tree, ops: seq<Op>)
    requires WellFormed(t) && Agrees(nlink, t) && CanAll(t, ops)
    ensures WellFormed(ServeAll(t, ops)) && Agrees(AdjustAll(nlink, t, ops), ServeAll(t, ops))
    decreases |ops|
  {
    if ops != [] {
      AdjustAgrees(nlink, t, ops[0]);
      CountsAgreeOverRuns(Adjust(nlink, t, ops[0]), Serve(t, ops[0]), ops[1..]);
    }
  }

  // ---------------------------------------------------------------- the client

  /** What a mkdir whose inode could not be allocated leaves behind: the server has the directory, the client has not
      counted it. Every count the client has agrees but the parent's, which is one too low. */
  lemma UncountedMkdir(nlink: map<Ino, int>, t: Tree, k: (Ino, Name), i: Ino, j: Ino)
    requires WellFormed(t) && Agrees(nlink, t) && CanCreate(t, k, i) && j in nlink
    ensures var t' := Serve(t, Mkdir(k, i));
      nlink[j] == Recount(t', j) - One(j == k.0)
  {
    CreatedRecount(t, k, i, Dir, j);
  }

  /** The same for a file: every count the client has agrees. */
  lemma UncountedCreate(nlink: map<Ino, int>, t: Tree, k: (Ino, Name), i: Ino, j: Ino)
    requires WellFormed(t) && Agrees(nlink, t) && CanCreate(t, k, i) && j in nlink
    ensures nlink[j] == Recount(Serve(t, Create(k, i)), j)
  {
    CreatedRecount(t, k, i, Other, j);
  }

  /** The client's inodes, with the namespace its server holds. A request that fails leaves both alone. */
  class Client {
    var nlink: map<Ino, int>
    var tree: Tree

    ghost predicate Valid()
      reads this
    {
      WellFormed(tree) && Agrees(nlink, tree)
    }

    /** uvfs_create and uvfs_symlink from line 62 and line 278 on. `noMemory` is a failed uvfs_iget: the server has the
        file then and the client does not; the counts it has still agree. */
    method CreateEntry(k: (Ino, Name), i: Ino, error: int, attrNlink: int, noMemory: bool) returns (ret: int)
      requires Valid() && error <= 0
      requires error == 0 ==> CanCreate(tree, k, i) && attrNlink == 1
      modifies this
      ensures ret == if error < 0 then error else if noMemory then -ENOMEM else 0
      ensures error < 0 ==> nlink == old(nlink) && tree == old(tree)
      ensures error == 0 ==> tree == Serve(old(tree), Create(k, i))
      ensures error == 0 && !noMemory ==> nlink == Adjust(old(nlink), old(tree), Create(k, i))
      ensures error == 0 && noMemory ==> nlink == old(nlink) && forall j | j in nlink :: nlink[j] == Recount(tree, j)
      ensures Valid() <==> error < 0 || !noMemory
    {
      if error < 0 { return error; }
      AdjustAgrees(nlink, tree, Create(k, i));
      ghost var before := tree;
      tree := Serve(tree, Create(k, i));
      if noMemory {
        forall j | j in nlink ensures nlink[j] == Recount(tree, j) {
          UncountedCreate(nlink, before, k, i, j);
        }
        assert i in tree.kind && i !in nlink;
        return -ENOMEM;
      }
      nlink := nlink[i := attrNlink];
      return 0;
    }

    /** uvfs_mkdir from line 343 on. When uvfs_iget fails, the parent's count is left one too low. */
    method MakeDir(k: (Ino, Name), i: Ino, error: int, attrNlink: int, noMemory: bool) returns (ret: int)
      requires Valid() && error <= 0
      requires error == 0 ==> CanCreate(tree, k, i) && attrNlink == 2
      modifies this
      ensures ret == if error < 0 then error else if noMemory then -ENOMEM else 0
      ensures error < 0 ==> nlink == old(nlink) && tree == old(tree)
      ensures error == 0 ==> tree == Serve(old(tree), Mkdir(k, i))
      ensures error == 0 && !noMemory ==> nlink == Adjust(old(nlink), old(tree), Mkdir(k, i))
      ensures error == 0 && noMemory ==>
        nlink == old(nlink) && forall j | j in nlink :: nlink[j] == Recount(tree, j) - One(j == k.0)
      ensures Valid() <==> error < 0 || !noMemory
    {
      if error < 0 { return error; }
      AdjustAgrees(nlink, tree, Mkdir(k, i));
      ghost var before := tree;
      tree := Serve(tree, Mkdir(k, i));
      if noMemory {
        forall j | j in nlink ensures nlink[j] == Recount(tree, j) - One(j == k.0) {
          UncountedMkdir(nlink, before, k, i, j);
        }
        assert i in tree.kind && i !in nlink;
        return -ENOMEM;
      }
      nlink := nlink[i := attrNlink];
      nlink := nlink[k.0 := nlink[k.0] + 1];
      return 0;
    }

    /** uvfs_unlink from line 217 on. */
    method RemoveEntry(k: (Ino, Name), error: int)
      requires Valid() && (error == 0 ==> CanUnlink(tree, k))
      modifies this
      ensures Valid()
      ensures if error != 0 then nlink == old(nlink) && tree == old(tree)
              else nlink == Adjust(old(nlink), old(tree), Remove(k)) && tree == Serve(old(tree), Remove(k))
    {
      if error == 0 {
        AdjustAgrees(nlink, tree, Remove(k));
        var i := tree.entry[k];
        tree := Serve(tree, Remove(k));
        nlink := nlink[i := nlink[i] - 1];
      }
    }

    /** uvfs_rmdir from line 402 on. */
    method RemoveDir(k: (Ino, Name), error: int)
      requires Valid() && (error == 0 ==> CanRmdir(tree, k))
      modifies this
      ensures Valid()
      ensures if error != 0 then nlink == old(nlink) && tree == old(tree)
              else nlink == Adjust(old(nlink), old(tree), Rmdir(k)) && tree == Serve(old(tree), Rmdir(k))
    {
      if error == 0 {
        AdjustAgrees(nlink, tree, Rmdir(k));
        CountRmdir(tree, k);
        tree := Serve(tree, Rmdir(k));
      }
    }

    /** Lines 406-407. */
    method CountRmdir(t: Tree, k: (Ino, Name))
      requires CanRmdir(t, k) && t.entry[k] in nlink && k.0 in nlink
      modifies `nlink
      ensures nlink == Adjust(old(nlink), t, Rmdir(k))
    {
      var i := t.entry[k];
      nlink := nlink[i := nlink[i] - 2];
      nlink := nlink[k.0 := nlink[k.0] - 1];
    }

    /** uvfs_rename from line 459 on; `src` and `dst` may lie in one directory and `dst` may exist. */
    method RenameEntry(src: (Ino, Name), dst: (Ino, Name), error: int)
      requires Valid() && (error == 0 ==> CanRename(tree, src, dst))
      modifies this
      ensures Valid()
      ensures if error != 0 then nlink == old(nlink) && tree == old(tree)
              else
                && nlink == Adjust(old(nlink), old(tree), Rename(src, dst))
                && tree == Serve(old(tree), Rename(src, dst))
    {
      if error == 0 {
        AdjustAgrees(nlink, tree, Rename(src, dst));
        CountRename(tree, src, dst);
        tree := Serve(tree, Rename(src, dst));
      }
    }

    /** Lines 463-480. */
    method CountRename(t: Tree, src: (Ino, Name), dst: (Ino, Name))
      requires CanRename(t, src, dst) && src.0 in nlink && dst.0 in nlink && (dst in t.entry ==> t.entry[dst] in nlink)
      modifies `nlink
      ensures nlink == Adjust(old(nlink), t, Rename(src, dst))
    {
      if dst in t.entry {
        var dnode := t.entry[dst];
        if IsDir(t, dnode) {
          nlink := nlink[dnode := nlink[dnode] - 2];
          nlink := nlink[dst.0 := nlink[dst.0] - 1];
        } else {
          nlink := nlink[dnode := nlink[dnode] - 1];
        }
      }
      if IsDir(t, t.entry[src]) {
        nlink := nlink[dst.0 := nlink[dst.0] + 1];
        nlink := nlink[src.0 := nlink[src.0] - 1];
      }
    }
  }
}
