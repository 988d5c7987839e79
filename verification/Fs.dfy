/** The inode table of the file system in 4-fs (fisopfs.c, fs_utils.c): a fixed table of
    path-named inodes that the operations keep a tree. */
module Fs {
  const MAX_INODES := 64
  const MAX_PATH_LEN := 128
  const MAX_CONTENT := 100
  const ROOT := "/"

  datatype Kind = Regular | Directory

  /** A symbolic link is a regular inode with a link mode; its content is its target. */
  datatype Inode = Inode(name: string, path: string, parent: string, kind: Kind, symlink: bool, nlink: nat,
                         content: string)

  datatype Table = Table(inodes: seq<Inode>, used: seq<bool>)

  datatype Status = Ok | NoEntry | NotDir | NotEmpty | IsDirectory | NoSpace | Invalid

  predicate Shape(t: Table) {
    |t.inodes| == |t.used| == MAX_INODES
  }

  // ---------- paths ----------

  /** strrchr: the last slash, or -1. */
  function LastSlash(s: string): (i: int)
    ensures -1 <= i < |s| && (i >= 0 ==> s[i] == '/')
  {
    if s == "" then -1 else if s[|s| - 1] == '/' then |s| - 1 else LastSlash(s[..|s| - 1])
  }

  /** get_parent_dir. */
  function ParentDir(path: string): string {
    var i := LastSlash(path);
    if i > 0 then path[..i] else ROOT
  }

  /** get_file_name. */
  function FileName(path: string): string {
    path[LastSlash(path) + 1..]
  }

  function Join(parent: string, name: string): string {
    if parent == ROOT then ROOT + name else parent + "/" + name
  }

  predicate ValidName(name: string) {
    name != "" && '/' !in name
  }

  lemma {:induction false} LastSlashIs(s: string, i: nat)
    requires i < |s| && s[i] == '/' && '/' !in s[i + 1..]
    ensures LastSlash(s) == i
    decreases |s|
  {
    if i < |s| - 1 {
      assert s[i + 1..] == s[..|s| - 1][i + 1..] + [s[|s| - 1]];
      LastSlashIs(s[..|s| - 1], i);
    }
  }

  lemma {:induction false} HasSlash(s: string, k: nat)
    requires k < |s| && s[k] == '/'
    ensures LastSlash(s) >= k
    decreases |s|
  {
    if s[|s| - 1] != '/' {
      HasSlash(s[..|s| - 1], k);
    }
  }

  /** Splitting undoes joining. */
  lemma SplitsJoin(parent: string, name: string)
    requires parent != "" && ValidName(name)
    ensures ParentDir(Join(parent, name)) == parent && FileName(Join(parent, name)) == name
  {
    var p := Join(parent, name);
    var i := if parent == ROOT then 0 else |parent|;
    assert p[i] == '/' && p[i + 1..] == name;
    LastSlashIs(p, i);
  }

  lemma Cuts(s: string, i: nat)
    requires i < |s| && s[i] == '/'
    ensures s == s[..i] + "/" + s[i + 1..]
  {
  }

  /** Joining undoes splitting, except for a name right below a doubled leading slash. */
  lemma JoinsSplitIff(path: string)
    requires path != "" && path[0] == '/'
    ensures Join(ParentDir(path), FileName(path)) == path <==> LastSlash(path) != 1
  {
    var i := LastSlash(path);
    HasSlash(path, 0);
    Cuts(path, i);
    if i == 0 {
      assert path[..0] == "";
      assert path == ROOT + path[1..];
    } else if i == 1 {
      assert ParentDir(path) == [path[0]] == ROOT;
      assert |Join(ParentDir(path), FileName(path))| == |path| - 1;
    } else {
      assert |ParentDir(path)| == i;
      assert |ROOT| == 1;
    }
  }

  lemma JoinInjective(p: string, m: string, q: string, n: string)
    requires p != "" && q != "" && ValidName(m) && ValidName(n)
    ensures Join(p, m) == Join(q, n) <==> p == q && m == n
  {
    SplitsJoin(p, m);
    SplitsJoin(q, n);
  }

  // ---------- searching ----------

  function SearchPath(t: Table, path: string, i: nat): (r: int)
    requires Shape(t) && i <= MAX_INODES
    ensures r == -1 || (i <= r < MAX_INODES && t.used[r] && t.inodes[r].path == path)
    ensures forall j :: i <= j < (if r == -1 then MAX_INODES else r) ==> !(t.used[j] && t.inodes[j].path == path)
    decreases MAX_INODES - i
  {
    if i == MAX_INODES then -1
    else if t.used[i] && t.inodes[i].path == path then i
    else SearchPath(t, path, i + 1)
  }

  /** get_inode_index: slot 0 is the root's. */
  function InodeIndex(t: Table, path: string): int
    requires Shape(t)
  {
    if path == ROOT then 0 else SearchPath(t, path, 0)
  }

  function FreeSlot(t: Table, i: nat): (r: int)
    requires Shape(t) && i <= MAX_INODES
    ensures r == -1 || (i <= r < MAX_INODES && !t.used[r])
    ensures forall j :: i <= j < (if r == -1 then MAX_INODES else r) ==> t.used[j]
    decreases MAX_INODES - i
  {
    if i == MAX_INODES then -1 else if !t.used[i] then i else FreeSlot(t, i + 1)
  }

  /** An occupied slot with this name in this directory. */
  function SearchEntry(t: Table, name: string, parent: string, i: nat): (r: int)
    requires Shape(t) && i <= MAX_INODES
    ensures r == -1 || (i <= r < MAX_INODES && t.used[r] && t.inodes[r].name == name && t.inodes[r].parent == parent)
    ensures forall j :: i <= j < (if r == -1 then MAX_INODES else r) ==>
              !(t.used[j] && t.inodes[j].name == name && t.inodes[j].parent == parent)
    decreases MAX_INODES - i
  {
    if i == MAX_INODES then -1
    else if t.used[i] && t.inodes[i].name == name && t.inodes[i].parent == parent then i
    else SearchEntry(t, name, parent, i + 1)
  }

  predicate HasChild(t: Table, path: string)
    requires Shape(t)
  {
    exists i :: 0 <= i < MAX_INODES && t.used[i] && t.inodes[i].parent == path
  }

  // ---------- operations ----------

  function Put(t: Table, i: nat, n: Inode): Table
    requires Shape(t) && i < MAX_INODES
  {
    Table(t.inodes[i := n], t.used[i := true])
  }

  function Drop(t: Table, i: nat): Table
    requires Shape(t) && i < MAX_INODES
  {
    t.(used := t.used[i := false])
  }

  function MoreLinks(t: Table, i: nat): Table
    requires Shape(t) && i < MAX_INODES
  {
    t.(inodes := t.inodes[i := t.inodes[i].(nlink := t.inodes[i].nlink + 1)])
  }

  /** set_inode_in_superblock: an entry that is already there only gains a link. */
  function SetInode(t: Table, n: Inode): (Status, Table)
    requires Shape(t)
  {
    var i := SearchEntry(t, n.name, n.parent, 0);
    if i >= 0 then (Ok, MoreLinks(t, i))
    else
      var f := FreeSlot(t, 0);
      if f < 0 then (NoSpace, t) else (Ok, Put(t, f, n))
  }

  /** fisopfs_create and fisopfs_mkdir. */
  function NewInode(t: Table, path: string, kind: Kind): (Status, Table)
    requires Shape(t)
  {
    SetInode(t, Inode(FileName(path), path, ParentDir(path), kind, false, if kind.Regular? then 1 else 2, ""))
  }

  function Rmdir(t: Table, path: string): (Status, Table)
    requires Shape(t)
  {
    var i := InodeIndex(t, path);
    if i < 0 then (NoEntry, t)
    else if !t.inodes[i].kind.Directory? then (NotDir, t)
    else if HasChild(t, path) then (NotEmpty, t)
    else (Ok, Drop(t, i))
  }

  function Unlink(t: Table, path: string): (Status, Table)
    requires Shape(t)
  {
    var i := InodeIndex(t, path);
    if i < 0 then (NoEntry, t)
    else if !t.inodes[i].kind.Regular? && !t.inodes[i].symlink then (IsDirectory, t)
    else (Ok, Drop(t, i))
  }

  /** strncpy of the first size - 1 characters. */
  function Copied(s: string, size: nat): string
    requires size > 0
  {
    if |s| < size then s else s[..size - 1]
  }

  function SymlinkInode(target: string, path: string): Inode {
    Inode(FileName(path), path, ParentDir(path), Regular, true, 1, Copied(target, MAX_CONTENT))
  }

  function Symlink(t: Table, target: string, path: string): (Status, Table)
    requires Shape(t)
  {
    var f := FreeSlot(t, 0);
    if f < 0 then (NoSpace, t) else (Ok, Put(t, f, SymlinkInode(target, path)))
  }

  /** fisopfs_readlink, into a buffer of size bytes. */
  function Readlink(t: Table, path: string, size: nat): (Status, string)
    requires Shape(t) && size > 0
  {
    var i := SearchPath(t, path, 0);
    if i < 0 then (NoEntry, "")
    else if !t.inodes[i].symlink then (Invalid, "")
    else (Ok, Copied(t.inodes[i].content, size))
  }

  function Link(t: Table, source: string, path: string): (Status, Table)
    requires Shape(t)
  {
    var i := InodeIndex(t, source);
    if i < 0 then (NoEntry, t)
    else if !t.inodes[i].kind.Regular? then (IsDirectory, t)
    else
      var f := FreeSlot(t, 0);
      if f < 0 then (NoSpace, t)
      else
        (Ok, MoreLinks(Put(t, f, LinkInode(t, i, path)), i))
  }

  // ---------- the tree ----------

  predicate DirAt(t: Table, path: string)
    requires Shape(t)
  {
    exists i :: 0 <= i < MAX_INODES && t.used[i] && t.inodes[i].path == path && t.inodes[i].kind.Directory?
  }

  predicate Exists(t: Table, path: string)
    requires Shape(t)
  {
    exists i :: 0 <= i < MAX_INODES && t.used[i] && t.inodes[i].path == path
  }

  predicate NodeOk(t: Table, i: nat)
    requires Shape(t) && i < MAX_INODES
  {
    t.used[i] && i != 0 ==>
      var n := t.inodes[i];
      && ValidName(n.name) && n.parent != "" && n.path == Join(n.parent, n.name) && DirAt(t, n.parent)
      && (n.symlink ==> n.kind.Regular?)
  }

  /** Slot 0 is the root; every other occupied inode is named by the directory it is in,
      which is occupied; and paths are unique. */
  ghost predicate Tree(t: Table) {
    && Shape(t) && t.used[0] && t.inodes[0].path == ROOT && t.inodes[0].parent == "" && t.inodes[0].kind.Directory?
    && (forall i :: 0 <= i < MAX_INODES ==> NodeOk(t, i))
    && (forall i, j :: 0 <= i < MAX_INODES && 0 <= j < MAX_INODES && t.used[i] && t.used[j] ==>
         t.inodes[i].path == t.inodes[j].path ==> i == j)
  }

  /** What the kernel guarantees about the path of a new entry. */
  predicate Creatable(t: Table, path: string)
    requires Shape(t)
  {
    && ValidName(FileName(path)) && DirAt(t, ParentDir(path))
    && path == Join(ParentDir(path), FileName(path)) && |path| < MAX_PATH_LEN
  }

  lemma DirNotEmpty(t: Table, path: string)
    requires Tree(t) && Exists(t, path)
    ensures path != ""
  {
    var i :| 0 <= i < MAX_INODES && t.used[i] && t.inodes[i].path == path;
    assert NodeOk(t, i);
  }

  /** A path is in the table exactly when its entry is. */
  lemma EntryIffPath(t: Table, path: string)
    requires Tree(t) && Creatable(t, path)
    ensures Exists(t, path) <==> SearchEntry(t, FileName(path), ParentDir(path), 0) >= 0
    ensures path != ROOT
  {
    var name, parent := FileName(path), ParentDir(path);
    DirNotEmpty(t, parent);
    forall i | 0 <= i < MAX_INODES && t.used[i]
      ensures t.inodes[i].path == path <==> t.inodes[i].name == name && t.inodes[i].parent == parent
    {
      assert NodeOk(t, i);
      if i != 0 {
        JoinInjective(t.inodes[i].parent, t.inodes[i].name, parent, name);
      }
    }
  }

  /** The search by path finds the inode with that path. */
  lemma IndexFinds(t: Table, path: string)
    requires Tree(t)
    ensures InodeIndex(t, path) >= 0 <==> Exists(t, path)
    ensures forall i :: 0 <= i < MAX_INODES ==> (InodeIndex(t, path) == i <==> t.used[i] && t.inodes[i].path == path)
  {
    if Exists(t, path) {
      var i :| 0 <= i < MAX_INODES && t.used[i] && t.inodes[i].path == path;
    }
  }

  // ---------- every operation keeps the tree ----------

  lemma DirsKept(t: Table, n: Table)
    requires Shape(t) && Shape(n)
    requires forall i :: 0 <= i < MAX_INODES && t.used[i] && t.inodes[i].kind.Directory? ==>
      n.used[i] && n.inodes[i].path == t.inodes[i].path && n.inodes[i].kind.Directory?
    ensures forall p :: DirAt(t, p) ==> DirAt(n, p)
  {
  }

  lemma MoreLinksTree(t: Table, i: nat)
    requires Tree(t) && i < MAX_INODES
    ensures Tree(MoreLinks(t, i))
  {
    var n := MoreLinks(t, i);
    DirsKept(t, n);
    forall j | 0 <= j < MAX_INODES ensures NodeOk(n, j) {
      assert NodeOk(t, j);
    }
  }

  lemma PutTree(t: Table, f: nat, e: Inode)
    requires Tree(t) && f < MAX_INODES && !t.used[f] && Creatable(t, e.path) && !Exists(t, e.path)
    requires e.name == FileName(e.path) && e.parent == ParentDir(e.path) && (e.symlink ==> e.kind.Regular?)
    ensures Tree(Put(t, f, e))
  {
    var n := Put(t, f, e);
    DirsKept(t, n);
    assert Exists(t, e.parent);
    DirNotEmpty(t, e.parent);
    forall j | 0 <= j < MAX_INODES ensures NodeOk(n, j) {
      assert NodeOk(t, j);
    }
  }

  /** An inode may go if it is no directory or has no children, and is not the root. */
  lemma DropTree(t: Table, i: nat)
    requires Tree(t) && 0 < i < MAX_INODES && t.used[i]
    requires t.inodes[i].kind.Directory? ==> !HasChild(t, t.inodes[i].path)
    ensures Tree(Drop(t, i))
  {
    var n := Drop(t, i);
    forall j | 0 <= j < MAX_INODES ensures NodeOk(n, j) {
      assert NodeOk(t, j);
      if n.used[j] && j != 0 {
        var d :| 0 <= d < MAX_INODES && t.used[d] && t.inodes[d].path == t.inodes[j].parent
                 && t.inodes[d].kind.Directory?;
        assert d != i;
        assert n.used[d];
      }
    }
  }

  datatype Event =
    | DoNew(path: string, kind: Kind)
    | DoRmdir(path: string)
    | DoUnlink(path: string)
    | DoSymlink(target: string, path: string)
    | DoLink(source: string, path: string)

  /** The guarantees of the kernel: parents exist, the targets of links do not, and the
      root is never removed. */
  predicate Allowed(t: Table, ev: Event)
    requires Shape(t)
  {
    match ev
    case DoNew(path, _) => Creatable(t, path)
    case DoRmdir(path) => path != ROOT
    case DoUnlink(path) => path != ROOT
    case DoSymlink(_, path) => Creatable(t, path) && !Exists(t, path)
    case DoLink(_, path) => Creatable(t, path) && !Exists(t, path)
  }

  function Next(t: Table, ev: Event): (Status, Table)
    requires Shape(t)
  {
    match ev
    case DoNew(path, kind) => NewInode(t, path, kind)
    case DoRmdir(path) => Rmdir(t, path)
    case DoUnlink(path) => Unlink(t, path)
    case DoSymlink(target, path) => Symlink(t, target, path)
    case DoLink(source, path) => Link(t, source, path)
  }

  lemma NewTree(t: Table, path: string, kind: Kind)
    requires Tree(t) && Creatable(t, path)
    ensures Tree(NewInode(t, path, kind).1)
  {
    var e := Inode(FileName(path), path, ParentDir(path), kind, false, if kind.Regular? then 1 else 2, "");
    EntryIffPath(t, path);
    var i := SearchEntry(t, e.name, e.parent, 0);
    if i >= 0 {
      MoreLinksTree(t, i);
    } else if FreeSlot(t, 0) >= 0 {
      PutTree(t, FreeSlot(t, 0), e);
    }
  }

  /** The inode a link writes. */
  function LinkInode(t: Table, i: nat, path: string): Inode
    requires Shape(t) && i < MAX_INODES
  {
    t.inodes[i].(name := FileName(path), path := path, parent := ParentDir(path), nlink := t.inodes[i].nlink + 1)
  }

  lemma LinkTree(t: Table, source: string, path: string)
    requires Tree(t) && Creatable(t, path) && !Exists(t, path)
    ensures Tree(Link(t, source, path).1)
  {
    IndexFinds(t, source);
    var i, f := InodeIndex(t, source), FreeSlot(t, 0);
    if i >= 0 && t.inodes[i].kind.Regular? && f >= 0 {
      PutTree(t, f, LinkInode(t, i, path));
      MoreLinksTree(Put(t, f, LinkInode(t, i, path)), i);
    }
  }

  lemma NextTree(t: Table, ev: Event)
    requires Tree(t) && Allowed(t, ev)
    ensures Tree(Next(t, ev).1)
  {
    match ev
    case DoNew(path, kind) => NewTree(t, path, kind);
    case DoRmdir(path) =>
      IndexFinds(t, path);
      if Rmdir(t, path).0 == Ok {
        DropTree(t, InodeIndex(t, path));
      }
    case DoUnlink(path) =>
      IndexFinds(t, path);
      if Unlink(t, path).0 == Ok {
        assert NodeOk(t, InodeIndex(t, path));
        DropTree(t, InodeIndex(t, path));
      }
    case DoSymlink(target, path) =>
      if FreeSlot(t, 0) >= 0 {
        PutTree(t, FreeSlot(t, 0), SymlinkInode(target, path));
      }
    case DoLink(source, path) => LinkTree(t, source, path);
  }

  // ---------- histories ----------

  /** create_root. */
  const INITIAL: Table := Table(
    seq(MAX_INODES, i => if i == 0 then Inode("Root", ROOT, "", Directory, false, 2, "")
                         else Inode("", "", "", Regular, false, 0, "")),
    seq(MAX_INODES, i => i == 0))

  lemma InitialTree()
    ensures Tree(INITIAL)
  {
  }

  ghost predicate Run(t: Table, trace: seq<Event>, n: Table)
    decreases |trace|
  {
    if trace == [] then n == t
    else Shape(t) && Allowed(t, trace[0]) && Run(Next(t, trace[0]).1, trace[1..], n)
  }

  /** The inode table stays a tree over every history of creates, removes and links. */
  lemma {:induction false} RunTree(t: Table, trace: seq<Event>, n: Table)
    requires Tree(t) && Run(t, trace, n)
    ensures Tree(n)
    decreases |trace|
  {
    if trace != [] {
      NextTree(t, trace[0]);
      RunTree(Next(t, trace[0]).1, trace[1..], n);
    }
  }

  /** Slot d is the directory that slot i is in. */
  predicate Contains(t: Table, d: nat, i: nat)
    requires Shape(t) && d < MAX_INODES && i < MAX_INODES
  {
    t.inodes[d].kind.Directory? && t.inodes[i].parent == t.inodes[d].path
  }

  /** The slots from the root down to slot i: each is the directory of the next. */
  ghost predicate Ancestry(t: Table, chain: seq<nat>, i: nat)
    requires Shape(t)
  {
    && |chain| > 0 && chain[0] == 0 && chain[|chain| - 1] == i
    && (forall k :: 0 <= k < |chain| ==> chain[k] < MAX_INODES && t.used[chain[k]])
    && (forall k :: 0 < k < |chain| ==> Contains(t, chain[k - 1], chain[k]))
  }

  /** Every occupied inode hangs off the root. */
  lemma {:induction false} ReachesRoot(t: Table, i: nat) returns (chain: seq<nat>)
    requires Tree(t) && i < MAX_INODES && t.used[i]
    ensures Ancestry(t, chain, i)
    decreases |t.inodes[i].path|
  {
    if i == 0 {
      chain := [0];
    } else {
      assert NodeOk(t, i);
      var n := t.inodes[i];
      var d: nat :| d < MAX_INODES && t.used[d] && t.inodes[d].path == n.parent && t.inodes[d].kind.Directory?;
      var above := ReachesRoot(t, d);
      chain := above + [i];
    }
  }

  lemma TreeOverHistories(trace: seq<Event>, n: Table, i: nat) returns (chain: seq<nat>)
    requires Run(INITIAL, trace, n) && Shape(n) && i < MAX_INODES && n.used[i]
    ensures i != 0 ==> n.inodes[i].path == Join(n.inodes[i].parent, n.inodes[i].name) && DirAt(n, n.inodes[i].parent)
    ensures forall j :: 0 <= j < MAX_INODES && n.used[j] && n.inodes[j].path == n.inodes[i].path ==> i == j
    ensures Ancestry(n, chain, i)
  {
    InitialTree();
    RunTree(INITIAL, trace, n);
    assert NodeOk(n, i);
    chain := ReachesRoot(n, i);
  }

  // ---------- what the operations do to the set of paths ----------

  predicate Full(t: Table)
    requires Shape(t)
  {
    forall i :: 0 <= i < MAX_INODES ==> t.used[i]
  }

  lemma PutPaths(t: Table, f: nat, e: Inode, p: string)
    requires Shape(t) && f < MAX_INODES && !t.used[f]
    ensures Exists(Put(t, f, e), p) <==> Exists(t, p) || p == e.path
    ensures DirAt(Put(t, f, e), p) <==> DirAt(t, p) || (p == e.path && e.kind.Directory?)
  {
    var n := Put(t, f, e);
    assert n.used[f] && n.inodes[f] == e;
    assert forall j :: 0 <= j < MAX_INODES && j != f ==> n.used[j] == t.used[j] && n.inodes[j] == t.inodes[j];
  }

  lemma MoreLinksPaths(t: Table, i: nat, p: string)
    requires Shape(t) && i < MAX_INODES
    ensures Exists(MoreLinks(t, i), p) <==> Exists(t, p)
  {
    var n := MoreLinks(t, i);
    assert forall j :: 0 <= j < MAX_INODES ==> n.used[j] == t.used[j] && n.inodes[j].path == t.inodes[j].path;
  }

  lemma SetPaths(t: Table, e: Inode, p: string)
    requires Shape(t) && (Exists(t, e.path) <==> SearchEntry(t, e.name, e.parent, 0) >= 0)
    ensures var (r, n) := SetInode(t, e);
      && (r == Ok <==> Exists(t, e.path) || !Full(t))
      && (r != Ok ==> n == t)
      && Shape(n) && (r == Ok ==> (Exists(n, p) <==> Exists(t, p) || p == e.path))
      && (r == Ok && !Exists(t, e.path) ==> (DirAt(n, e.path) <==> e.kind.Directory?))
  {
    var i, f := SearchEntry(t, e.name, e.parent, 0), FreeSlot(t, 0);
    if i >= 0 {
      MoreLinksPaths(t, i, p);
    } else if f >= 0 {
      PutPaths(t, f, e, p);
      PutPaths(t, f, e, e.path);
    }
  }

  /** Create and mkdir add exactly their path; they fail only when it is new and the
      table is full, and then change nothing. */
  lemma NewAddsPath(t: Table, path: string, kind: Kind, p: string)
    requires Tree(t) && Creatable(t, path)
    ensures var (r, n) := NewInode(t, path, kind);
      && (r == Ok <==> Exists(t, path) || !Full(t))
      && (r != Ok ==> n == t)
      && Shape(n) && (r == Ok ==> (Exists(n, p) <==> Exists(t, p) || p == path))
      && (r == Ok && !Exists(t, path) ==> (DirAt(n, path) <==> kind.Directory?))
  {
    EntryIffPath(t, path);
    SetPaths(t, Inode(FileName(path), path, ParentDir(path), kind, false, if kind.Regular? then 1 else 2, ""), p);
  }

  /** Rmdir removes exactly an empty directory. */
  lemma RmdirRemovesPath(t: Table, path: string, p: string)
    requires Tree(t) && path != ROOT
    ensures var (r, n) := Rmdir(t, path);
      && r == (if !Exists(t, path) then NoEntry
               else if !DirAt(t, path) then NotDir
               else if HasChild(t, path) then NotEmpty
               else Ok)
      && (r != Ok ==> n == t)
      && Shape(n) && (r == Ok ==> (Exists(n, p) <==> Exists(t, p) && p != path))
  {
    IndexFinds(t, path);
    var i := InodeIndex(t, path);
    var n := Rmdir(t, path).1;
    assert i >= 0 ==>
        forall j :: 0 <= j < MAX_INODES && j != i ==> n.used[j] == t.used[j] && n.inodes[j] == t.inodes[j];
  }

  /** Unlink removes exactly what is no directory. */
  lemma UnlinkRemovesPath(t: Table, path: string, p: string)
    requires Tree(t) && path != ROOT
    ensures var (r, n) := Unlink(t, path);
      && r == (if !Exists(t, path) then NoEntry else if DirAt(t, path) then IsDirectory else Ok)
      && (r != Ok ==> n == t)
      && Shape(n) && (r == Ok ==> (Exists(n, p) <==> Exists(t, p) && p != path))
  {
    IndexFinds(t, path);
    var i := InodeIndex(t, path);
    var n := Unlink(t, path).1;
    assert i >= 0 ==> NodeOk(t, i);
    assert i >= 0 ==>
        forall j :: 0 <= j < MAX_INODES && j != i ==> n.used[j] == t.used[j] && n.inodes[j] == t.inodes[j];
  }

  lemma PutIndex(t: Table, f: nat, e: Inode)
    requires Tree(t) && f < MAX_INODES && !t.used[f] && Creatable(t, e.path) && !Exists(t, e.path)
    requires e.name == FileName(e.path) && e.parent == ParentDir(e.path) && e.kind.Regular?
    ensures InodeIndex(Put(t, f, e), e.path) == f && Put(t, f, e).inodes[f] == e && !DirAt(Put(t, f, e), e.path)
  {
    PutTree(t, f, e);
    IndexFinds(Put(t, f, e), e.path);
    assert Put(t, f, e).used[f] && Put(t, f, e).inodes[f] == e;
  }

  /** A symbolic link adds exactly its path, with the first 99 characters of the target
      as its content; it fails only when the table is full. */
  lemma SymlinkAddsPath(t: Table, target: string, path: string, p: string)
    requires Tree(t) && Creatable(t, path) && !Exists(t, path)
    ensures var (r, n) := Symlink(t, target, path);
      && r == (if Full(t) then NoSpace else Ok)
      && (r != Ok ==> n == t)
      && Shape(n) && (r == Ok ==> (Exists(n, p) <==> Exists(t, p) || p == path))
      && (r == Ok ==>
           && InodeIndex(n, path) >= 0 && n.inodes[InodeIndex(n, path)].symlink && !DirAt(n, path)
           && n.inodes[InodeIndex(n, path)].content
                == if |target| < MAX_CONTENT then target else target[..MAX_CONTENT - 1])
  {
    var f := FreeSlot(t, 0);
    if f >= 0 {
      var e := SymlinkInode(target, path);
      PutPaths(t, f, e, p);
      PutIndex(t, f, e);
    }
  }

  /** A link reads back as its target exactly when the target is shorter than both the
      inode's room for it and the reader's buffer. */
  lemma SymlinkReadsBackIff(t: Table, target: string, path: string, size: nat)
    requires Tree(t) && Creatable(t, path) && !Exists(t, path) && Symlink(t, target, path).0 == Ok && size > 0
    ensures var n := Symlink(t, target, path).1;
            && Shape(n) && Readlink(n, path, size).0 == Ok
            && (Readlink(n, path, size).1 == target <==> |target| < MAX_CONTENT && |target| < size)
  {
    SymlinkAddsPath(t, target, path, path);
    EntryIffPath(t, path);
    assert |Copied(target, MAX_CONTENT)| < MAX_CONTENT;
  }

  /** A hard link adds its path next to an existing file. */
  lemma LinkAddsPath(t: Table, source: string, path: string, p: string)
    requires Tree(t) && Creatable(t, path) && !Exists(t, path)
    ensures var (r, n) := Link(t, source, path);
      && r == (if !Exists(t, source) then NoEntry
               else if DirAt(t, source) then IsDirectory
               else if Full(t) then NoSpace
               else Ok)
      && (r != Ok ==> n == t)
      && Shape(n) && (r == Ok ==> (Exists(n, p) <==> Exists(t, p) || p == path))
  {
    IndexFinds(t, source);
    var i, f := InodeIndex(t, source), FreeSlot(t, 0);
    if Link(t, source, path).0 == Ok {
      PutPaths(t, f, LinkInode(t, i, path), p);
      MoreLinksPaths(Put(t, f, LinkInode(t, i, path)), i, p);
    }
  }

  /** Both names then lead to the same content and the same link count. */
  lemma LinkShares(t: Table, source: string, path: string)
    requires Tree(t) && Creatable(t, path) && !Exists(t, path) && Link(t, source, path).0 == Ok
    ensures var n := Link(t, source, path).1;
            var i, j := InodeIndex(n, source), InodeIndex(n, path);
      && Shape(n) && i >= 0 && j >= 0 && i != j
      && n.inodes[j].content == n.inodes[i].content == t.inodes[InodeIndex(t, source)].content
      && n.inodes[j].nlink == n.inodes[i].nlink
  {
    var n := Link(t, source, path).1;
    var i, f := InodeIndex(t, source), FreeSlot(t, 0);
    IndexFinds(t, source);
    LinkTree(t, source, path);
    IndexFinds(n, source);
    IndexFinds(n, path);
    assert n.used[f] && n.inodes[f].path == path;
    assert n.used[i] && n.inodes[i].path == source;
  }

  // ---------- what the operations do to each file ----------

  /** What a path leads to. */
  datatype Stat = Absent | Stat(kind: Kind, symlink: bool, nlink: nat, content: string)

  function StatOf(t: Table, path: string): Stat
    requires Shape(t)
  {
    var i := InodeIndex(t, path);
    if i < 0 then Absent
    else Stat(t.inodes[i].kind, t.inodes[i].symlink, t.inodes[i].nlink, t.inodes[i].content)
  }

  function OneMore(s: Stat): Stat {
    if s.Absent? then s else s.(nlink := s.nlink + 1)
  }

  /** What a path leads to after a call that succeeds. */
  function StatAfter(t: Table, ev: Event, p: string): Stat
    requires Shape(t)
  {
    match ev
    case DoNew(path, kind) =>
      if p != path then StatOf(t, p)
      else if Exists(t, path) then OneMore(StatOf(t, p))
      else Stat(kind, false, if kind == Regular then 1 else 2, "")
    case DoRmdir(path) => if p == path then Absent else StatOf(t, p)
    case DoUnlink(path) => if p == path then Absent else StatOf(t, p)
    case DoSymlink(target, path) =>
      if p != path then StatOf(t, p)
      else Stat(Regular, true, 1, if |target| < MAX_CONTENT then target else target[..MAX_CONTENT - 1])
    case DoLink(source, path) => if p == path || p == source then OneMore(StatOf(t, source)) else StatOf(t, p)
  }

  lemma StatAt(t: Table, i: nat)
    requires Tree(t) && i < MAX_INODES && t.used[i]
    ensures StatOf(t, t.inodes[i].path)
         == Stat(t.inodes[i].kind, t.inodes[i].symlink, t.inodes[i].nlink, t.inodes[i].content)
  {
    IndexFinds(t, t.inodes[i].path);
  }

  lemma StatAbsent(t: Table, path: string)
    requires Tree(t)
    ensures StatOf(t, path) == Absent <==> !Exists(t, path)
  {
    IndexFinds(t, path);
  }

  /** A path whose slot is as it was leads where it led. */
  lemma StatSame(t: Table, n: Table, p: string)
    requires Tree(t) && Tree(n) && (Exists(n, p) <==> Exists(t, p))
    requires forall i :: 0 <= i < MAX_INODES && t.used[i] && t.inodes[i].path == p ==>
               n.used[i] && n.inodes[i] == t.inodes[i]
    ensures StatOf(n, p) == StatOf(t, p)
  {
    StatAbsent(t, p);
    StatAbsent(n, p);
    if i: nat :| i < MAX_INODES && t.used[i] && t.inodes[i].path == p {
      StatAt(t, i);
      StatAt(n, i);
    }
  }

  lemma PutStat(t: Table, f: nat, e: Inode, p: string)
    requires Tree(t) && f < MAX_INODES && !t.used[f] && !Exists(t, e.path) && Tree(Put(t, f, e))
    ensures StatOf(Put(t, f, e), p)
         == if p == e.path then Stat(e.kind, e.symlink, e.nlink, e.content) else StatOf(t, p)
  {
    if p == e.path {
      StatAt(Put(t, f, e), f);
    } else {
      PutPaths(t, f, e, p);
      StatSame(t, Put(t, f, e), p);
    }
  }

  lemma MoreLinksStat(t: Table, i: nat, p: string)
    requires Tree(t) && i < MAX_INODES && t.used[i]
    ensures Shape(MoreLinks(t, i))
    ensures StatOf(MoreLinks(t, i), p) == if p == t.inodes[i].path then OneMore(StatOf(t, p)) else StatOf(t, p)
  {
    MoreLinksTree(t, i);
    if p == t.inodes[i].path {
      StatAt(t, i);
      StatAt(MoreLinks(t, i), i);
    } else {
      MoreLinksPaths(t, i, p);
      StatSame(t, MoreLinks(t, i), p);
    }
  }

  lemma DropStat(t: Table, i: nat, p: string)
    requires Tree(t) && i < MAX_INODES && t.used[i] && Tree(Drop(t, i))
    ensures StatOf(Drop(t, i), p) == if p == t.inodes[i].path then Absent else StatOf(t, p)
  {
    var n := Drop(t, i);
    assert forall j :: 0 <= j < MAX_INODES && j != i ==> n.used[j] == t.used[j] && n.inodes[j] == t.inodes[j];
    StatAbsent(n, p);
    if p != t.inodes[i].path {
      assert Exists(n, p) <==> Exists(t, p);
      StatSame(t, n, p);
    }
  }

  lemma NewStat(t: Table, path: string, kind: Kind, p: string)
    requires Tree(t) && Creatable(t, path) && NewInode(t, path, kind).0 == Ok
    ensures Shape(NewInode(t, path, kind).1)
    ensures StatOf(NewInode(t, path, kind).1, p) == StatAfter(t, DoNew(path, kind), p)
  {
    var e := Inode(FileName(path), path, ParentDir(path), kind, false, if kind.Regular? then 1 else 2, "");
    EntryIffPath(t, path);
    NewTree(t, path, kind);
    var i := SearchEntry(t, e.name, e.parent, 0);
    if i >= 0 {
      EntryIsPath(t, path, i);
      MoreLinksStat(t, i, p);
    } else {
      PutStat(t, FreeSlot(t, 0), e, p);
    }
  }

  lemma EntryIsPath(t: Table, path: string, i: nat)
    requires Tree(t) && Creatable(t, path) && i < MAX_INODES && t.used[i]
    requires t.inodes[i].name == FileName(path) && t.inodes[i].parent == ParentDir(path)
    ensures t.inodes[i].path == path && Exists(t, path)
  {
    assert NodeOk(t, i);
    DirNotEmpty(t, ParentDir(path));
  }

  lemma LinkStat(t: Table, source: string, path: string, p: string)
    requires Tree(t) && Creatable(t, path) && !Exists(t, path) && Link(t, source, path).0 == Ok
    ensures Shape(Link(t, source, path).1)
    ensures StatOf(Link(t, source, path).1, p) == StatAfter(t, DoLink(source, path), p)
  {
    var i, f := InodeIndex(t, source), FreeSlot(t, 0);
    var e := LinkInode(t, i, path);
    assert i >= 0 && t.used[i] && t.inodes[i].path == source by {
      IndexFinds(t, source);
    }
    assert Tree(Put(t, f, e)) by {
      PutTree(t, f, e);
    }
    StatAt(t, i);
    PutStat(t, f, e, p);
    MoreLinksStat(Put(t, f, e), i, p);
  }

  /** Every successful call does to every path what is asked of it, and nothing else: the
      kind, the link mode, the link count and the content of each file afterwards. */
  lemma NextStat(t: Table, ev: Event, p: string)
    requires Tree(t) && Allowed(t, ev) && Next(t, ev).0 == Ok
    ensures Shape(Next(t, ev).1) && StatOf(Next(t, ev).1, p) == StatAfter(t, ev, p)
  {
    NextTree(t, ev);
    match ev
    case DoNew(path, kind) => NewStat(t, path, kind, p);
    case DoRmdir(path) =>
      IndexFinds(t, path);
      DropStat(t, InodeIndex(t, path), p);
    case DoUnlink(path) =>
      IndexFinds(t, path);
      DropStat(t, InodeIndex(t, path), p);
    case DoSymlink(target, path) => PutStat(t, FreeSlot(t, 0), SymlinkInode(target, path), p);
    case DoLink(source, path) => LinkStat(t, source, path, p);
  }

  /** The link count is not the number of names: linking and unlinking again leaves the
      one name that is left with a count of one more. */
  lemma UnlinkKeepsCount(t: Table, source: string, path: string)
    requires Tree(t) && Creatable(t, path) && !Exists(t, path) && Link(t, source, path).0 == Ok && path != source
    ensures var n := Link(t, source, path).1;
      Shape(n) && Unlink(n, path).0 == Ok && Shape(Unlink(n, path).1)
      && StatOf(Unlink(n, path).1, source) == OneMore(StatOf(t, source))
  {
    var n := Link(t, source, path).1;
    assert path != ROOT by {
      EntryIffPath(t, path);
    }
    LinkedIsFile(t, source, path);
    UnlinkStat(n, path, source);
    LinkStat(t, source, path, source);
  }

  lemma UnlinkStat(t: Table, path: string, p: string)
    requires Tree(t) && path != ROOT && Unlink(t, path).0 == Ok && p != path
    ensures Shape(Unlink(t, path).1) && StatOf(Unlink(t, path).1, p) == StatOf(t, p)
  {
    NextStat(t, DoUnlink(path), p);
  }

  lemma LinkedIsFile(t: Table, source: string, path: string)
    requires Tree(t) && Creatable(t, path) && !Exists(t, path) && Link(t, source, path).0 == Ok
    ensures Tree(Link(t, source, path).1) && Unlink(Link(t, source, path).1, path).0 == Ok
  {
    LinkTree(t, source, path);
    LinkStat(t, source, path, path);
    IndexFinds(t, source);
    StatAt(t, InodeIndex(t, source));
  }

  // ---------- the file system as it runs ----------

  class FileSystem {
    const inodes: array<Inode>
    const used: array<bool>

    ghost function Value(): Table
      reads inodes, used
    {
      Table(inodes[..], used[..])
    }

    ghost predicate Ready() {
      inodes.Length == used.Length == MAX_INODES
    }

    /** create_root. */
    constructor ()
      ensures Ready() && Value() == INITIAL && fresh(inodes) && fresh(used)
    {
      inodes := new Inode[MAX_INODES](i => Inode("", "", "", Regular, false, 0, ""));
      used := new bool[MAX_INODES](i => false);
      new;
      inodes[0] := Inode("Root", ROOT, "", Directory, false, 2, "");
      used[0] := true;
      assert inodes[..] == INITIAL.inodes && used[..] == INITIAL.used;
    }

    method SearchInodeByPath(path: string) returns (r: int)
      requires Ready()
      ensures r == SearchPath(Value(), path, 0)
    {
      var i := 0;
      while i < MAX_INODES
        invariant 0 <= i <= MAX_INODES && SearchPath(Value(), path, 0) == SearchPath(Value(), path, i)
      {
        if used[i] && inodes[i].path == path {
          return i;
        }
        i := i + 1;
      }
      r := -1;
    }

    method SearchFreeInode() returns (r: int)
      requires Ready()
      ensures r == FreeSlot(Value(), 0)
    {
      var i := 0;
      while i < MAX_INODES
        invariant 0 <= i <= MAX_INODES && FreeSlot(Value(), 0) == FreeSlot(Value(), i)
      {
        if !used[i] {
          return i;
        }
        i := i + 1;
      }
      r := -1;
    }

    method GetInodeIndex(path: string) returns (r: int)
      requires Ready()
      ensures r == InodeIndex(Value(), path)
    {
      if path == ROOT {
        return 0;
      }
      r := SearchInodeByPath(path);
    }

    method SetInodeInSuperblock(n: Inode) returns (r: Status)
      requires Ready()
      modifies inodes, used
      ensures (r, Value()) == SetInode(old(Value()), n)
    {
      var i := 0;
      while i < MAX_INODES
        invariant 0 <= i <= MAX_INODES && Value() == old(Value())
        invariant SearchEntry(Value(), n.name, n.parent, 0) == SearchEntry(Value(), n.name, n.parent, i)
      {
        if used[i] && inodes[i].name == n.name && inodes[i].parent == n.parent {
          inodes[i] := inodes[i].(nlink := inodes[i].nlink + 1);
          assert inodes[..] == MoreLinks(old(Value()), i).inodes;
          return Ok;
        }
        i := i + 1;
      }
      var f := SearchFreeInode();
      if f < 0 {
        return NoSpace;
      }
      Store(f, n);
      r := Ok;
    }

    method Store(f: nat, n: Inode)
      requires Ready() && f < MAX_INODES
      modifies inodes, used
      ensures Value() == Put(old(Value()), f, n)
    {
      inodes[f] := n;
      used[f] := true;
      assert inodes[..] == Put(old(Value()), f, n).inodes && used[..] == Put(old(Value()), f, n).used;
    }

    method Release(i: nat)
      requires Ready() && i < MAX_INODES
      modifies used
      ensures Value() == Drop(old(Value()), i)
    {
      used[i] := false;
      assert used[..] == Drop(old(Value()), i).used;
    }

    method MakeInode(path: string, kind: Kind) returns (r: Status)
      requires Ready()
      modifies inodes, used
      ensures (r, Value()) == NewInode(old(Value()), path, kind)
    {
      var nlink := if kind.Regular? then 1 else 2;
      r := SetInodeInSuperblock(Inode(FileName(path), path, ParentDir(path), kind, false, nlink, ""));
    }

    method RemoveDirectory(path: string) returns (r: Status)
      requires Ready()
      modifies used
      ensures (r, Value()) == Rmdir(old(Value()), path)
    {
      var index := GetInodeIndex(path);
      if index < 0 {
        return NoEntry;
      }
      if !inodes[index].kind.Directory? {
        return NotDir;
      }
      var i := 0;
      while i < MAX_INODES
        invariant 0 <= i <= MAX_INODES && Value() == old(Value())
        invariant forall j :: 0 <= j < i ==> !(used[j] && inodes[j].parent == path)
      {
        if used[i] && inodes[i].parent == path {
          assert Value().used[i] && Value().inodes[i].parent == path;
          return NotEmpty;
        }
        i := i + 1;
      }
      Release(index);
      r := Ok;
    }

    method RemoveFile(path: string) returns (r: Status)
      requires Ready()
      modifies used
      ensures (r, Value()) == Unlink(old(Value()), path)
    {
      var index := GetInodeIndex(path);
      if index < 0 {
        return NoEntry;
      }
      if !inodes[index].kind.Regular? && !inodes[index].symlink {
        return IsDirectory;
      }
      Release(index);
      r := Ok;
    }

    method MakeSymlink(target: string, path: string) returns (r: Status)
      requires Ready()
      modifies inodes, used
      ensures (r, Value()) == Symlink(old(Value()), target, path)
    {
      var f := SearchFreeInode();
      if f < 0 {
        return NoSpace;
      }
      Store(f, SymlinkInode(target, path));
      r := Ok;
    }

    method ReadSymlink(path: string, size: nat) returns (r: Status, buffer: string)
      requires Ready() && size > 0
      ensures (r, buffer) == Readlink(Value(), path, size)
    {
      var i := SearchInodeByPath(path);
      if i < 0 {
        return NoEntry, "";
      }
      if !inodes[i].symlink {
        return Invalid, "";
      }
      var length := |inodes[i].content|;
      if length >= size {
        length := size - 1;
      }
      r, buffer := Ok, inodes[i].content[..length];
      assert buffer == Copied(inodes[i].content, size);
    }

    method MakeLink(source: string, path: string) returns (r: Status)
      requires Ready()
      modifies inodes, used
      ensures (r, Value()) == Link(old(Value()), source, path)
    {
      var i := GetInodeIndex(source);
      if i < 0 {
        return NoEntry;
      }
      if !inodes[i].kind.Regular? {
        return IsDirectory;
      }
      var f := SearchFreeInode();
      if f < 0 {
        return NoSpace;
      }
      var n := inodes[i].(name := FileName(path), path := path, parent := ParentDir(path),
                          nlink := inodes[i].nlink + 1);
      Store(f, n);
      inodes[i] := inodes[i].(nlink := inodes[i].nlink + 1);
      assert inodes[..] == MoreLinks(Put(old(Value()), f, n), i).inodes;
      r := Ok;
    }
  }
}
