/** Hard links over two name tables: the inode table of src/kernel/mfs4.c on top of the file table of
    src/kernel/fs.c. */
module Links {

  const MAX_INODES: nat := 128
  const MAX_FILES: nat := 64
  const PATH_LEN: nat := 64
  const NAME_LEN: nat := 32

  datatype Kind = RegularFile | Directory | Symlink

  datatype Inode = Inode(used: bool, kind: Kind, id: nat, path: string, target: string)

  /** A slot of the file table; its contents stay with the slot. */
  datatype File = File(used: bool, name: string, dir: bool)

  datatype State = State(inodes: seq<Inode>, files: seq<File>, nextId: nat)

  predicate Shaped(s: State) { |s.inodes| == MAX_INODES && |s.files| == MAX_FILES }

  /** A copy into a field of n characters, the last one kept for the terminator. */
  function Cut(s: string, n: nat): (r: string)
    requires n > 0
    ensures |r| < n && r <= s && (|s| < n ==> r == s)
  {
    if |s| < n then s else s[..n - 1]
  }

  // ---------------------------------------------------------------------------
  // Searches
  // ---------------------------------------------------------------------------

  predicate Names(s: State, i: nat, path: string)
    requires Shaped(s) && i < MAX_INODES
  {
    s.inodes[i].used && s.inodes[i].path == path
  }

  /** `find_inode` from slot k on. */
  function FindInode(s: State, path: string, k: nat := 0): (r: int)
    requires Shaped(s) && k <= MAX_INODES
    ensures r == -1 || (k <= r < MAX_INODES && Names(s, r, path))
    ensures forall i :: k <= i < MAX_INODES && (r == -1 || i < r) ==> !Names(s, i, path)
    decreases MAX_INODES - k, |s.inodes|
  {
    if k == MAX_INODES then -1 else if Names(s, k, path) then k else FindInode(s, path, k + 1)
  }

  /** `alloc_inode` from slot k on. */
  function FreeInode(s: State, k: nat := 0): (r: int)
    requires Shaped(s) && k <= MAX_INODES
    ensures r == -1 || (k <= r < MAX_INODES && !s.inodes[r].used)
    ensures r == -1 ==> forall i :: k <= i < MAX_INODES ==> s.inodes[i].used
    decreases MAX_INODES - k, |s.inodes|
  {
    if k == MAX_INODES then -1 else if !s.inodes[k].used then k else FreeInode(s, k + 1)
  }

  predicate Holds(fs: seq<File>, i: nat, name: string)
    requires i < |fs|
  {
    fs[i].used && fs[i].name == name
  }

  function FindFile(fs: seq<File>, name: string, k: nat := 0): (r: int)
    requires k <= |fs|
    ensures r == -1 || (k <= r < |fs| && Holds(fs, r, name))
    ensures forall i :: k <= i < |fs| && (r == -1 || i < r) ==> !Holds(fs, i, name)
    decreases |fs| - k
  {
    if k == |fs| then -1 else if Holds(fs, k, name) then k else FindFile(fs, name, k + 1)
  }

  function FreeFile(fs: seq<File>, k: nat := 0): (r: int)
    requires k <= |fs|
    ensures r == -1 || (k <= r < |fs| && !fs[r].used)
    decreases |fs| - k
  {
    if k == |fs| then -1 else if !fs[k].used then k else FreeFile(fs, k + 1)
  }

  /** A directory entry that is a regular file with the given inode number. */
  predicate LinkOf(s: State, i: nat, id: nat)
    requires Shaped(s) && i < MAX_INODES
  {
    s.inodes[i].used && s.inodes[i].kind == RegularFile && s.inodes[i].id == id
  }

  function Refs(s: State, id: nat, n: nat): nat
    requires Shaped(s) && n <= MAX_INODES
    decreases n, |s.inodes|
  {
    if n == 0 then 0 else Refs(s, id, n - 1) + if LinkOf(s, n - 1, id) then 1 else 0
  }

  // ---------------------------------------------------------------------------
  // Operations
  // ---------------------------------------------------------------------------

  datatype Op =
    | MakeSymlink(path: string, target: string)
    | MakeLink(path: string, original: string)
    | MakeDir(path: string)
    | Unlink(path: string)
    | Rename(path: string, to: string)

  function PutInode(s: State, i: nat, nd: Inode): State
    requires Shaped(s) && i < MAX_INODES
  {
    s.(inodes := s.inodes[i := nd])
  }

  function NextId(s: State): State { s.(nextId := (s.nextId + 1) % 0x1_0000_0000) }

  function DoSymlink(s: State, path: string, target: string): (State, bool)
    requires Shaped(s)
  {
    if FindInode(s, path) >= 0 then (s, false)
    else
      var k := FreeInode(s);
      if k < 0 then (s, false)
      else (NextId(PutInode(s, k, Inode(true, Symlink, s.nextId, Cut(path, PATH_LEN), Cut(target, PATH_LEN)))), true)
  }

  function DoLink(s: State, path: string, original: string): (State, bool)
    requires Shaped(s)
  {
    if FindInode(s, path) >= 0 then (s, false)
    else
      var o := FindInode(s, original);
      if o < 0 || s.inodes[o].kind != RegularFile then (s, false)
      else
        var k := FreeInode(s);
        if k < 0 then (s, false)
        else (PutInode(s, k, Inode(true, RegularFile, s.inodes[o].id, Cut(path, PATH_LEN),
            Cut(s.inodes[o].target, PATH_LEN))), true)
  }

  /** `fs_mkdir`. */
  function FsMkdir(fs: seq<File>, name: string): (r: seq<File>)
    ensures |r| == |fs|
  {
    if FindFile(fs, name) >= 0 then fs
    else
      var k := FreeFile(fs);
      if k < 0 then fs else fs[k := File(true, Cut(name, NAME_LEN), true)]
  }

  function DoMkdir(s: State, path: string): (State, bool)
    requires Shaped(s)
  {
    if path == "" || FindInode(s, path) >= 0 then (s, false)
    else
      var t := s.(files := FsMkdir(s.files, path));
      var k := FreeInode(t);
      if k < 0 then (t, false)
      else (NextId(PutInode(t, k, Inode(true, Directory, t.nextId, Cut(path, PATH_LEN), Cut(path, PATH_LEN)))), true)
  }

  /** `fs_delete`. */
  function FsDelete(fs: seq<File>, name: string): (r: seq<File>)
    ensures |r| == |fs|
  {
    var k := FindFile(fs, name);
    if k < 0 then fs else fs[k := fs[k].(used := false)]
  }

  function DoUnlink(s: State, path: string): (State, bool)
    requires Shaped(s)
  {
    var i := FindInode(s, path);
    if i < 0 then (s, false)
    else
      var nd := s.inodes[i];
      var fs := if nd.kind == RegularFile && Refs(s, nd.id, MAX_INODES) <= 1 then FsDelete(s.files, nd.target)
          else s.files;
      (PutInode(s, i, nd.(used := false)).(files := fs), true)
  }

  function Retarget(s: State, id: nat, to: string): State
    requires Shaped(s)
  {
    s.(inodes := seq(MAX_INODES, i requires 0 <= i < MAX_INODES =>
      if LinkOf(s, i, id) then s.inodes[i].(target := Cut(to, PATH_LEN)) else s.inodes[i]))
  }

  function DoRename(s: State, path: string, to: string): (State, bool)
    requires Shaped(s)
  {
    var i := FindInode(s, path);
    if i < 0 || FindInode(s, to) >= 0 then (s, false)
    else
      var nd := s.inodes[i];
      if nd.kind != RegularFile then (PutInode(s, i, nd.(path := Cut(to, PATH_LEN))), true)
      else
        var k := FindFile(s.files, nd.target);
        if FindFile(s.files, to) >= 0 || k < 0 then (s, false)
        else
          var t := Retarget(s, nd.id, to);
          (PutInode(t, i, t.inodes[i].(path := Cut(to, PATH_LEN))).(files :=
              s.files[k := s.files[k].(name := Cut(to, NAME_LEN))]), true)
  }

  function Apply(s: State, op: Op): (State, bool)
    requires Shaped(s)
  {
    match op
    case MakeSymlink(p, t) => DoSymlink(s, p, t)
    case MakeLink(p, o) => DoLink(s, p, o)
    case MakeDir(p) => DoMkdir(s, p)
    case Unlink(p) => DoUnlink(s, p)
    case Rename(p, t) => DoRename(s, p, t)
  }

  // ---------------------------------------------------------------------------
  // The invariant
  // ---------------------------------------------------------------------------

  predicate IsFile(s: State, i: nat)
    requires Shaped(s)
  {
    i < MAX_INODES && s.inodes[i].used && s.inodes[i].kind == RegularFile
  }

  /** The file slot behind an entry. */
  function SlotOf(s: State, i: nat): int
    requires Shaped(s) && i < MAX_INODES
  {
    FindFile(s.files, s.inodes[i].target)
  }

  predicate SamePath(s: State, i: nat, j: nat)
    requires Shaped(s) && i < MAX_INODES && j < MAX_INODES
  {
    s.inodes[i].used && s.inodes[j].used && s.inodes[i].path == s.inodes[j].path
  }

  predicate SameName(fs: seq<File>, i: nat, j: nat)
    requires i < |fs| && j < |fs|
  {
    fs[i].used && fs[j].used && fs[i].name == fs[j].name
  }

  predicate PathsUnique(s: State)
    requires Shaped(s)
  {
    forall i, j :: 0 <= i < MAX_INODES && 0 <= j < MAX_INODES && SamePath(s, i, j) ==> i == j
  }

  predicate NamesUnique(fs: seq<File>) {
    forall i, j :: 0 <= i < |fs| && 0 <= j < |fs| && SameName(fs, i, j) ==> i == j
  }

  predicate Together(s: State, i: nat, j: nat)
    requires Shaped(s) && i < MAX_INODES && j < MAX_INODES
  {
    s.inodes[i].id == s.inodes[j].id <==> s.inodes[i].target == s.inodes[j].target
  }

  /** Paths and file names are unique; every regular file has a live slot; one inode number means one slot. */
  predicate Inv(s: State) {
    Shaped(s) && PathsUnique(s) && NamesUnique(s.files)
    && (forall i :: 0 <= i < MAX_INODES && IsFile(s, i) ==> SlotOf(s, i) >= 0 && |s.inodes[i].target| < NAME_LEN)
    && (forall i, j :: 0 <= i < MAX_INODES && 0 <= j < MAX_INODES && IsFile(s, i) && IsFile(s, j) ==> Together(s, i, j))
  }

  /** What a path leads to: the slot of a regular file; -1 for anything else. */
  function Lookup(s: State, path: string): int
    requires Shaped(s)
  {
    var i := FindInode(s, path);
    if i >= 0 && s.inodes[i].kind == RegularFile then SlotOf(s, i) else -1
  }

  /** What a path stands for: a file by its slot, a directory, or a symbolic link with its target. */
  datatype Node = NoNode | FileNode(slot: int) | DirNode | LinkNode(target: string)

  function NodeAt(s: State, path: string): Node
    requires Shaped(s)
  {
    var i := FindInode(s, path);
    if i < 0 then NoNode
    else match s.inodes[i].kind
      case RegularFile => FileNode(SlotOf(s, i))
      case Directory => DirNode
      case Symlink => LinkNode(s.inodes[i].target)
  }

  /** Stored names fit their fields, as every copy into them does. */
  predicate Sized(s: State) {
    Shaped(s) && (forall i :: 0 <= i < MAX_INODES && s.inodes[i].used ==> |s.inodes[i].path| < PATH_LEN)
    && forall k :: 0 <= k < MAX_FILES && s.files[k].used ==> |s.files[k].name| < NAME_LEN
  }

  predicate Ok(s: State) { Inv(s) && Sized(s) }

  /** A new entry for the path would not be stored under a path already in use: it fits, there is no room for it, or
      what is left of it after cutting is free. */
  predicate PathSafe(s: State, path: string)
    requires Shaped(s)
  {
    |path| < PATH_LEN || FreeInode(s) < 0 || FindInode(s, Cut(path, PATH_LEN)) < 0
  }

  /** The same for a new name in the file table. */
  predicate NameSafe(s: State, name: string)
    requires Shaped(s)
  {
    |name| < NAME_LEN || FreeFile(s.files) < 0 || FindFile(s.files, Cut(name, NAME_LEN)) < 0
  }

  predicate IsRegular(s: State, path: string)
    requires Shaped(s)
  {
    FindInode(s, path) >= 0 && s.inodes[FindInode(s, path)].kind == RegularFile
  }

  predicate MoveSafe(s: State, path: string, to: string)
    requires Shaped(s)
  {
    if IsRegular(s, path) then |to| < NAME_LEN
        else |to| < PATH_LEN || FindInode(s, Cut(to, PATH_LEN)) in {-1, FindInode(s, path)}
  }

  /** When an operation leaves the tables consistent. */
  predicate Safe(s: State, op: Op)
    requires Shaped(s)
  {
    match op
    case MakeSymlink(p, _) => PathSafe(s, p)
    case MakeLink(p, o) => !IsRegular(s, o) || PathSafe(s, p)
    case MakeDir(p) => FindInode(s, p) >= 0 || (PathSafe(s, p) && NameSafe(s, p))
    case Unlink(_) => true
    case Rename(q, to) => FindInode(s, q) < 0 || FindInode(s, to) >= 0 || MoveSafe(s, q, to)
  }

  /** What the operation should do to every path. */
  function Expected(s: State, op: Op, ok: bool, p: string): Node
    requires Shaped(s)
  {
    if !ok then NodeAt(s, p)
    else match op
      case MakeSymlink(l, t) => if p == Cut(l, PATH_LEN) then LinkNode(Cut(t, PATH_LEN)) else NodeAt(s, p)
      case MakeLink(l, o) => if p == Cut(l, PATH_LEN) then NodeAt(s, o) else NodeAt(s, p)
      case MakeDir(d) => if p == Cut(d, PATH_LEN) then DirNode else NodeAt(s, p)
      case Unlink(q) => if p == q then NoNode else NodeAt(s, p)
      case Rename(q, to) => if p == Cut(to, PATH_LEN) then NodeAt(s, q) else if p == q then NoNode else NodeAt(s, p)
  }
}
