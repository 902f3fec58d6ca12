/** Every operation on links keeps the tables consistent and acts on paths like a plain map from path to file. */
module LinkSteps {
  import opened Links

  // ---------------------------------------------------------------------------
  // Searches in tables with unique names
  // ---------------------------------------------------------------------------

  lemma InodeAt(s: State, i: nat, p: string)
    requires Shaped(s) && PathsUnique(s) && i < MAX_INODES && Names(s, i, p)
    ensures FindInode(s, p) == i
  {
    var r := FindInode(s, p);
    assert SamePath(s, r, i);
  }

  lemma Nowhere(s: State, p: string)
    requires Shaped(s) && FindInode(s, p) == -1
    ensures forall i :: 0 <= i < MAX_INODES && s.inodes[i].used ==> s.inodes[i].path != p
  {
    forall i | 0 <= i < MAX_INODES && s.inodes[i].used ensures s.inodes[i].path != p { assert !Names(s, i, p); }
  }

  lemma FileAt(fs: seq<File>, i: nat, name: string)
    requires NamesUnique(fs) && i < |fs| && Holds(fs, i, name)
    ensures FindFile(fs, name) == i
  {
    var r := FindFile(fs, name);
    assert SameName(fs, r, i);
  }

  /** A new entry in a free slot, under a path not yet taken. */
  lemma FreshPaths(s: State, k: nat, nd: Inode)
    requires Shaped(s) && PathsUnique(s) && k < MAX_INODES && !s.inodes[k].used && nd.used
      && FindInode(s, nd.path) == -1
    ensures PathsUnique(PutInode(s, k, nd))
  {
    var r := PutInode(s, k, nd);
    forall i, j | 0 <= i < MAX_INODES && 0 <= j < MAX_INODES && SamePath(r, i, j) ensures i == j {
      assert !Names(s, i, nd.path) && !Names(s, j, nd.path);
      if i != k && j != k { assert SamePath(s, i, j); }
    }
  }

  lemma FreshFind(s: State, k: nat, nd: Inode, p: string)
    requires Shaped(s) && PathsUnique(s) && k < MAX_INODES && !s.inodes[k].used && nd.used
      && FindInode(s, nd.path) == -1
    ensures FindInode(PutInode(s, k, nd), p) == if p == nd.path then k else FindInode(s, p)
  {
    var r := PutInode(s, k, nd);
    FreshPaths(s, k, nd);
    var i := FindInode(s, p);
    if p == nd.path {
      InodeAt(r, k, p);
    } else if i >= 0 {
      assert Names(r, i, p);
      InodeAt(r, i, p);
    } else {
      Nowhere(s, p);
    }
  }

  lemma FileOk(s: State, i: nat)
    requires Inv(s) && i < MAX_INODES && IsFile(s, i)
    ensures 0 <= SlotOf(s, i) < MAX_FILES && Holds(s.files, SlotOf(s, i), s.inodes[i].target)
      && |s.inodes[i].target| < NAME_LEN
  {}

  // ---------------------------------------------------------------------------
  // symlink, link
  // ---------------------------------------------------------------------------

  /** A new entry keeps the invariant if it is no regular file, or shares number and target with one. */
  lemma FreshInv(s: State, k: nat, nd: Inode, o: nat)
    requires Inv(s) && k < MAX_INODES && !s.inodes[k].used && nd.used && FindInode(s, nd.path) == -1
    requires nd.kind == RegularFile ==> IsFile(s, o) && nd.id == s.inodes[o].id && nd.target == s.inodes[o].target
    ensures Inv(PutInode(s, k, nd))
  {
    var r := PutInode(s, k, nd);
    FreshPaths(s, k, nd);
    forall i | 0 <= i < MAX_INODES && IsFile(r, i) ensures SlotOf(r, i) >= 0 && |r.inodes[i].target| < NAME_LEN {
      var j := if i == k then o else i;
      assert IsFile(s, j);
      FileOk(s, j);
    }
    forall i, j | 0 <= i < MAX_INODES && 0 <= j < MAX_INODES && IsFile(r, i) && IsFile(r, j) ensures Together(r, i, j) {
      var a, b := if i == k then o else i, if j == k then o else j;
      assert IsFile(s, a) && IsFile(s, b) && Together(s, a, b);
    }
  }

  lemma NextIdSame(s: State, p: string)
    requires Shaped(s)
    ensures FindInode(NextId(s), p) == FindInode(s, p) && NodeAt(NextId(s), p) == NodeAt(s, p)
  {
    SameInodes(s, NextId(s), p, 0);
  }

  lemma {:induction false} SameInodes(s: State, t: State, p: string, k: nat)
    requires Shaped(s) && Shaped(t) && s.inodes == t.inodes && k <= MAX_INODES
    ensures FindInode(s, p, k) == FindInode(t, p, k)
    decreases MAX_INODES - k
  {
    if k < MAX_INODES { SameInodes(s, t, p, k + 1); }
  }

  lemma NextIdInv(s: State)
    requires Inv(s)
    ensures Inv(NextId(s))
  {
    var t := NextId(s);
    forall i, j | 0 <= i < MAX_INODES && 0 <= j < MAX_INODES && SamePath(t, i, j) ensures i == j {
      assert SamePath(s, i, j);
    }
    forall i | 0 <= i < MAX_INODES && IsFile(t, i) ensures SlotOf(t, i) >= 0 && |t.inodes[i].target| < NAME_LEN {
      assert IsFile(s, i);
    }
    forall i, j | 0 <= i < MAX_INODES && 0 <= j < MAX_INODES && IsFile(t, i) && IsFile(t, j) ensures Together(t, i, j) {
      assert IsFile(s, i) && IsFile(s, j) && Together(s, i, j);
    }
  }

  lemma SizedPut(s: State, k: nat, nd: Inode)
    requires Sized(s) && k < MAX_INODES && |nd.path| < PATH_LEN
    ensures Sized(PutInode(s, k, nd)) && Sized(NextId(PutInode(s, k, nd)))
  {}

  lemma LongAbsent(s: State, p: string)
    requires Sized(s)
    ensures |p| >= PATH_LEN ==> FindInode(s, p) == -1
    ensures |p| >= NAME_LEN ==> FindFile(s.files, p) == -1
  {}

  /** A new entry under a path already in use. */
  lemma ClashPaths(s: State, k: nat, nd: Inode)
    requires Shaped(s) && k < MAX_INODES && !s.inodes[k].used && nd.used && FindInode(s, nd.path) >= 0
    ensures !Inv(PutInode(s, k, nd)) && !Inv(NextId(PutInode(s, k, nd)))
  {
    var i, r := FindInode(s, nd.path), PutInode(s, k, nd);
    assert SamePath(r, i, k) && SamePath(NextId(r), i, k);
  }

  lemma SymlinkOk(s: State, path: string, target: string, p: string)
    requires Ok(s)
    ensures var (r, ok) := DoSymlink(s, path, target);
            && Sized(r) && (Inv(r) <==> PathSafe(s, path))
            && (Inv(r) ==> NodeAt(r, p) == Expected(s, MakeSymlink(path, target), ok, p))
  {
    var k := FreeInode(s);
    LongAbsent(s, path);
    if FindInode(s, path) < 0 && k >= 0 {
      var nd := Inode(true, Symlink, s.nextId, Cut(path, PATH_LEN), Cut(target, PATH_LEN));
      SizedPut(s, k, nd);
      if FindInode(s, nd.path) >= 0 {
        ClashPaths(s, k, nd);
      } else {
        FreshInv(s, k, nd, 0);
        FreshFind(s, k, nd, p);
        NextIdInv(PutInode(s, k, nd));
        NextIdSame(PutInode(s, k, nd), p);
      }
    }
  }

  lemma LinkOk(s: State, path: string, original: string, p: string)
    requires Ok(s)
    ensures var (r, ok) := DoLink(s, path, original);
            && Sized(r) && (Inv(r) <==> !IsRegular(s, original) || PathSafe(s, path))
            && (Inv(r) ==> NodeAt(r, p) == Expected(s, MakeLink(path, original), ok, p))
            && (Inv(r) && ok ==>
              && Lookup(s, original) >= 0
              && Lookup(r, Cut(path, PATH_LEN)) == Lookup(r, original) == Lookup(s, original))
  {
    var k, o := FreeInode(s), FindInode(s, original);
    LongAbsent(s, path);
    if FindInode(s, path) < 0 && k >= 0 && IsRegular(s, original) {
      FileOk(s, o);
      var nd := Inode(true, RegularFile, s.inodes[o].id, Cut(path, PATH_LEN), s.inodes[o].target);
      SizedPut(s, k, nd);
      if FindInode(s, nd.path) >= 0 {
        ClashPaths(s, k, nd);
      } else {
        FreshInv(s, k, nd, o);
        FreshFind(s, k, nd, p);
        FreshFind(s, k, nd, nd.path);
        FreshFind(s, k, nd, original);
      }
    }
  }

  // ---------------------------------------------------------------------------
  // mkdir
  // ---------------------------------------------------------------------------

  lemma FsMkdirOk(fs: seq<File>, name: string)
    requires NamesUnique(fs) && (forall k :: 0 <= k < |fs| && fs[k].used ==> |fs[k].name| < NAME_LEN)
    ensures var r := FsMkdir(fs, name);
            && (forall i :: 0 <= i < |fs| && fs[i].used ==> r[i] == fs[i])
            && (forall k :: 0 <= k < |r| && r[k].used ==> |r[k].name| < NAME_LEN)
            && (NamesUnique(r) <==> |name| < NAME_LEN || FreeFile(fs) < 0 || FindFile(fs, Cut(name, NAME_LEN)) < 0)
  {
    var r, k, c := FsMkdir(fs, name), FreeFile(fs), Cut(name, NAME_LEN);
    if FindFile(fs, name) < 0 && k >= 0 {
      if FindFile(fs, c) >= 0 {
        assert SameName(r, k, FindFile(fs, c));
      } else {
        MkdirUnique(fs, k, c);
      }
    }
  }

  lemma MkdirUnique(fs: seq<File>, k: nat, name: string)
    requires NamesUnique(fs) && k < |fs| && !fs[k].used && FindFile(fs, name) < 0
    ensures NamesUnique(fs[k := File(true, name, true)])
  {
    var r := fs[k := File(true, name, true)];
    forall i, j | 0 <= i < |r| && 0 <= j < |r| && SameName(r, i, j) ensures i == j {
      assert !Holds(fs, i, name) && !Holds(fs, j, name);
      if i != k && j != k { assert SameName(fs, i, j); }
    }
  }

  /** Files that stay keep their slots. */
  lemma KeepsFiles(s: State, fs: seq<File>)
    requires Inv(s) && |fs| == MAX_FILES && NamesUnique(fs)
    requires forall i :: 0 <= i < MAX_FILES && s.files[i].used ==> fs[i] == s.files[i]
    ensures Inv(s.(files := fs))
    ensures forall i :: 0 <= i < MAX_INODES && IsFile(s, i) ==> SlotOf(s.(files := fs), i) == SlotOf(s, i)
  {
    var t := s.(files := fs);
    forall i | 0 <= i < MAX_INODES && IsFile(s, i) ensures SlotOf(t, i) == SlotOf(s, i) {
      FileOk(s, i);
      FileAt(fs, SlotOf(s, i), s.inodes[i].target);
    }
    forall i, j | 0 <= i < MAX_INODES && 0 <= j < MAX_INODES && SamePath(t, i, j) ensures i == j {
      assert SamePath(s, i, j);
    }
    forall i | 0 <= i < MAX_INODES && IsFile(t, i) ensures SlotOf(t, i) >= 0 && |t.inodes[i].target| < NAME_LEN {
      assert IsFile(s, i);
    }
    forall i, j | 0 <= i < MAX_INODES && 0 <= j < MAX_INODES && IsFile(t, i) && IsFile(t, j) ensures Together(t, i, j) {
      assert IsFile(s, i) && IsFile(s, j) && Together(s, i, j);
    }
  }

  /** The inode part of mkdir, on tables that are still consistent. */
  lemma MkdirEntry(t: State, path: string, p: string)
    requires Ok(t) && FindInode(t, path) < 0
    ensures var k := FreeInode(t);
            k >= 0 ==> var r := NextId(PutInode(t, k,
                Inode(true, Directory, t.nextId, Cut(path, PATH_LEN), Cut(path, PATH_LEN))));
                       && Sized(r) && (Inv(r) <==> PathSafe(t, path))
                       && (Inv(r) ==> NodeAt(r, p) == if p == Cut(path, PATH_LEN) then DirNode else NodeAt(t, p))
  {
    var k := FreeInode(t);
    if k >= 0 {
      var nd := Inode(true, Directory, t.nextId, Cut(path, PATH_LEN), Cut(path, PATH_LEN));
      SizedPut(t, k, nd);
      LongAbsent(t, path);
      if FindInode(t, nd.path) >= 0 {
        ClashPaths(t, k, nd);
      } else {
        FreshInv(t, k, nd, 0);
        FreshFind(t, k, nd, p);
        NextIdInv(PutInode(t, k, nd));
        NextIdSame(PutInode(t, k, nd), p);
      }
    }
  }

  lemma {:induction false} SameFree(s: State, t: State, k: nat)
    requires Shaped(s) && Shaped(t) && s.inodes == t.inodes && k <= MAX_INODES
    ensures FreeInode(s, k) == FreeInode(t, k)
    decreases MAX_INODES - k
  {
    if k < MAX_INODES { SameFree(s, t, k + 1); }
  }

  lemma MkdirOk(s: State, path: string, p: string)
    requires Ok(s)
    ensures var (r, ok) := DoMkdir(s, path);
            && Sized(r) && (Inv(r) <==> FindInode(s, path) >= 0 || (PathSafe(s, path) && NameSafe(s, path)))
            && (Inv(r) ==> NodeAt(r, p) == Expected(s, MakeDir(path), ok, p))
  {
    if path != "" && FindInode(s, path) < 0 {
      var t := s.(files := FsMkdir(s.files, path));
      FsMkdirOk(s.files, path);
      SameInodes(s, t, path, 0);
      SameInodes(s, t, Cut(path, PATH_LEN), 0);
      SameFree(s, t, 0);
      if NameSafe(s, path) {
        KeepsFiles(s, t.files);
        NodeSame(s, t, p);
        MkdirEntry(t, path, p);
      } else {
        assert !NamesUnique(DoMkdir(s, path).0.files);
      }
    }
  }

  // ---------------------------------------------------------------------------
  // unlink
  // ---------------------------------------------------------------------------

  lemma {:induction false} RefsZero(s: State, id: nat, n: nat)
    requires Shaped(s) && n <= MAX_INODES
    ensures Refs(s, id, n) == 0 <==> forall j :: 0 <= j < n ==> !LinkOf(s, j, id)
    decreases n
  {
    if n > 0 { RefsZero(s, id, n - 1); }
  }

  /** The count is at most one exactly when no other entry shares the inode number. */
  lemma {:induction false} RefsOne(s: State, id: nat, n: nat, i: nat)
    requires Shaped(s) && i < n <= MAX_INODES && LinkOf(s, i, id)
    ensures Refs(s, id, n) >= 1
    ensures Refs(s, id, n) <= 1 <==> forall j :: 0 <= j < n && j != i ==> !LinkOf(s, j, id)
    decreases n
  {
    if i == n - 1 {
      RefsZero(s, id, n - 1);
    } else {
      RefsOne(s, id, n - 1, i);
    }
  }

  lemma GonePaths(s: State, i: nat, p: string)
    requires Shaped(s) && PathsUnique(s) && i < MAX_INODES && s.inodes[i].used
    ensures var r := PutInode(s, i, s.inodes[i].(used := false));
            PathsUnique(r) && FindInode(r, p) == if p == s.inodes[i].path then -1 else FindInode(s, p)
  {
    var r := PutInode(s, i, s.inodes[i].(used := false));
    forall a, b | 0 <= a < MAX_INODES && 0 <= b < MAX_INODES && SamePath(r, a, b) ensures a == b {
      assert SamePath(s, a, b);
    }
    var j := FindInode(s, p);
    if p == s.inodes[i].path {
      var q := FindInode(r, p);
      if q >= 0 { assert Names(r, q, p) && SamePath(s, q, i); }
    } else if j >= 0 {
      assert Names(r, j, p);
      InodeAt(r, j, p);
    } else {
      Nowhere(s, p);
    }
  }

  lemma GoneInv(s: State, i: nat)
    requires Inv(s) && i < MAX_INODES && s.inodes[i].used
    ensures Inv(PutInode(s, i, s.inodes[i].(used := false)))
  {
    var r := PutInode(s, i, s.inodes[i].(used := false));
    GonePaths(s, i, "");
    forall a | 0 <= a < MAX_INODES && IsFile(r, a) ensures SlotOf(r, a) >= 0 && |r.inodes[a].target| < NAME_LEN {
      assert IsFile(s, a);
    }
    forall a, b | 0 <= a < MAX_INODES && 0 <= b < MAX_INODES && IsFile(r, a) && IsFile(r, b) ensures Together(r, a, b) {
      assert IsFile(s, a) && IsFile(s, b) && Together(s, a, b);
    }
  }

  /** Freeing a slot that no entry uses. */
  lemma FreeSlotOk(s: State, k: nat)
    requires Inv(s) && k < MAX_FILES && forall i :: 0 <= i < MAX_INODES && IsFile(s, i) ==> SlotOf(s, i) != k
    ensures var t := s.(files := s.files[k := s.files[k].(used := false)]);
            Inv(t) && forall i :: 0 <= i < MAX_INODES && IsFile(s, i) ==> SlotOf(t, i) == SlotOf(s, i)
  {
    var fs := s.files[k := s.files[k].(used := false)];
    var t := s.(files := fs);
    forall a, b | 0 <= a < |fs| && 0 <= b < |fs| && SameName(fs, a, b) ensures a == b {
      assert SameName(s.files, a, b);
    }
    forall i | 0 <= i < MAX_INODES && IsFile(s, i) ensures SlotOf(t, i) == SlotOf(s, i) {
      FileOk(s, i);
      assert SlotOf(s, i) != k;
      FileAt(fs, SlotOf(s, i), s.inodes[i].target);
    }
    forall i, j | 0 <= i < MAX_INODES && 0 <= j < MAX_INODES && SamePath(t, i, j) ensures i == j {
      assert SamePath(s, i, j);
    }
    forall i | 0 <= i < MAX_INODES && IsFile(t, i) ensures SlotOf(t, i) >= 0 && |t.inodes[i].target| < NAME_LEN {
      assert IsFile(s, i);
    }
    forall i, j | 0 <= i < MAX_INODES && 0 <= j < MAX_INODES && IsFile(t, i) && IsFile(t, j) ensures Together(t, i, j) {
      assert IsFile(s, i) && IsFile(s, j) && Together(s, i, j);
    }
  }

  /** Entries with different numbers have different slots. */
  lemma Apart(s: State, i: nat, j: nat)
    requires Inv(s) && i < MAX_INODES && j < MAX_INODES && IsFile(s, i) && IsFile(s, j)
    ensures SlotOf(s, i) == SlotOf(s, j) <==> s.inodes[i].id == s.inodes[j].id
  {
    FileOk(s, i);
    FileOk(s, j);
    assert Together(s, i, j);
  }

  lemma NodeSame(s: State, t: State, p: string)
    requires Shaped(s) && Shaped(t) && s.inodes == t.inodes
    requires forall i :: 0 <= i < MAX_INODES && IsFile(s, i) ==> SlotOf(t, i) == SlotOf(s, i)
    ensures NodeAt(t, p) == NodeAt(s, p)
  {
    SameInodes(s, t, p, 0);
    var i := FindInode(s, p);
    if i >= 0 && s.inodes[i].kind == RegularFile { assert IsFile(s, i); }
  }

  /** The entry goes; the file goes with it exactly when it was the last entry with its number. */
  lemma UnlinkOk(s: State, path: string, p: string)
    requires Inv(s)
    ensures var (r, ok) := DoUnlink(s, path);
            Inv(r) && NodeAt(r, p) == Expected(s, Unlink(path), ok, p) && (Sized(s) ==> Sized(r))
  {
    var i := FindInode(s, path);
    if i >= 0 {
      var nd := s.inodes[i];
      var r := PutInode(s, i, nd.(used := false));
      GonePaths(s, i, p);
      GoneInv(s, i);
      if nd.kind == RegularFile && Refs(s, nd.id, MAX_INODES) <= 1 {
        LastLink(s, i, r);
        var k := SlotOf(s, i);
        FreeSlotOk(r, k);
        NodeSame(r, r.(files := s.files[k := s.files[k].(used := false)]), p);
      }
    }
  }

  lemma LastLink(s: State, i: nat, r: State)
    requires Inv(s) && i < MAX_INODES && IsFile(s, i) && Refs(s, s.inodes[i].id, MAX_INODES) <= 1
    requires r == PutInode(s, i, s.inodes[i].(used := false))
    ensures 0 <= SlotOf(s, i) < MAX_FILES
      && forall j :: 0 <= j < MAX_INODES && IsFile(r, j) ==> SlotOf(r, j) != SlotOf(s, i)
  {
    FileOk(s, i);
    RefsOne(s, s.inodes[i].id, MAX_INODES, i);
    forall j | 0 <= j < MAX_INODES && IsFile(r, j) ensures SlotOf(r, j) != SlotOf(s, i) {
      assert j != i && IsFile(s, j) && !LinkOf(s, j, s.inodes[i].id);
      Apart(s, i, j);
    }
  }

  /** The file behind an unlinked entry is deleted if and only if no other entry leads to it. */
  lemma DeletedIffLast(s: State, path: string)
    requires Inv(s) && Lookup(s, path) >= 0
    ensures var k := Lookup(s, path); var r := DoUnlink(s, path).0;
            k < MAX_FILES && s.files[k].used
            && (!r.files[k].used <==> forall q :: q != path ==> Lookup(s, q) != k)
            && forall m :: 0 <= m < MAX_FILES && m != k ==> r.files[m] == s.files[m]
  {
    var i := FindInode(s, path);
    var k := Lookup(s, path);
    FileOk(s, i);
    RefsOne(s, s.inodes[i].id, MAX_INODES, i);
    if Refs(s, s.inodes[i].id, MAX_INODES) <= 1 {
      forall q | q != path ensures Lookup(s, q) != k {
        var j := FindInode(s, q);
        if j >= 0 && s.inodes[j].kind == RegularFile {
          assert IsFile(s, j) && j != i && !LinkOf(s, j, s.inodes[i].id);
          Apart(s, i, j);
        }
      }
    } else {
      var j :| 0 <= j < MAX_INODES && j != i && LinkOf(s, j, s.inodes[i].id);
      assert IsFile(s, j);
      Apart(s, i, j);
      assert Names(s, j, s.inodes[j].path);
      InodeAt(s, j, s.inodes[j].path);
      var q := s.inodes[j].path;
      assert Lookup(s, q) == k;
    }
  }

  // ---------------------------------------------------------------------------
  // rename
  // ---------------------------------------------------------------------------

  lemma MovedPaths(s: State, i: nat, to: string, p: string)
    requires Shaped(s) && PathsUnique(s) && i < MAX_INODES && s.inodes[i].used && FindInode(s, to) == -1
    ensures var r := PutInode(s, i, s.inodes[i].(path := to));
            PathsUnique(r) && FindInode(r, p) == if p == to then i else if p == s.inodes[i].path then -1
                else FindInode(s, p)
  {
    var r := PutInode(s, i, s.inodes[i].(path := to));
    forall a, b | 0 <= a < MAX_INODES && 0 <= b < MAX_INODES && SamePath(r, a, b) ensures a == b {
      assert !Names(s, a, to) && !Names(s, b, to);
      if a != i && b != i { assert SamePath(s, a, b); }
    }
    var j := FindInode(s, p);
    if p == to {
      assert Names(r, i, p);
      InodeAt(r, i, p);
    } else if j >= 0 && j != i {
      assert Names(r, j, p);
      InodeAt(r, j, p);
      assert p != s.inodes[i].path by { if p == s.inodes[i].path { assert SamePath(s, i, j); } }
    } else {
      var q := FindInode(r, p);
      if q >= 0 {
        assert Names(r, q, p);
        assert Names(s, q, p);
        InodeAt(s, q, p);
      }
    }
  }

  lemma MovedInv(s: State, i: nat, to: string)
    requires Inv(s) && i < MAX_INODES && s.inodes[i].used && FindInode(s, to) == -1
    ensures Inv(PutInode(s, i, s.inodes[i].(path := to)))
  {
    var r := PutInode(s, i, s.inodes[i].(path := to));
    MovedPaths(s, i, to, to);
    forall a | 0 <= a < MAX_INODES && IsFile(r, a) ensures SlotOf(r, a) >= 0 && |r.inodes[a].target| < NAME_LEN {
      assert IsFile(s, a);
    }
    forall a, b | 0 <= a < MAX_INODES && 0 <= b < MAX_INODES && IsFile(r, a) && IsFile(r, b) ensures Together(r, a, b) {
      assert IsFile(s, a) && IsFile(s, b) && Together(s, a, b);
    }
  }

  /** The state between the two halves of a rename: the file and every entry of its number have the new name. */
  function Retargeted(s: State, i: nat, to: string): State
    requires Shaped(s) && i < MAX_INODES && SlotOf(s, i) >= 0
  {
    var k := SlotOf(s, i);
    Retarget(s, s.inodes[i].id, to).(files := s.files[k := s.files[k].(name := Cut(to, NAME_LEN))])
  }

  lemma RenamedNames(s: State, k: nat, to: string)
    requires Inv(s) && k < MAX_FILES && FindFile(s.files, to) == -1
    ensures NamesUnique(s.files[k := s.files[k].(name := to)])
  {
    var fs := s.files[k := s.files[k].(name := to)];
    forall a, b | 0 <= a < |fs| && 0 <= b < |fs| && SameName(fs, a, b) ensures a == b {
      assert !Holds(s.files, a, to) && !Holds(s.files, b, to);
      if a != k && b != k { assert SameName(s.files, a, b); }
    }
  }

  lemma RetargetedSlot(s: State, i: nat, to: string, j: nat)
    requires Inv(s) && i < MAX_INODES && j < MAX_INODES && IsFile(s, i) && IsFile(s, j) && |to| < NAME_LEN
      && FindFile(s.files, to) == -1
    requires SlotOf(s, i) >= 0
    ensures IsFile(Retargeted(s, i, to), j) && SlotOf(Retargeted(s, i, to), j) == SlotOf(s, j)
    ensures Retargeted(s, i, to).inodes[j].target == if s.inodes[j].id == s.inodes[i].id then to else s.inodes[j].target
  {
    var t := Retargeted(s, i, to);
    var k := SlotOf(s, i);
    FileOk(s, i);
    FileOk(s, j);
    Apart(s, i, j);
    RenamedNames(s, k, to);
    assert LinkOf(s, j, s.inodes[i].id) <==> s.inodes[j].id == s.inodes[i].id;
    FileAt(t.files, SlotOf(s, j), t.inodes[j].target);
  }

  lemma RetargetedInv(s: State, i: nat, to: string)
    requires Inv(s) && i < MAX_INODES && IsFile(s, i) && |to| < NAME_LEN && FindFile(s.files, to) == -1
      && SlotOf(s, i) >= 0
    ensures Inv(Retargeted(s, i, to))
  {
    var t := Retargeted(s, i, to);
    RenamedNames(s, SlotOf(s, i), to);
    forall a, b | 0 <= a < MAX_INODES && 0 <= b < MAX_INODES && SamePath(t, a, b) ensures a == b {
      assert SamePath(s, a, b);
    }
    forall a | 0 <= a < MAX_INODES && IsFile(t, a) ensures SlotOf(t, a) >= 0 && |t.inodes[a].target| < NAME_LEN {
      assert IsFile(s, a);
      FileOk(s, a);
      RetargetedSlot(s, i, to, a);
    }
    forall a, b | 0 <= a < MAX_INODES && 0 <= b < MAX_INODES && IsFile(t, a) && IsFile(t, b) ensures Together(t, a, b) {
      assert IsFile(s, a) && IsFile(s, b);
      RetargetedTogether(s, i, to, a, b);
    }
  }

  lemma RetargetedTogether(s: State, i: nat, to: string, a: nat, b: nat)
    requires Inv(s) && i < MAX_INODES && IsFile(s, i) && |to| < NAME_LEN && FindFile(s.files, to) == -1
      && SlotOf(s, i) >= 0
    requires a < MAX_INODES && b < MAX_INODES && IsFile(s, a) && IsFile(s, b)
    ensures Together(Retargeted(s, i, to), a, b)
  {
    RetargetedSlot(s, i, to, a);
    RetargetedSlot(s, i, to, b);
    FileOk(s, a);
    FileOk(s, b);
    assert !Holds(s.files, SlotOf(s, a), to) && !Holds(s.files, SlotOf(s, b), to);
    assert Together(s, a, b);
  }

  lemma {:induction false} SamePathsFind(s: State, t: State, p: string, k: nat)
    requires Shaped(s) && Shaped(t) && k <= MAX_INODES
    requires forall i :: 0 <= i < MAX_INODES ==>
      s.inodes[i].used == t.inodes[i].used && s.inodes[i].path == t.inodes[i].path
    ensures FindInode(s, p, k) == FindInode(t, p, k)
    decreases MAX_INODES - k
  {
    if k < MAX_INODES { SamePathsFind(s, t, p, k + 1); }
  }

  lemma RenameFileOk(s: State, i: nat, path: string, to: string, p: string)
    requires Inv(s) && |to| < NAME_LEN && FindInode(s, path) == i && FindInode(s, to) == -1 && IsFile(s, i)
    requires FindFile(s.files, to) == -1 && SlotOf(s, i) >= 0
    ensures var t := Retargeted(s, i, to); var r := PutInode(t, i, t.inodes[i].(path := to));
            Inv(r) && NodeAt(r, p) == if p == path then NoNode else if p == to then NodeAt(s, path) else NodeAt(s, p)
  {
    var t := Retargeted(s, i, to);
    RetargetedInv(s, i, to);
    SamePathsFind(s, t, p, 0);
    SamePathsFind(s, t, to, 0);
    MovedInv(t, i, to);
    MovedPaths(t, i, to, p);
    RetargetedSlot(s, i, to, i);
    var j := FindInode(s, p);
    if j >= 0 && IsFile(s, j) { RetargetedSlot(s, i, to, j); }
  }

  /** A path that is cut when moved: only its own old path may be what is left. */
  lemma MovedCut(s: State, i: nat, path: string, to: string, p: string)
    requires Ok(s) && FindInode(s, path) == i && FindInode(s, to) == -1 && s.inodes[i].kind != RegularFile
    ensures var c := Cut(to, PATH_LEN); var r := PutInode(s, i, s.inodes[i].(path := c));
            && Sized(r) && (Inv(r) <==> FindInode(s, c) == -1 || FindInode(s, c) == i)
            && (Inv(r) ==>
              NodeAt(r, p) == if p == c then NodeAt(s, path) else if p == path then NoNode else NodeAt(s, p))
  {
    var c := Cut(to, PATH_LEN);
    var r := PutInode(s, i, s.inodes[i].(path := c));
    SizedPut(s, i, s.inodes[i].(path := c));
    var j := FindInode(s, c);
    if j == -1 {
      MovedInv(s, i, c);
      MovedPaths(s, i, c, p);
    } else if j == i {
      assert r.inodes == s.inodes;
      assert r == s;
    } else {
      assert SamePath(r, i, j);
    }
  }

  lemma RenameOk(s: State, path: string, to: string, p: string)
    requires Ok(s)
    ensures var (r, ok) := DoRename(s, path, to);
            && Sized(r) && (Inv(r) <==> FindInode(s, path) < 0 || FindInode(s, to) >= 0 || MoveSafe(s, path, to))
            && (Inv(r) ==> NodeAt(r, p) == Expected(s, Rename(path, to), ok, p))
  {
    var i := FindInode(s, path);
    LongAbsent(s, to);
    if i >= 0 && FindInode(s, to) < 0 {
      if s.inodes[i].kind != RegularFile {
        MovedCut(s, i, path, to, p);
      } else if FindFile(s.files, to) < 0 {
        FileOk(s, i);
        SizedRename(s, path, to);
        if |to| < NAME_LEN { RenameFileOk(s, i, path, to, p); } else { LongRename(s, path, to); }
      }
    }
  }

  lemma SizedRename(s: State, path: string, to: string)
    requires Sized(s)
    ensures Sized(DoRename(s, path, to).0)
  {}

  /** A successful rename of a regular file leaves the new path leading to the file exactly when the new name fits the
      31 characters of a file name; longer names are cut in one table and not in the other. */
  lemma RenameKeepsFile(s: State, path: string, to: string)
    requires Ok(s) && Lookup(s, path) >= 0 && DoRename(s, path, to).1
    ensures Lookup(DoRename(s, path, to).0, to) == Lookup(s, path) <==> |to| < NAME_LEN
  {
    if |to| < NAME_LEN {
      RenameOk(s, path, to, to);
    } else {
      LongRename(s, path, to);
      SizedRename(s, path, to);
      LongAbsent(DoRename(s, path, to).0, to);
      if |to| < PATH_LEN { LongLookup(s, path, to); }
    }
  }

  /** The renamed entry has lost its file. */
  lemma LongRename(s: State, path: string, to: string)
    requires Ok(s) && Lookup(s, path) >= 0 && DoRename(s, path, to).1 && NAME_LEN <= |to|
    ensures var i, r := FindInode(s, path), DoRename(s, path, to).0;
            IsFile(r, i) && SlotOf(r, i) == -1 && r.inodes[i].path == Cut(to, PATH_LEN) && !Inv(r)
  {
    var i := FindInode(s, path);
    FileOk(s, i);
    var r := DoRename(s, path, to).0;
    assert LinkOf(s, i, s.inodes[i].id);
    SizedRename(s, path, to);
    LongAbsent(r, Cut(to, PATH_LEN));
  }

  lemma LongLookup(s: State, path: string, to: string)
    requires Ok(s) && Lookup(s, path) >= 0 && DoRename(s, path, to).1 && NAME_LEN <= |to| < PATH_LEN
    ensures Lookup(DoRename(s, path, to).0, to) == -1
  {
    var i := FindInode(s, path);
    var r := DoRename(s, path, to).0;
    LongRename(s, path, to);
    var j := FindInode(r, to);
    assert Names(r, i, to);
    if j != i { assert Names(r, j, to) && Names(s, j, to); }
  }

  // ---------------------------------------------------------------------------
  // Names that are too long
  // ---------------------------------------------------------------------------

  /** One file, alone. */
  function OneFile(name: string): State {
    State(seq(MAX_INODES, i requires 0 <= i < MAX_INODES => Inode(i == 0, RegularFile, 1, name, name)),
          seq(MAX_FILES, i requires 0 <= i < MAX_FILES => File(i == 0, name, false)), 2)
  }

  lemma OneFileOk(name: string)
    requires |name| < NAME_LEN
    ensures Ok(OneFile(name)) && FindInode(OneFile(name), name) == 0 && FindFile(OneFile(name).files, name) == 0
    ensures FreeInode(OneFile(name)) >= 0 && FreeFile(OneFile(name).files) >= 0
  {
    var s := OneFile(name);
    assert Names(s, 0, name) && Holds(s.files, 0, name);
    assert PathsUnique(s) && NamesUnique(s.files);
    InodeAt(s, 0, name);
    FileAt(s.files, 0, name);
    assert !s.inodes[1].used;
    OneFileFree(s.files, 0, 1);
  }

  lemma {:induction false} OneFileFree(fs: seq<File>, k: nat, i: nat)
    requires k <= i < |fs| && !fs[i].used
    ensures FreeFile(fs, k) >= 0
    decreases i - k
  {
    if k < i { OneFileFree(fs, k + 1, i); }
  }

  lemma OneFileOther(name: string, q: string)
    requires q != name
    ensures FindInode(OneFile(name), q) == -1 && FindFile(OneFile(name).files, q) == -1
  {}

  /** Renaming it to a name of 32 characters succeeds, and loses the file. */
  lemma RenameExample(to: string)
    requires |to| == 32
    ensures Ok(OneFile("a")) && Lookup(OneFile("a"), "a") == 0
    ensures DoRename(OneFile("a"), "a", to).1 && Lookup(DoRename(OneFile("a"), "a", to).0, to) == -1
  {
    OneFileOk("a");
    OneFileOther("a", to);
    LongLookup(OneFile("a"), "a", to);
  }

  /** A directory whose name begins with the 31 characters of a live file gets the file's name in the file table. */
  lemma MkdirExample(path: string)
    requires NAME_LEN <= |path|
    ensures var s := OneFile(Cut(path, NAME_LEN)); Ok(s) && DoMkdir(s, path).1 && !Inv(DoMkdir(s, path).0)
  {
    var c := Cut(path, NAME_LEN);
    OneFileOk(c);
    OneFileOther(c, path);
    MkdirOk(OneFile(c), path, c);
  }

  /** The same link again, under a path of 64 characters or more: it is stored cut both times, and one path has two
      entries. */
  lemma LinkTwice(s: State, path: string, original: string, r: State)
    requires Ok(s) && |path| >= PATH_LEN && DoLink(s, path, original) == (r, true) && Inv(r) && FreeInode(r) >= 0
    ensures DoLink(r, path, original).1 && !Inv(DoLink(r, path, original).0)
  {
    LinkOk(s, path, original, original);
    LongAbsent(r, path);
    LinkOk(r, path, original, original);
  }

  lemma SymlinkTwice(s: State, path: string, target: string, r: State)
    requires Ok(s) && |path| >= PATH_LEN && DoSymlink(s, path, target) == (r, true) && Inv(r) && FreeInode(r) >= 0
    ensures DoSymlink(r, path, target).1 && !Inv(DoSymlink(r, path, target).0)
  {
    SymlinkOk(s, path, target, "");
    LongAbsent(r, path);
    assert Names(r, FreeInode(s), Cut(path, PATH_LEN));
    SymlinkOk(r, path, target, "");
  }

  /** From one file: the first link is right, the second is not. */
  lemma LinkExample(path: string, r: State)
    requires |path| == 64 && r == DoLink(OneFile("a"), path, "a").0
    ensures DoLink(OneFile("a"), path, "a").1 && Ok(r) && DoLink(r, path, "a").1 && !Inv(DoLink(r, path, "a").0)
  {
    var s := OneFile("a");
    OneFileOk("a");
    OneFileOther("a", path);
    OneFileOther("a", Cut(path, PATH_LEN));
    LinkOk(s, path, "a", "a");
    assert FreeInode(r) >= 0 by { StillFree(s, r); }
    LinkTwice(s, path, "a", r);
  }

  lemma StillFree(s: State, r: State)
    requires Shaped(s) && Shaped(r) && !s.inodes[1].used && !s.inodes[2].used
    requires exists k, nd :: 0 <= k < MAX_INODES && r == PutInode(s, k, nd)
    ensures FreeInode(r) >= 0
  {
    var k, nd :| 0 <= k < MAX_INODES && r == PutInode(s, k, nd);
    assert !r.inodes[1].used || !r.inodes[2].used;
  }

  // ---------------------------------------------------------------------------
  // Whole runs
  // ---------------------------------------------------------------------------

  /** Each operation leaves the tables consistent exactly when it is safe, and then acts on paths as on a map from path
      to file, directory or link target, whether it succeeds or fails. */
  lemma ApplyOk(s: State, op: Op, p: string)
    requires Ok(s)
    ensures var (r, ok) := Apply(s, op);
            Sized(r) && (Inv(r) <==> Safe(s, op)) && (Inv(r) ==> NodeAt(r, p) == Expected(s, op, ok, p))
  {
    match op
    case MakeSymlink(l, t) => SymlinkOk(s, l, t, p);
    case MakeLink(l, o) => LinkOk(s, l, o, p);
    case MakeDir(d) => MkdirOk(s, d, p);
    case Unlink(q) => UnlinkOk(s, q, p);
    case Rename(q, t) => RenameOk(s, q, t, p);
  }

  ghost function Run(s: State, ops: seq<Op>): (r: State)
    requires Shaped(s)
    ensures Shaped(r)
    decreases |ops|
  {
    if |ops| == 0 then s else Run(Apply(s, ops[0]).0, ops[1..])
  }

  /** Expected, on a plain map from path to node. */
  function After(v: string -> Node, op: Op, ok: bool): string -> Node {
    if !ok then v
    else match op
      case MakeSymlink(l, t) => (p: string) => if p == Cut(l, PATH_LEN) then LinkNode(Cut(t, PATH_LEN)) else v(p)
      case MakeLink(l, o) => (p: string) => if p == Cut(l, PATH_LEN) then v(o) else v(p)
      case MakeDir(d) => (p: string) => if p == Cut(d, PATH_LEN) then DirNode else v(p)
      case Unlink(q) => (p: string) => if p == q then NoNode else v(p)
      case Rename(q, to) => (p: string) => if p == Cut(to, PATH_LEN) then v(q) else if p == q then NoNode else v(p)
  }

  ghost function RunView(s: State, v: string -> Node, ops: seq<Op>): string -> Node
    requires Shaped(s)
    decreases |ops|
  {
    if |ops| == 0 then v else RunView(Apply(s, ops[0]).0, After(v, ops[0], Apply(s, ops[0]).1), ops[1..])
  }

  /** Every operation is safe where it happens. */
  predicate AllSafe(s: State, ops: seq<Op>)
    requires Shaped(s)
    decreases |ops|
  {
    |ops| == 0 || (Safe(s, ops[0]) && AllSafe(Apply(s, ops[0]).0, ops[1..]))
  }

  /** The tables are consistent all along. */
  predicate AllConsistent(s: State, ops: seq<Op>)
    requires Shaped(s)
    decreases |ops|
  {
    Inv(s) && (|ops| == 0 || AllConsistent(Apply(s, ops[0]).0, ops[1..]))
  }

  /** Over every run the two tables stay consistent exactly as long as every operation is safe, and then they are
      together a map from path to node: links share a file, symbolic links keep their target, a rename moves one path,
      and an unlink removes one path. */
  lemma {:induction false} RunRefines(s: State, v: string -> Node, ops: seq<Op>, p: string)
    requires Ok(s) && forall q :: v(q) == NodeAt(s, q)
    ensures AllConsistent(s, ops) <==> AllSafe(s, ops)
    ensures AllSafe(s, ops) ==> NodeAt(Run(s, ops), p) == RunView(s, v, ops)(p)
    decreases |ops|
  {
    if |ops| > 0 {
      var op, r := ops[0], Apply(s, ops[0]);
      ApplyOk(s, op, "");
      if Safe(s, op) {
        var w := After(v, op, r.1);
        forall q ensures w(q) == NodeAt(r.0, q) { ApplyOk(s, op, q); }
        RunRefines(r.0, w, ops[1..], p);
      }
    }
  }

  /** Names that fit their fields: 63 characters for a path, 31 for a file name. */
  predicate Fits(op: Op) {
    match op
    case MakeSymlink(p, _) => |p| < PATH_LEN
    case MakeLink(p, _) => |p| < PATH_LEN
    case MakeDir(p) => |p| < NAME_LEN
    case Unlink(_) => true
    case Rename(_, to) => |to| < NAME_LEN
  }

  /** A program that keeps to these lengths is always safe. */
  lemma {:induction false} FittingSafe(s: State, ops: seq<Op>)
    requires Shaped(s) && forall op :: op in ops ==> Fits(op)
    ensures AllSafe(s, ops)
    decreases |ops|
  {
    if |ops| > 0 {
      assert Fits(ops[0]);
      FittingSafe(Apply(s, ops[0]).0, ops[1..]);
    }
  }
}
