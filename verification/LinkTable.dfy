/** The two tables of src/kernel/mfs4.c and src/kernel/fs.c, searched and updated in place. */
module LinkTable {
  import opened Links

  class Tables {
    const inodes: array<Inode>
    const files: array<File>
    var nextId: nat

    ghost predicate Valid() {
      inodes.Length == MAX_INODES && files.Length == MAX_FILES
    }

    ghost function S(): State
      reads this, inodes, files
    {
      State(inodes[..], files[..], nextId)
    }

    constructor (s: State)
      requires Shaped(s)
      ensures Valid() && fresh(inodes) && fresh(files) && S() == s
    {
      inodes := new Inode[MAX_INODES](i requires 0 <= i < MAX_INODES => s.inodes[i]);
      files := new File[MAX_FILES](i requires 0 <= i < MAX_FILES => s.files[i]);
      nextId := s.nextId;
      new;
      assert inodes[..] == s.inodes && files[..] == s.files;
    }

    method Find(path: string) returns (r: int)
      requires Valid()
      ensures r == FindInode(S(), path)
    {
      var i := 0;
      while i < MAX_INODES
        invariant 0 <= i <= MAX_INODES && FindInode(S(), path) == FindInode(S(), path, i)
      {
        if inodes[i].used && inodes[i].path == path { return i; }
        i := i + 1;
      }
      return -1;
    }

    method Alloc() returns (r: int)
      requires Valid()
      ensures r == FreeInode(S())
    {
      var i := 0;
      while i < MAX_INODES
        invariant 0 <= i <= MAX_INODES && FreeInode(S()) == FreeInode(S(), i)
      {
        if !inodes[i].used { return i; }
        i := i + 1;
      }
      return -1;
    }

    method FindName(name: string) returns (r: int)
      requires Valid()
      ensures r == FindFile(files[..], name)
    {
      var i := 0;
      while i < MAX_FILES
        invariant 0 <= i <= MAX_FILES && FindFile(files[..], name) == FindFile(files[..], name, i)
      {
        if files[i].used && files[i].name == name { return i; }
        i := i + 1;
      }
      return -1;
    }

    method FreeName() returns (r: int)
      requires Valid()
      ensures r == FreeFile(files[..])
    {
      var i := 0;
      while i < MAX_FILES
        invariant 0 <= i <= MAX_FILES && FreeFile(files[..]) == FreeFile(files[..], i)
      {
        if !files[i].used { return i; }
        i := i + 1;
      }
      return -1;
    }

    /** `mfs4_symlink`. */
    method MakeSymlink(path: string, target: string) returns (ok: bool)
      requires Valid()
      modifies this, inodes
      ensures Valid() && (S(), ok) == DoSymlink(old(S()), path, target)
    {
      var f := Find(path);
      if f >= 0 { return false; }
      var k := Alloc();
      if k < 0 { return false; }
      inodes[k] := Inode(true, Symlink, nextId, Cut(path, PATH_LEN), Cut(target, PATH_LEN));
      nextId := (nextId + 1) % 0x1_0000_0000;
      return true;
    }

    /** `mfs4_hardlink`. */
    method MakeLink(path: string, original: string) returns (ok: bool)
      requires Valid()
      modifies inodes
      ensures Valid() && (S(), ok) == DoLink(old(S()), path, original)
    {
      var f := Find(path);
      if f >= 0 { return false; }
      var o := Find(original);
      if o < 0 || inodes[o].kind != RegularFile { return false; }
      var k := Alloc();
      if k < 0 { return false; }
      inodes[k] := Inode(true, RegularFile, inodes[o].id, Cut(path, PATH_LEN), Cut(inodes[o].target, PATH_LEN));
      return true;
    }

    method MkdirName(name: string)
      requires Valid()
      modifies files
      ensures Valid() && files[..] == FsMkdir(old(files[..]), name)
    {
      var f := FindName(name);
      if f >= 0 { return; }
      var k := FreeName();
      if k >= 0 { files[k] := File(true, Cut(name, NAME_LEN), true); }
    }

    /** `mfs4_mkdir`. */
    method MakeDir(path: string) returns (ok: bool)
      requires Valid()
      modifies this, inodes, files
      ensures Valid() && (S(), ok) == DoMkdir(old(S()), path)
    {
      if path == "" { return false; }
      var f := Find(path);
      if f >= 0 { return false; }
      ghost var before := S();
      MkdirName(path);
      assert S() == before.(files := FsMkdir(before.files, path));
      var k := Alloc();
      if k < 0 { return false; }
      inodes[k] := Inode(true, Directory, nextId, Cut(path, PATH_LEN), Cut(path, PATH_LEN));
      nextId := (nextId + 1) % 0x1_0000_0000;
      return true;
    }

    method DeleteName(name: string)
      requires Valid()
      modifies files
      ensures Valid() && files[..] == FsDelete(old(files[..]), name)
    {
      var k := FindName(name);
      if k >= 0 { files[k] := files[k].(used := false); }
    }

    method CountRefs(id: nat) returns (n: nat)
      requires Valid()
      ensures n == Refs(S(), id, MAX_INODES)
    {
      n := 0;
      for i := 0 to MAX_INODES
        invariant n == Refs(S(), id, i)
      {
        if inodes[i].used && inodes[i].kind == RegularFile && inodes[i].id == id { n := n + 1; }
      }
    }

    /** `mfs4_unlink`. */
    method Unlink(path: string) returns (ok: bool)
      requires Valid()
      modifies inodes, files
      ensures Valid() && (S(), ok) == DoUnlink(old(S()), path)
    {
      var i := Find(path);
      if i < 0 { return false; }
      if inodes[i].kind == RegularFile {
        var refs := CountRefs(inodes[i].id);
        if refs <= 1 { DeleteName(inodes[i].target); }
      }
      inodes[i] := inodes[i].(used := false);
      return true;
    }

    /** `fs_rename`. */
    method RenameName(from: string, to: string) returns (ok: bool)
      requires Valid()
      modifies files
      ensures Valid() && ok == (FindFile(old(files[..]), to) < 0 && FindFile(old(files[..]), from) >= 0)
      ensures !ok ==> files[..] == old(files[..])
      ensures ok ==>
        var k := FindFile(old(files[..]), from);
        files[..] == old(files[..])[k := old(files[..])[k].(name := Cut(to, NAME_LEN))]
    {
      var f := FindName(to);
      if f >= 0 { return false; }
      var k := FindName(from);
      if k < 0 { return false; }
      files[k] := files[k].(name := Cut(to, NAME_LEN));
      return true;
    }

    /** The loop of `mfs4_rename` that gives the new target to every link. */
    method RetargetAll(id: nat, to: string)
      requires Valid()
      modifies inodes
      ensures Valid() && inodes[..] == Retarget(old(S()), id, to).inodes
    {
      ghost var s := S();
      for i := 0 to MAX_INODES
        invariant forall j :: 0 <= j < MAX_INODES ==> inodes[j] == if j < i then Retarget(s, id, to).inodes[j]
          else s.inodes[j]
      {
        if inodes[i].used && inodes[i].kind == RegularFile && inodes[i].id == id {
          inodes[i] := inodes[i].(target := Cut(to, PATH_LEN));
        }
      }
    }

    /** `mfs4_rename`. */
    method Rename(path: string, to: string) returns (ok: bool)
      requires Valid()
      modifies inodes, files
      ensures Valid() && (S(), ok) == DoRename(old(S()), path, to)
    {
      var i := Find(path);
      if i < 0 { return false; }
      var f := Find(to);
      if f >= 0 { return false; }
      ghost var s := S();
      if inodes[i].kind == RegularFile {
        var done := RenameName(inodes[i].target, to);
        if !done { return false; }
        ghost var t := S();
        RetargetAll(inodes[i].id, to);
        RetargetSame(s, t, s.inodes[i].id, to);
      }
      inodes[i] := inodes[i].(path := Cut(to, PATH_LEN));
      return true;
    }
  }

  lemma RetargetSame(s: State, t: State, id: nat, to: string)
    requires Shaped(s) && Shaped(t) && s.inodes == t.inodes
    ensures Retarget(s, id, to).inodes == Retarget(t, id, to).inodes
  {
    forall i | 0 <= i < MAX_INODES ensures Retarget(s, id, to).inodes[i] == Retarget(t, id, to).inodes[i] {
      assert LinkOf(s, i, id) == LinkOf(t, i, id);
    }
  }
}
