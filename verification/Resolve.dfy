/** Where a path leads through symbolic links (`mfs4_resolve` of src/kernel/mfs4.c), and when operations succeed. */
module Resolve {
  import opened Links
  import opened LinkSteps
  import opened LinkTable

  predicate IsLink(s: State, p: string)
    requires Shaped(s)
  {
    NodeAt(s, p).LinkNode?
  }

  /** The loop, with d turns left: the first path that is no symbolic link, or the empty one when the turns run out. */
  function Resolved(s: State, p: string, d: nat): string
    requires Shaped(s)
    decreases d, |s.inodes|
  {
    if d == 0 then "" else if IsLink(s, p) then Resolved(s, Cut(NodeAt(s, p).target, PATH_LEN), d - 1) else p
  }

  /** `mfs4_resolve`. */
  method ResolvePath(t: Tables, path: string, depth: nat) returns (r: string)
    requires t.Valid()
    ensures r == Resolved(t.S(), Cut(path, PATH_LEN), depth)
  {
    r := Cut(path, PATH_LEN);
    for d := 0 to depth
      invariant Resolved(t.S(), r, depth - d) == Resolved(t.S(), Cut(path, PATH_LEN), depth)
    {
      var i := t.Find(r);
      if i < 0 || t.inodes[i].kind != Symlink { return r; }
      r := Cut(t.inodes[i].target, PATH_LEN);
    }
    r := "";
  }

  /** From p, through exactly n symbolic links, to q, which is none. */
  predicate Leads(s: State, p: string, n: nat, q: string)
    requires Shaped(s)
    decreases n, |s.inodes|
  {
    if n == 0 then p == q && !IsLink(s, p)
    else IsLink(s, p) && Leads(s, Cut(NodeAt(s, p).target, PATH_LEN), n - 1, q)
  }

  /** A chain of n links is followed to its end exactly when there are more than n turns. */
  lemma {:induction false} FollowsChain(s: State, p: string, n: nat, q: string, d: nat)
    requires Shaped(s) && Leads(s, p, n, q)
    ensures Resolved(s, p, d) == if n < d then q else ""
    decreases n
  {
    if n > 0 && d > 0 { FollowsChain(s, Cut(NodeAt(s, p).target, PATH_LEN), n - 1, q, d - 1); }
  }

  /** Whatever else comes out is the end of a chain; so a cycle gives the empty path, whatever the number of turns. */
  lemma {:induction false} FoundByChain(s: State, p: string, d: nat) returns (n: nat)
    requires Shaped(s) && Resolved(s, p, d) != ""
    ensures n < d && Leads(s, p, n, Resolved(s, p, d))
    decreases d
  {
    if IsLink(s, p) {
      n := FoundByChain(s, Cut(NodeAt(s, p).target, PATH_LEN), d - 1);
      n := n + 1;
    } else {
      n := 0;
    }
  }

  /** The paths of a cycle: each is a link to a path of the set. */
  predicate Closed(s: State, c: set<string>)
    requires Shaped(s)
  {
    forall p :: p in c ==> IsLink(s, p) && Cut(NodeAt(s, p).target, PATH_LEN) in c
  }

  lemma {:induction false} CycleGivesUp(s: State, c: set<string>, p: string, d: nat)
    requires Shaped(s) && Closed(s, c) && p in c
    ensures Resolved(s, p, d) == ""
    decreases d
  {
    if d > 0 { CycleGivesUp(s, c, Cut(NodeAt(s, p).target, PATH_LEN), d - 1); }
  }

  /** A new symbolic link leads where its target leads, with one turn less. */
  lemma LeadsThere(s: State, path: string, target: string, d: nat)
    requires Ok(s) && DoSymlink(s, path, target).1 && PathSafe(s, path)
    ensures var r := DoSymlink(s, path, target).0;
            Shaped(r) && Resolved(r, Cut(path, PATH_LEN), d + 1) == Resolved(r, Cut(target, PATH_LEN), d)
  {
    SymlinkOk(s, path, target, Cut(path, PATH_LEN));
  }

  /** Every path that did not end at the new link's own path resolves as before; a path that did now goes on through
      it. */
  lemma {:induction false} OthersResolve(s: State, path: string, target: string, p: string, d: nat)
    requires Ok(s) && DoSymlink(s, path, target).1 && PathSafe(s, path)
    ensures var r, c := DoSymlink(s, path, target).0, Cut(path, PATH_LEN);
            Shaped(r) && (Resolved(s, p, d) != c ==> Resolved(r, p, d) == Resolved(s, p, d))
    decreases d
  {
    var c := Cut(path, PATH_LEN);
    SymlinkOk(s, path, target, p);
    LongAbsent(s, path);
    assert NodeAt(s, c) == NoNode;
    if d > 0 && IsLink(s, p) {
      assert p != c;
      OthersResolve(s, path, target, Cut(NodeAt(s, p).target, PATH_LEN), d - 1);
    }
  }

  lemma {:induction false} GoesOn(s: State, path: string, target: string, p: string, n: nat, d: nat)
    requires Ok(s) && DoSymlink(s, path, target).1 && PathSafe(s, path) && Leads(s, p, n, Cut(path, PATH_LEN))
    ensures var r := DoSymlink(s, path, target).0;
            Shaped(r) && Resolved(r, p, n + 1 + d) == Resolved(r, Cut(target, PATH_LEN), d)
    decreases n
  {
    SymlinkOk(s, path, target, p);
    LongAbsent(s, path);
    assert NodeAt(s, Cut(path, PATH_LEN)) == NoNode;
    if n == 0 {
      LeadsThere(s, path, target, d);
    } else {
      GoesOn(s, path, target, Cut(NodeAt(s, p).target, PATH_LEN), n - 1, d);
    }
  }

  /** A directory made under a new name of at most 31 characters is in the file table as well, while there is room. */
  lemma MkdirNames(s: State, path: string)
    requires Ok(s) && DoMkdir(s, path).1 && |path| < NAME_LEN && FindFile(s.files, path) < 0 && FreeFile(s.files) >= 0
    ensures var fs := DoMkdir(s, path).0.files;
            exists k :: 0 <= k < |fs| && Holds(fs, k, path) && fs[k].dir && !s.files[k].used
  {
    var k := FreeFile(s.files);
    assert Holds(DoMkdir(s, path).0.files, k, path);
  }

  // ---------------------------------------------------------------------------
  // Success and failure
  // ---------------------------------------------------------------------------

  /** When an operation is carried out, in terms of paths and of room in the table. */
  predicate Possible(s: State, op: Op)
    requires Shaped(s)
  {
    var room := exists i :: 0 <= i < MAX_INODES && !s.inodes[i].used;
    match op
    case MakeSymlink(p, _) => NodeAt(s, p) == NoNode && room
    case MakeLink(p, o) => NodeAt(s, p) == NoNode && NodeAt(s, o).FileNode? && room
    case MakeDir(p) => p != "" && NodeAt(s, p) == NoNode && room
    case Unlink(p) => NodeAt(s, p) != NoNode
    case Rename(p, to) =>
      && NodeAt(s, p) != NoNode && NodeAt(s, to) == NoNode
      && (NodeAt(s, p).FileNode? ==> forall k :: 0 <= k < MAX_FILES ==> !Holds(s.files, k, to))
  }

  lemma FreeIff(s: State)
    requires Shaped(s)
    ensures FreeInode(s) >= 0 <==> exists i :: 0 <= i < MAX_INODES && !s.inodes[i].used
  {}

  lemma FileFreeIff(fs: seq<File>, name: string)
    ensures FindFile(fs, name) < 0 <==> forall k :: 0 <= k < |fs| ==> !Holds(fs, k, name)
  {}

  /** An operation succeeds exactly when it is possible. */
  lemma SucceedsIff(s: State, op: Op)
    requires Ok(s)
    ensures Apply(s, op).1 <==> Possible(s, op)
  {
    FreeIff(s);
    match op
    case MakeDir(p) => SameFree(s, s.(files := FsMkdir(s.files, p)), 0);
    case Rename(p, to) =>
      FileFreeIff(s.files, to);
      var i := FindInode(s, p);
      if i >= 0 && IsFile(s, i) { FileOk(s, i); }
    case _ =>
  }
}
