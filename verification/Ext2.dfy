/** Reading files of an ext2 volume (src/kernel/ext2.c): the block map and byte ranges. */
module Ext2 {
  import opened Bytes
  import opened Numbers

  const INO_BLOCK: nat := 40

  datatype Block = Bad | Good(data: seq<byte>)

  /** A mounted volume with `per` pointers to a block, and the inode in memory. Reading a block may fail. */
  datatype Volume = Volume(per: nat, disk: nat -> Block, inode: seq<byte>) {
    function Bs(): nat { 4 * per }
  }

  predicate Ok(v: Volume) { 0 < v.per <= 1024 && |v.inode| == 256 }

  /** Reads a block; what is not a whole block counts as a failed read. */
  function Fetch(v: Volume, n: nat): (b: Block)
    ensures b.Good? ==> |b.data| == v.Bs()
  {
    if v.disk(n).Good? && |v.disk(n).data| == v.Bs() then v.disk(n) else Bad
  }

  function U32(b: seq<byte>, o: nat): nat
    requires o + 4 <= |b|
  {
    b[o] as nat + 0x100 * b[o + 1] as nat + 0x1_0000 * b[o + 2] as nat + 0x100_0000 * b[o + 3] as nat
  }

  // ---------------------------------------------------------------------------
  // The file an inode describes
  // ---------------------------------------------------------------------------

  /** The block pointers a table block holds; all zero for a missing or unreadable one. */
  ghost function Table(v: Volume, n: nat): (r: seq<nat>)
    requires Ok(v)
    ensures |r| == v.per
  {
    var b := Fetch(v, n);
    if n == 0 || b.Bad? then seq(v.per, _ => 0)
    else seq(v.per, i requires 0 <= i < v.per => U32(b.data, 4 * i))
  }

  function Flat(ts: seq<seq<nat>>): seq<nat> { if |ts| == 0 then [] else ts[0] + Flat(ts[1..]) }

  /** The tables that the pointers of a table lead to, one after the other. */
  ghost function Tables(v: Volume, ns: seq<nat>): (r: seq<seq<nat>>)
    requires Ok(v)
    ensures |r| == |ns| && forall i :: 0 <= i < |r| ==> r[i] == Table(v, ns[i]) && |r[i]| == v.per
  {
    seq(|ns|, i requires 0 <= i < |ns| => Table(v, ns[i]))
  }

  ghost function Direct(v: Volume): (r: seq<nat>)
    requires Ok(v)
    ensures |r| == 12
  {
    seq(12, i requires 0 <= i < 12 => U32(v.inode, INO_BLOCK + 4 * i))
  }

  /** All block pointers of the file in order: twelve direct ones, one table, and the tables of one table. */
  ghost function Pointers(v: Volume): seq<nat>
    requires Ok(v)
  {
    Direct(v) + Table(v, U32(v.inode, INO_BLOCK + 48)) + Flat(Tables(v, Table(v, U32(v.inode, INO_BLOCK + 52))))
  }

  /** The disk block of the i-th block of the file; 0 is a hole. */
  ghost function BlockOf(v: Volume, i: nat): nat
    requires Ok(v)
  {
    if i < |Pointers(v)| then Pointers(v)[i] else 0
  }

  ghost function ByteIn(v: Volume, n: nat, i: nat): byte
    requires Ok(v) && i < v.Bs()
  {
    if n == 0 || Fetch(v, n).Bad? then 0 else Fetch(v, n).data[i]
  }

  /** Byte k of the file, holes as zero. */
  ghost function FileByte(v: Volume, k: nat): byte
    requires Ok(v)
  {
    ByteIn(v, BlockOf(v, k / v.Bs()), k % v.Bs())
  }

  /** f is the contents of the file. */
  ghost predicate IsFile(v: Volume, f: nat -> byte)
    requires Ok(v)
  {
    forall k {:trigger FileByte(v, k)} :: f(k) == FileByte(v, k)
  }

  /** Bytes a up to b. */
  ghost function Range(f: nat -> byte, a: nat, b: nat): (r: seq<byte>)
    requires a <= b
    ensures |r| == b - a
  {
    seq<byte>(b - a, i requires 0 <= i < b - a => f(a + i))
  }

  lemma RangeJoin(f: nat -> byte, a: nat, b: nat, c: nat)
    requires a <= b <= c
    ensures Range(f, a, b) + Range(f, b, c) == Range(f, a, c)
  {}

  // ---------------------------------------------------------------------------
  // The block map
  // ---------------------------------------------------------------------------

  lemma {:induction false} FlatLength(ts: seq<seq<nat>>, m: nat)
    requires forall i :: 0 <= i < |ts| ==> |ts[i]| == m
    ensures |Flat(ts)| == Times(m, |ts|)
  {
    if |ts| > 0 { FlatLength(ts[1..], m); }
  }

  /** Entry r of the q-th of several tables of m entries. */
  lemma {:induction false} FlatAt(ts: seq<seq<nat>>, m: nat, q: nat, r: nat)
    requires (forall i :: 0 <= i < |ts| ==> |ts[i]| == m) && q < |ts| && r < m
    ensures Times(m, q) + r < |Flat(ts)| && Flat(ts)[Times(m, q) + r] == ts[q][r]
  {
    if q > 0 { FlatAt(ts[1..], m, q - 1, r); }
  }

  /** One entry of a table block. */
  method TableEntry(v: Volume, n: nat, i: nat) returns (r: nat)
    requires Ok(v) && i < v.per
    ensures r == Table(v, n)[i]
  {
    if n == 0 { return 0; }
    var b := Fetch(v, n);
    if b.Bad? { return 0; }
    return U32(b.data, 4 * i);
  }

  lemma ThreeParts(a: seq<nat>, b: seq<nat>, c: seq<nat>, i: nat)
    ensures |a + b + c| == |a| + |b| + |c|
    ensures i < |a + b + c| ==>
      (a + b + c)[i] == if i < |a| then a[i] else if i < |a| + |b| then b[i - |a|] else c[i - |a| - |b|]
  {}

  lemma BlockOfCases(v: Volume, i: nat, per: nat)
    requires Ok(v) && per == v.per
    ensures var t1 := Table(v, U32(v.inode, INO_BLOCK + 48)); var t2 :=
      Flat(Tables(v, Table(v, U32(v.inode, INO_BLOCK + 52))));
            BlockOf(v, i) == if i < 12 then U32(v.inode, INO_BLOCK + 4 * i)
                             else if i < 12 + per then t1[i - 12]
                             else if i - 12 - per < |t2| then t2[i - 12 - per] else 0
    ensures |Flat(Tables(v, Table(v, U32(v.inode, INO_BLOCK + 52))))| == per * per
  {
    var ts := Tables(v, Table(v, U32(v.inode, INO_BLOCK + 52)));
    FlatLength(ts, per);
    TimesIs(per, per);
    ThreeParts(Direct(v), Table(v, U32(v.inode, INO_BLOCK + 48)), Flat(ts), i);
  }

  /** `inode_get_block`: follows direct, single and double indirect pointers. */
  method GetBlock(v: Volume, index: nat) returns (r: nat)
    requires Ok(v)
    ensures r == BlockOf(v, index)
  {
    var per := v.per;
    var idx := index;
    BlockOfCases(v, index, per);
    if idx < 12 { return U32(v.inode, INO_BLOCK + 4 * idx); }
    idx := idx - 12;
    if idx < per {
      var indir := U32(v.inode, INO_BLOCK + 12 * 4);
      r := TableEntry(v, indir, idx);
      return;
    }
    idx := idx - per;
    if idx < per * per {
      var dindir := U32(v.inode, INO_BLOCK + 13 * 4);
      r := DoubleEntry(v, dindir, idx, per);
      return;
    }
    return 0;
  }

  lemma DivBelow(k: nat, m: nat, q: nat, r: nat)
    requires m > 0 && k < m * m && q == k / m && r == k % m
    ensures q < m && r < m && k == Times(m, q) + r
  {
    TimesIs(m, q);
    assert k == q * m + r;
    if q >= m { MulMono(m, m, q); }
  }

  method DoubleEntry(v: Volume, dindir: nat, idx: nat, per: nat) returns (r: nat)
    requires Ok(v) && per == v.per && idx < per * per
    ensures idx < |Flat(Tables(v, Table(v, dindir)))| && r == Flat(Tables(v, Table(v, dindir)))[idx]
  {
    var i, j := idx / per, idx % per;
    DivBelow(idx, per, i, j);
    FlatAt(Tables(v, Table(v, dindir)), per, i, j);
    var l1 := TableEntry(v, dindir, i);
    r := TableEntry(v, l1, j);
  }

  // ---------------------------------------------------------------------------
  // Byte ranges
  // ---------------------------------------------------------------------------

  function Min(a: nat, b: nat): nat { if a < b then a else b }

  /** Where a read stops: the sum is 32 bits wide. */
  function End(size: nat, offset: nat, len: nat): nat { Min((offset + len) % W32, size) }

  ghost predicate Readable(v: Volume, k: nat)
    requires Ok(v)
  {
    BlockOf(v, k / v.Bs()) == 0 || Fetch(v, BlockOf(v, k / v.Bs())).Good?
  }

  lemma DivShift(offset: nat, m: nat, q: nat, r: nat, i: nat)
    requires m > 0 && q == offset / m && r == offset % m && r + i < m
    ensures (offset + i) / m == q && (offset + i) % m == r + i
  {
    DivUnique(offset + i, m, q, r + i);
  }

  /** What lies in one block is a piece of that block. */
  lemma OneBlock(v: Volume, offset: nat, q: nat, r: nat, i: nat)
    requires Ok(v) && q == offset / v.Bs() && r == offset % v.Bs() && r + i < v.Bs()
    ensures FileByte(v, offset + i) == ByteIn(v, BlockOf(v, q), r + i)
  {
    DivShift(offset, v.Bs(), q, r, i);
  }

  lemma ByteHere(v: Volume, f: nat -> byte, offset: nat, q: nat, r: nat, i: nat)
    requires Ok(v) && IsFile(v, f) && q == offset / v.Bs() && r == offset % v.Bs() && r + i < v.Bs()
    ensures f(offset + i) == ByteIn(v, BlockOf(v, q), r + i)
  {
    OneBlock(v, offset, q, r, i);
  }

  lemma RangeOf(f: nat -> byte, offset: nat, piece: seq<byte>)
    requires forall i :: 0 <= i < |piece| ==> piece[i] == f(offset + i)
    ensures piece == Range(f, offset, offset + |piece|)
  {}

  lemma RangeInBlock(v: Volume, f: nat -> byte, offset: nat, q: nat, r: nat, n: nat, piece: seq<byte>)
    requires Ok(v) && IsFile(v, f) && q == offset / v.Bs() && r == offset % v.Bs() && r + |piece| <= v.Bs()
      && n == BlockOf(v, q)
    requires forall i :: 0 <= i < |piece| ==> piece[i] == ByteIn(v, n, r + i)
    ensures piece == Range(f, offset, offset + |piece|)
  {
    forall i | 0 <= i < |piece| ensures piece[i] == f(offset + i) { ByteHere(v, f, offset, q, r, i); }
    RangeOf(f, offset, piece);
  }

  /** g says of every byte whether its block can be read. */
  ghost predicate IsReadable(v: Volume, g: nat -> bool)
    requires Ok(v)
  {
    forall k {:trigger Readable(v, k)} :: g(k) <==> Readable(v, k)
  }

  /** The first position from a up to b that cannot be read; b if there is none. */
  ghost function StopAt(g: nat -> bool, a: nat, b: nat): (k: nat)
    requires a <= b
    ensures a <= k <= b && (k < b ==> !g(k)) && forall j :: a <= j < k ==> g(j)
    decreases b - a
  {
    if a == b || !g(a) then a else StopAt(g, a + 1, b)
  }

  lemma {:induction false} StopFurther(g: nat -> bool, a: nat, m: nat, b: nat)
    requires a <= m <= b && forall j :: a <= j < m ==> g(j)
    ensures StopAt(g, a, b) == StopAt(g, m, b)
    decreases m - a
  {
    if a < m { StopFurther(g, a + 1, m, b); }
  }

  lemma ReadableHere(v: Volume, offset: nat, k: nat, q: nat, r: nat)
    requires Ok(v) && q == offset / v.Bs() && r == offset % v.Bs() && offset <= k && r + (k - offset) < v.Bs()
    ensures Readable(v, k) == Readable(v, offset)
  {
    DivShift(offset, v.Bs(), q, r, k - offset);
    ReadableIs(v, offset, q);
    ReadableIs(v, k, q);
  }

  lemma ReadableIs(v: Volume, k: nat, q: nat)
    requires Ok(v) && q == k / v.Bs()
    ensures Readable(v, k) <==> BlockOf(v, q) == 0 || Fetch(v, BlockOf(v, q)).Good?
  {}

  lemma GoodHere(v: Volume, g: nat -> bool, offset: nat, k: nat, q: nat, r: nat)
    requires Ok(v) && IsReadable(v, g) && q == offset / v.Bs() && r == offset % v.Bs() && offset <= k
      && r + (k - offset) < v.Bs()
    ensures g(k) == g(offset)
  {
    ReadableHere(v, offset, k, q, r);
    assert g(k) == Readable(v, k);
  }

  /** One piece further, or stopped. */
  lemma StopNext(v: Volume, g: nat -> bool, o: nat, chunk: nat, end: nat, q: nat, r: nat)
    requires Ok(v) && IsReadable(v, g) && 0 < chunk && o + chunk <= end && q == o / v.Bs() && r == o % v.Bs()
      && r + chunk <= v.Bs()
    ensures StopAt(g, o, end) == if g(o) then StopAt(g, o + chunk, end) else o
  {
    if g(o) {
      forall j | o <= j < o + chunk ensures g(j) { GoodHere(v, g, o, j, q, r); }
      StopFurther(g, o, o + chunk, end);
    }
  }

  /** The part of block q that a read takes from position r on. */
  method ReadPiece(v: Volume, ghost f: nat -> byte, ghost g: nat -> bool, ghost offset: nat, q: nat, r: nat, chunk: nat)
    returns (ok: bool, piece: seq<byte>)
    requires Ok(v) && IsFile(v, f) && IsReadable(v, g) && q == offset / v.Bs() && r == offset % v.Bs()
      && r + chunk <= v.Bs()
    ensures ok == g(offset)
    ensures ok ==> |piece| == chunk && piece == Range(f, offset, offset + chunk)
  {
    var n := GetBlock(v, q);
    ReadableBy(v, g, offset, q, n);
    ok, piece := BlockPiece(v, n, r, chunk);
    if ok { RangeInBlock(v, f, offset, q, r, n, piece); }
  }

  lemma ReadableBy(v: Volume, g: nat -> bool, k: nat, q: nat, n: nat)
    requires Ok(v) && IsReadable(v, g) && q == k / v.Bs() && n == BlockOf(v, q)
    ensures g(k) <==> n == 0 || Fetch(v, n).Good?
  {
    assert g(k) == Readable(v, k);
  }

  /** Bytes r to r + chunk of block n; zeros for a hole. */
  method BlockPiece(v: Volume, n: nat, r: nat, chunk: nat) returns (ok: bool, piece: seq<byte>)
    requires Ok(v) && r + chunk <= v.Bs()
    ensures ok <==> n == 0 || Fetch(v, n).Good?
    ensures ok ==> |piece| == chunk && forall i :: 0 <= i < chunk ==> piece[i] == ByteIn(v, n, r + i)
  {
    if n == 0 { return true, seq(chunk, _ => 0); }
    var b := Fetch(v, n);
    if b.Bad? { return false, []; }
    return true, b.data[r..r + chunk];
  }

  method ChunkLength(bs: nat, r: nat, o: nat, end: nat) returns (chunk: nat)
    requires r < bs && o < end
    ensures 0 < chunk <= end - o && r + chunk <= bs
  {
    chunk := bs - r;
    if chunk > end - o { chunk := end - o; }
  }

  /** One turn of the loop: the next piece, unless its block cannot be read. */
  method NextPiece(v: Volume, ghost f: nat -> byte, ghost g: nat -> bool, o: nat, end: nat)
      returns (ok: bool, piece: seq<byte>)
    requires Ok(v) && IsFile(v, f) && IsReadable(v, g) && o < end
    ensures ok ==>
      && 0 < |piece| <= end - o && piece == Range(f, o, o + |piece|)
      && StopAt(g, o, end) == StopAt(g, o + |piece|, end)
    ensures !ok ==> StopAt(g, o, end) == o
  {
    var q, r := Position(v, o);
    var chunk := ChunkLength(v.Bs(), r, o, end);
    StopNext(v, g, o, chunk, end, q, r);
    ok, piece := ReadPiece(v, f, g, o, q, r, chunk);
  }

  method Position(v: Volume, o: nat) returns (q: nat, r: nat)
    requires Ok(v)
    ensures q == o / v.Bs() && r == o % v.Bs() && r < v.Bs()
  {
    q, r := o / v.Bs(), o % v.Bs();
  }

  /** `inode_read`: the bytes of the file from `offset` to the end of the request or of the file, up to the first
      data block that cannot be read. */
  method InodeRead(v: Volume, ghost f: nat -> byte, ghost g: nat -> bool, size: nat, offset: nat, len: nat)
      returns (out: seq<byte>)
    requires Ok(v) && IsFile(v, f) && IsReadable(v, g) && size < W32 && offset < W32 && len < W32
    ensures offset + |out| <= W32 && out == Range(f, offset, offset + |out|)
    ensures offset >= End(size, offset, len) ==> out == []
    ensures offset < End(size, offset, len) ==> offset + |out| == StopAt(g, offset, End(size, offset, len))
  {
    out := [];
    var end := (offset + len) % W32;
    if end > size { end := size; }
    if offset >= end { return; }
    var o := offset;
    while o < end
      invariant offset <= o <= end && |out| == o - offset && out == Range(f, offset, o)
      invariant StopAt(g, offset, end) == StopAt(g, o, end)
    {
      var ok, piece := NextPiece(v, f, g, o, end);
      if !ok { return; }
      RangeJoin(f, offset, o, o + |piece|);
      out := out + piece;
      o := o + |piece|;
    }
  }

  ghost predicate AllReadable(v: Volume)
    requires Ok(v)
  {
    forall k :: Readable(v, k)
  }

  /** With readable blocks a read returns exactly the requested part of the file, unless offset + len passes 2^32
      while offset is inside the file: then it returns nothing. */
  method ReadExactly(v: Volume, ghost f: nat -> byte, size: nat, offset: nat, len: nat) returns (out: seq<byte>)
    requires Ok(v) && IsFile(v, f) && AllReadable(v) && size < W32 && offset < W32 && len < W32
    ensures out == (if offset < Min(offset + len, size) then Range(f, offset, Min(offset + len, size)) else [])
      <==> offset + len < W32 || offset >= size
    ensures offset + len >= W32 ==> out == []
  {
    ghost var g: nat -> bool := k => true;
    assert IsReadable(v, g);
    out := InodeRead(v, f, g, size, offset, len);
    if offset + len < W32 {
      assert (offset + len) % W32 == offset + len;
    } else {
      DivUnique(offset + len, W32, 1, offset + len - W32);
    }
  }

  /** A file of ten bytes, read from offset 1 with a length that wraps: nothing, where nine bytes were asked for. */
  method WrapExample(v: Volume, ghost f: nat -> byte) returns (out: seq<byte>)
    requires Ok(v) && IsFile(v, f) && AllReadable(v)
    ensures out == [] && |Range(f, 1, Min(1 + 0xFFFF_FFFF, 10))| == 9
  {
    out := ReadExactly(v, f, 10, 1, 0xFFFF_FFFF);
  }

  function Sum(ls: seq<nat>): nat { if |ls| == 0 then 0 else ls[0] + Sum(ls[1..]) }

  /** Reading piece after piece, of any sizes, gives what one read gives. */
  method ReadPieces(v: Volume, ghost f: nat -> byte, size: nat, start: nat, lens: seq<nat>) returns (out: seq<byte>)
    requires Ok(v) && IsFile(v, f) && AllReadable(v) && size < W32 && start + Sum(lens) < W32
    ensures out == if start < Min(start + Sum(lens), size) then Range(f, start, Min(start + Sum(lens), size)) else []
    decreases |lens|
  {
    if |lens| == 0 { return []; }
    out := ReadExactly(v, f, size, start, lens[0]);
    var rest := ReadPieces(v, f, size, start + lens[0], lens[1..]);
    Joined(f, size, start, lens[0], Sum(lens[1..]));
    out := out + rest;
  }

  lemma Joined(f: nat -> byte, size: nat, a: nat, m: nat, n: nat)
    ensures var p := if a < Min(a + m, size) then Range(f, a, Min(a + m, size)) else [];
            var q := if a + m < Min(a + m + n, size) then Range(f, a + m, Min(a + m + n, size)) else [];
            p + q == if a < Min(a + m + n, size) then Range(f, a, Min(a + m + n, size)) else []
  {
    if a + m < Min(a + m + n, size) { RangeJoin(f, a, a + m, Min(a + m + n, size)); }
  }
}
