/** The file formats that are read, from the writer's side: structures laid out field by field are read back. */
module Formats {
  import opened Bytes
  import FieldBytes
  import Elf
  import Ext2

  /** A packed structure: one field after the other, each of `width` bytes, least significant first. */
  datatype Items = End | Item(width: nat, value: nat, rest: Items)

  function LittleEndian(v: nat, n: nat): (s: seq<byte>)
    ensures |s| == n
    decreases n, v
  {
    if n == 0 then [] else [v % 256] + LittleEndian(v / 256, n - 1)
  }

  function Packed(it: Items): seq<byte> {
    match it
    case End => []
    case Item(w, v, rest) => LittleEndian(v, w) + Packed(rest)
  }

  predicate Legal(it: Items) { it.Item? ==> it.value < Pow256(it.width) && Legal(it.rest) }

  predicate StartsAt(b: seq<byte>, o: nat, s: seq<byte>) { o + |s| <= |b| && b[o..o + |s|] == s }

  /** The structure stands at offset o. */
  predicate Laid(b: seq<byte>, o: nat, it: Items) { Legal(it) && StartsAt(b, o, Packed(it)) }

  lemma {:induction false} LittleEndianValue(v: nat, n: nat, p: nat)
    requires p == Pow256(n) && v < p
    ensures FieldBytes.LE(LittleEndian(v, n)) == v
    decreases n
  {
    if n > 0 {
      LittleEndianValue(v / 256, n - 1, Pow256(n - 1));
      assert LittleEndian(v, n)[1..] == LittleEndian(v / 256, n - 1);
    }
  }

  lemma SplitAt(b: seq<byte>, o: nat, s: seq<byte>, r: seq<byte>)
    requires StartsAt(b, o, s + r)
    ensures StartsAt(b, o, s) && StartsAt(b, o + |s|, r)
  {
    var w := b[o..o + |s + r|];
    assert forall i :: 0 <= i < |s| ==> b[o + i] == w[i] == s[i];
    assert forall i :: 0 <= i < |r| ==> b[o + |s| + i] == w[|s| + i] == r[i];
  }

  lemma PeelRest(b: seq<byte>, o: nat, it: Items)
    requires it.Item? && Laid(b, o, it)
    ensures StartsAt(b, o, LittleEndian(it.value, it.width))
    ensures Laid(b, o + it.width, it.rest)
  {
    SplitAt(b, o, LittleEndian(it.value, it.width), Packed(it.rest));
  }

  /** The first field is where the structure starts, the others follow behind it. */
  lemma Peel(b: seq<byte>, o: nat, it: Items)
    requires it.Item? && Laid(b, o, it)
    ensures o + it.width <= |b| && FieldBytes.LE(b[o..o + it.width]) == it.value
    ensures Laid(b, o + it.width, it.rest)
  {
    PeelRest(b, o, it);
    LittleEndianValue(it.value, it.width, Pow256(it.width));
  }

  // ---------------------------------------------------------------------------
  // ELF
  // ---------------------------------------------------------------------------

  lemma {:induction false} FieldIs(im: Elf.Image, o: nat, n: nat)
    requires o + n <= |im.data|
    ensures Elf.Field(im, o, n) == FieldBytes.LE(im.data[o..o + n])
    decreases n
  {
    if n > 0 {
      FieldIs(im, o + 1, n - 1);
      assert im.data[o..o + n][1..] == im.data[o + 1..o + n];
    }
  }

  lemma PeelField(im: Elf.Image, o: nat, it: Items)
    requires it.Item? && Laid(im.data, o, it)
    ensures Elf.Field(im, o, it.width) == it.value
    ensures o + it.width <= |im.data| && Laid(im.data, o + it.width, it.rest)
  {
    Peel(im.data, o, it);
    FieldIs(im, o, it.width);
  }

  /** Three fields in a row. */
  lemma ThreeFields(im: Elf.Image, o: nat, it: Items, p: nat, q: nat, r: nat)
    requires it.Item? && it.rest.Item? && it.rest.rest.Item? && Laid(im.data, o, it)
    requires p == o + it.width && q == p + it.rest.width && r == q + it.rest.rest.width
    ensures Elf.Field(im, o, it.width) == it.value && Elf.Field(im, p, it.rest.width) == it.rest.value
    ensures Elf.Field(im, q, it.rest.rest.width) == it.rest.rest.value
    ensures r <= |im.data| && Laid(im.data, r, it.rest.rest.rest)
  {
    PeelField(im, o, it);
    PeelField(im, p, it.rest);
    PeelField(im, q, it.rest.rest);
  }

  lemma ThreeSkipped(b: seq<byte>, o: nat, it: Items, r: nat)
    requires it.Item? && it.rest.Item? && it.rest.rest.Item? && Laid(b, o, it)
    requires r == o + it.width + it.rest.width + it.rest.rest.width
    ensures Laid(b, r, it.rest.rest.rest)
  {
    var p := o + it.width;
    PeelRest(b, o, it);
    PeelRest(b, p, it.rest);
    PeelRest(b, p + it.rest.width, it.rest.rest);
  }

  /** `Elf64_Phdr`. */
  datatype Phdr = Phdr(kind: nat, flags: nat, offset: nat, vaddr: nat, paddr: nat, filesz: nat, memsz: nat, align: nat)

  function PhdrItems(h: Phdr): Items {
    Item(4, h.kind, Item(4, h.flags, Item(8, h.offset, Item(8, h.vaddr,
      Item(8, h.paddr, Item(8, h.filesz, Item(8, h.memsz, Item(8, h.align, End))))))))
  }

  /** A program header written at offset o is the segment the loader sees there. */
  lemma PhdrRead(im: Elf.Image, o: nat, h: Phdr)
    requires Laid(im.data, o, PhdrItems(h))
    ensures Elf.SegAt(im, o) == Elf.Seg(h.offset, h.vaddr, h.filesz, h.memsz)
    ensures Elf.Field(im, o, 4) == h.kind
  {
    var it := PhdrItems(h);
    ThreeFields(im, o, it, o + 4, o + 8, o + 16);
    ThreeFields(im, o + 16, it.rest.rest.rest, o + 24, o + 32, o + 40);
    PeelField(im, o + 40, it.rest.rest.rest.rest.rest.rest);
  }

  /** `Elf64_Ehdr`, the identification bytes one by one up to the class. */
  datatype Ehdr = Ehdr(mag0: nat, mag1: nat, mag2: nat, mag3: nat, class_: nat, ident: nat, kind: nat, machine: nat,
      version: nat, entry: nat, phoff: nat, shoff: nat, flags: nat, ehsize: nat, phentsize: nat, phnum: nat,
      shentsize: nat, shnum: nat, shstrndx: nat)

  function IdentItems(h: Ehdr, rest: Items): Items {
    Item(1, h.mag0, Item(1, h.mag1, Item(1, h.mag2, Item(1, h.mag3, Item(1, h.class_, Item(11, h.ident, rest))))))
  }

  function AddressItems(h: Ehdr, rest: Items): Items {
    Item(2, h.kind, Item(2, h.machine, Item(4, h.version, Item(8, h.entry, Item(8, h.phoff, Item(8, h.shoff, rest))))))
  }

  function CountItems(h: Ehdr): Items {
    Item(4, h.flags, Item(2, h.ehsize, Item(2, h.phentsize, Item(2, h.phnum, Item(2, h.shentsize, Item(2, h.shnum,
      Item(2, h.shstrndx, End)))))))
  }

  function EhdrItems(h: Ehdr): Items { IdentItems(h, AddressItems(h, CountItems(h))) }

  lemma IdentRead(im: Elf.Image, h: Ehdr, rest: Items)
    requires Laid(im.data, 0, IdentItems(h, rest))
    ensures Elf.Field(im, 0, 1) == h.mag0 && Elf.Field(im, 1, 1) == h.mag1 && Elf.Field(im, 2, 1) == h.mag2
    ensures Elf.Field(im, 3, 1) == h.mag3 && Elf.Field(im, 4, 1) == h.class_
    ensures Laid(im.data, 16, rest)
  {
    var it := IdentItems(h, rest);
    ThreeFields(im, 0, it, 1, 2, 3);
    ThreeFields(im, 3, it.rest.rest.rest, 4, 5, 16);
  }

  lemma AddressRead(im: Elf.Image, h: Ehdr, rest: Items)
    requires Laid(im.data, 16, AddressItems(h, rest))
    ensures Elf.Field(im, 16, 2) == h.kind && Elf.Field(im, 18, 2) == h.machine
    ensures Elf.Field(im, 24, 8) == h.entry && Elf.Field(im, 32, 8) == h.phoff
    ensures Laid(im.data, 48, rest)
  {
    var it := AddressItems(h, rest);
    ThreeFields(im, 16, it, 18, 20, 24);
    ThreeFields(im, 24, it.rest.rest.rest, 32, 40, 48);
  }

  lemma CountRead(im: Elf.Image, h: Ehdr)
    requires Laid(im.data, 48, CountItems(h))
    ensures Elf.Field(im, 54, 2) == h.phentsize && Elf.Field(im, 56, 2) == h.phnum && |im.data| >= 64
  {
    var it := CountItems(h);
    ThreeFields(im, 48, it, 52, 54, 56);
    ThreeFields(im, 56, it.rest.rest.rest, 58, 60, 62);
    PeelField(im, 62, it.rest.rest.rest.rest.rest.rest);
  }

  lemma OneByte(im: Elf.Image, i: nat)
    requires i < |im.data|
    ensures Elf.Field(im, i, 1) == im.data[i]
  {}

  /** What the loader makes of a file header written field by field: which files it accepts, and where it finds the
      entry point and the program headers. */
  lemma EhdrRead(im: Elf.Image, h: Ehdr, i: nat)
    requires Laid(im.data, 0, EhdrItems(h))
    ensures Elf.HeaderOk(im) <==>
      && h.mag0 == 0x7F && h.mag1 == 'E' as int && h.mag2 == 'L' as int && h.mag3 == 'F' as int && h.class_ == 2
      && h.kind == 2 && h.machine == 62 && h.phnum > 0
    ensures Elf.Entries(im) == h.phnum && Elf.Field(im, 24, 8) == h.entry
    ensures Elf.EntryAt(im, i) == (h.phoff + i * h.phentsize) % W64
  {
    IdentRead(im, h, AddressItems(h, CountItems(h)));
    AddressRead(im, h, CountItems(h));
    CountRead(im, h);
    OneByte(im, 0);
    OneByte(im, 1);
    OneByte(im, 2);
    OneByte(im, 3);
    OneByte(im, 4);
  }

  /** Position p lies in the file. */
  predicate Inside(im: Elf.Image, p: nat) { p < |im.data| }

  /** So do the n positions from o on. */
  predicate AllInside(im: Elf.Image, o: nat, n: nat) { forall p :: o <= p < o + n ==> Inside(im, p) }

  lemma AllInsideIff(im: Elf.Image, o: nat, n: nat)
    ensures AllInside(im, o, n) <==> n == 0 || o + n <= |im.data|
  {
    if n > 0 && AllInside(im, o, n) { assert Inside(im, o + n - 1); }
  }

  lemma SegFits(im: Elf.Image, g: Elf.Seg)
    requires g.offset + g.filesz < W64
    ensures Elf.SegOk(im, g) <==> AllInside(im, g.offset, g.filesz)
  {
    AllInsideIff(im, g.offset, g.filesz);
  }

  lemma EntryFitsParts(im: Elf.Image, i: nat, o: nat, n: nat)
    requires o == Elf.EntryAt(im, i) && n == Elf.EntrySize(im) && o + n < W64
    ensures Elf.EntryFits(im, i) <==>
      o + n <= |im.data| && (Elf.Field(im, o, 4) == 1 ==> Elf.SegOk(im, Elf.SegAt(im, o)))
  {}

  /** A program header passes the checks exactly when all its bytes, and all bytes of the file part of a loadable one,
      lie in the file; the sums must not wrap. */
  lemma FitsIff(im: Elf.Image, i: nat, o: nat, n: nat, g: Elf.Seg)
    requires o == Elf.EntryAt(im, i) && n == Elf.EntrySize(im) && 0 < n && o + n < W64
    requires g == Elf.SegAt(im, o) && g.offset + g.filesz < W64
    ensures Elf.EntryFits(im, i) <==>
      AllInside(im, o, n) && (Elf.Field(im, o, 4) == 1 ==> AllInside(im, g.offset, g.filesz))
  {
    EntryFitsParts(im, i, o, n);
    AllInsideIff(im, o, n);
    SegFits(im, g);
  }

  // ---------------------------------------------------------------------------
  // ext2
  // ---------------------------------------------------------------------------

  lemma U32Is(b: seq<byte>, o: nat)
    requires o + 4 <= |b|
    ensures Ext2.U32(b, o) == FieldBytes.LE(b[o..o + 4])
  {
    FieldBytes.LE4(b[o..o + 4]);
    assert b[o..o + 4][4..] == [];
  }

  /** A list of block pointers. */
  function PointerItems(ps: seq<nat>): Items { if |ps| == 0 then End else Item(4, ps[0], PointerItems(ps[1..])) }

  lemma {:induction false} PointersRead(b: seq<byte>, o: nat, ps: seq<nat>, i: nat)
    requires i < |ps| && Laid(b, o, PointerItems(ps))
    ensures o + 4 * i + 4 <= |b| && Ext2.U32(b, o + 4 * i) == ps[i]
    decreases |ps|
  {
    Peel(b, o, PointerItems(ps));
    if i == 0 { U32Is(b, o); } else { PointersRead(b, o + 4, ps[1..], i - 1); }
  }

  /** The fields of an inode before its block pointers. */
  datatype Inode = Inode(mode: nat, uid: nat, size: nat, atime: nat, ctime: nat, mtime: nat, dtime: nat, gid: nat,
      links: nat, blocks: nat, flags: nat, osd: nat, block: seq<nat>)

  function OwnerItems(n: Inode, rest: Items): Items {
    Item(2, n.mode, Item(2, n.uid, Item(4, n.size, Item(4, n.atime, Item(4, n.ctime, Item(4, n.mtime, rest))))))
  }

  function UseItems(n: Inode, rest: Items): Items {
    Item(4, n.dtime, Item(2, n.gid, Item(2, n.links, Item(4, n.blocks, Item(4, n.flags, Item(4, n.osd, rest))))))
  }

  function InodeItems(n: Inode): Items { OwnerItems(n, UseItems(n, PointerItems(n.block))) }

  lemma OwnerRead(b: seq<byte>, n: Inode, rest: Items)
    requires Laid(b, 0, OwnerItems(n, rest))
    ensures Laid(b, 20, rest)
  {
    var it := OwnerItems(n, rest);
    ThreeSkipped(b, 0, it, 8);
    ThreeSkipped(b, 8, it.rest.rest.rest, 20);
  }

  lemma UseRead(b: seq<byte>, n: Inode, rest: Items)
    requires Laid(b, 20, UseItems(n, rest))
    ensures Laid(b, 40, rest)
  {
    var it := UseItems(n, rest);
    ThreeSkipped(b, 20, it, 28);
    ThreeSkipped(b, 28, it.rest.rest.rest, 40);
  }

  /** A table block on the disk that holds the pointers ps. */
  predicate Stored(v: Ext2.Volume, n: nat, ps: seq<nat>) {
    n != 0 && |ps| == v.per && Legal(PointerItems(ps)) && Ext2.Fetch(v, n) == Ext2.Good(Packed(PointerItems(ps)))
  }

  lemma TableRead(v: Ext2.Volume, n: nat, ps: seq<nat>)
    requires Ext2.Ok(v) && Stored(v, n, ps)
    ensures Ext2.Table(v, n) == ps
  {
    var b := Packed(PointerItems(ps));
    assert StartsAt(b, 0, b);
    forall i | 0 <= i < |ps| ensures Ext2.Table(v, n)[i] == ps[i] { PointersRead(b, 0, ps, i); }
  }

  /** A file written as the format says: twelve pointers and two table blocks in the inode, the first table holding the
      next pointers, the second one leading to more tables. */
  predicate Written(v: Ext2.Volume, n: Inode, direct: seq<nat>, single: seq<nat>, outer: seq<nat>, inner: seq<seq<nat>>)
  {
    && Ext2.Ok(v) && Laid(v.inode, 0, InodeItems(n))
    && |n.block| == 15 && |direct| == 12 && direct == n.block[..12]
    && Stored(v, n.block[12], single) && Stored(v, n.block[13], outer)
    && |inner| == |outer| && forall i :: 0 <= i < |outer| ==> Stored(v, outer[i], inner[i])
  }

  /** The reader finds exactly the pointers written, in order. */
  lemma WrittenRead(v: Ext2.Volume, n: Inode, direct: seq<nat>, single: seq<nat>, outer: seq<nat>, inner: seq<seq<nat>>)
    requires Written(v, n, direct, single, outer, inner)
    ensures Ext2.Pointers(v) == direct + single + Ext2.Flat(inner)
  {
    BlocksRead(v, n);
    TableRead(v, n.block[12], single);
    TableRead(v, n.block[13], outer);
    forall i | 0 <= i < |outer| ensures Ext2.Table(v, outer[i]) == inner[i] { TableRead(v, outer[i], inner[i]); }
    assert Ext2.Tables(v, outer) == inner;
    assert Ext2.Direct(v) == direct;
  }

  lemma BlocksRead(v: Ext2.Volume, n: Inode)
    requires Ext2.Ok(v) && Laid(v.inode, 0, InodeItems(n)) && |n.block| == 15
    ensures forall i :: 0 <= i < 12 ==> Ext2.Direct(v)[i] == n.block[i]
    ensures Ext2.U32(v.inode, Ext2.INO_BLOCK + 48) == n.block[12]
      && Ext2.U32(v.inode, Ext2.INO_BLOCK + 52) == n.block[13]
  {
    OwnerRead(v.inode, n, UseItems(n, PointerItems(n.block)));
    UseRead(v.inode, n, PointerItems(n.block));
    forall i | 0 <= i < 14 ensures Ext2.U32(v.inode, 40 + 4 * i) == n.block[i] {
      PointersRead(v.inode, 40, n.block, i);
    }
    assert Ext2.U32(v.inode, 40 + 4 * 12) == n.block[12] && Ext2.U32(v.inode, 40 + 4 * 13) == n.block[13];
  }
}
