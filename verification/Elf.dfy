/** The ELF loader of src/kernel/elf_loader.c, run on the memory manager: what a program reads through its page
    tables. */
module Elf {
  import opened Bytes
  import opened Paging
  import opened Spaces
  import opened WordBytes

  const PAGE: nat := 4096
  const EHDR: nat := 64

  /** The file in memory, and whatever lies behind it: the loader reads program headers without checking their size. */
  datatype Image = Image(data: seq<byte>, beyond: nat -> byte)

  function ByteAt(im: Image, i: nat): byte { if i < |im.data| then im.data[i] else im.beyond(i) }

  /** The n-byte little-endian field at offset o. */
  function Field(im: Image, o: nat, n: nat): nat
    decreases n, |im.data|
  {
    if n == 0 then 0 else ByteAt(im, o) + 256 * Field(im, o + 1, n - 1)
  }

  datatype Seg = Seg(offset: nat, vaddr: nat, filesz: nat, memsz: nat)

  function SegAt(im: Image, o: nat): Seg {
    Seg(Field(im, o + 8, 8), Field(im, o + 16, 8), Field(im, o + 32, 8), Field(im, o + 40, 8))
  }

  predicate HeaderOk(im: Image) {
    |im.data| >= EHDR && im.data[0] == 0x7F && im.data[1] == 'E' as int && im.data[2] == 'L' as int
        && im.data[3] == 'F' as int
    && im.data[4] == 2 && Field(im, 16, 2) == 2 && Field(im, 18, 2) == 0x3E && Field(im, 56, 2) != 0
  }

  function Entries(im: Image): nat { Field(im, 56, 2) }

  function EntrySize(im: Image): nat { Field(im, 54, 2) }

  function EntryAt(im: Image, i: nat): nat { (Field(im, 32, 8) + i * EntrySize(im)) % W64 }

  predicate Loadable(im: Image, i: nat) { Field(im, EntryAt(im, i), 4) == 1 }

  /** The bounds checks on the i-th program header, with the sums 64 bits wide. */
  predicate EntryFits(im: Image, i: nat) {
    (EntryAt(im, i) + EntrySize(im)) % W64 <= |im.data|
    && (Loadable(im, i) ==> SegOk(im, SegAt(im, EntryAt(im, i))))
  }

  predicate SegOk(im: Image, g: Seg) {
    g.filesz == 0 || (g.offset < |im.data| && (g.offset + g.filesz) % W64 <= |im.data|)
  }

  predicate AllFit(im: Image, n: nat) { n == 0 || (AllFit(im, n - 1) && EntryFits(im, n - 1)) }

  // ---------------------------------------------------------------------------
  // The pages of a program
  // ---------------------------------------------------------------------------

  /** Down to a page boundary. */
  function Down(a: nat): (r: nat)
    ensures r <= a < r + PAGE && r % PAGE == 0
  {
    a - a % PAGE
  }

  function FileEnd(g: Seg): nat { (g.vaddr + g.filesz) % W64 }

  function First(g: Seg): nat { Down(g.vaddr) }

  function Last(g: Seg): nat { Down((g.vaddr + g.memsz + PAGE - 1) % W64) }

  /** One page to load: a segment, and the address of the page. */
  datatype Load = Load(g: Seg, vp: nat)

  /** The pages of a segment from `vp` up to `end`. */
  function PagesFrom(g: Seg, vp: nat, end: nat): seq<Load>
    decreases end - vp
  {
    if vp >= end then [] else [Load(g, vp)] + PagesFrom(g, vp + PAGE, end)
  }

  /** The pages of the loadable segments among the first n program headers, in order. */
  function Loads(im: Image, n: nat): seq<Load> {
    if n == 0 then []
    else Loads(im, n - 1) + if Loadable(im, n - 1) then SegLoads(SegAt(im, EntryAt(im, n - 1))) else []
  }

  function SegLoads(g: Seg): seq<Load> { PagesFrom(g, First(g), Last(g)) }

  /** The byte a segment puts at address a: from the file inside the file part, zero elsewhere. */
  function SegByte(im: Image, g: Seg, a: nat): byte {
    if g.vaddr <= a < FileEnd(g) then ByteAt(im, g.offset + (a - g.vaddr)) else 0
  }

  function PageOf(im: Image, l: Load): (r: seq<byte>)
    ensures |r| == PAGE
  {
    seq<byte>(PAGE, j requires 0 <= j < PAGE => SegByte(im, l.g, l.vp + j))
  }

  // ---------------------------------------------------------------------------
  // What the loader does, by counting frames
  // ---------------------------------------------------------------------------

  /** An address space as bytes. */
  type ByteSpace = imap<Ix, seq<byte>>

  ghost function BytesIn(sp: Space): ByteSpace { imap x | x in sp :: PageBytes(sp[x]) }

  /** The tables of an address space. */
  ghost function TablesOf(role: Roles, r: nat): set<Role> { set f | f in role && role[f].r == r :: role[f] }

  /** The tables on the way to a page. */
  function Way(r: nat, x: Ix): set<Role> { {Pdpt(r, x.a), Pd(r, x.a, x.b), Pt(r, x.a, x.b, x.c)} }

  function Lacks(t: set<Role>, r: nat, x: Ix): nat {
    (if Pdpt(r, x.a) in t then 0 else 1) + (if Pd(r, x.a, x.b) in t then 0 else 1) + if Pt(r, x.a, x.b, x.c) in t
        then 0 else 1
  }

  /** How far a load has come: still going, pages silently not mapped, frames left, the tables, and what the program
      sees. */
  datatype Progress = Progress(ok: bool, lost: nat, free: nat, tables: set<Role>, sees: ByteSpace)

  /** One page. Without a frame the load stops; a page in a 2MB entry, or whose tables cannot be had, is skipped and its
      frame stays taken. */
  ghost function LoadOne(im: Image, l: Load, r: nat, st: Progress): Progress {
    var x := IxOf(l.vp);
    if st.free == 0 then st.(ok := false)
    else if HugeIx(x) then st.(lost := st.lost + 1, free := st.free - 1)
    else if st.free < 1 + Lacks(st.tables, r, x) then st.(lost := st.lost + 1, free := 0)
    else st.(free := st.free - 1 - Lacks(st.tables, r, x), tables := st.tables + Way(r, x),
        sees := st.sees[x := PageOf(im, l)])
  }

  /** The pages in order, up to the first without a frame. */
  ghost function AfterLoads(im: Image, ls: seq<Load>, r: nat, st: Progress): Progress
    decreases |ls|
  {
    if |ls| == 0 || !st.ok then st else AfterLoads(im, ls[1..], r, LoadOne(im, ls[0], r, st))
  }

  lemma {:induction false} LoadsAppend(im: Image, ls: seq<Load>, ms: seq<Load>, r: nat, st: Progress)
    ensures AfterLoads(im, ls + ms, r, st) == AfterLoads(im, ms, r, AfterLoads(im, ls, r, st))
    decreases |ls|
  {
    if |ls| == 0 {
      assert ls + ms == ms;
    } else if st.ok {
      assert (ls + ms)[1..] == ls[1..] + ms;
      LoadsAppend(im, ls[1..], ms, r, LoadOne(im, ls[0], r, st));
    }
  }

  /** Frames the pages and their missing tables need. */
  function Need(ls: seq<Load>, r: nat, t: set<Role>): nat
    decreases |ls|
  {
    if |ls| == 0 then 0
    else var x := IxOf(ls[0].vp); 1 + Lacks(t, r, x) + Need(ls[1..], r, t + Way(r, x))
  }

  predicate InHuge(ls: seq<Load>) { exists l :: l in ls && HugeIx(IxOf(l.vp)) }

  /** Every page in its place. */
  ghost function Filled(im: Image, ls: seq<Load>, sees: ByteSpace): ByteSpace
    decreases |ls|
  {
    if |ls| == 0 then sees else Filled(im, ls[1..], sees[IxOf(ls[0].vp) := PageOf(im, ls[0])])
  }

  lemma {:induction false} LostGrows(im: Image, ls: seq<Load>, r: nat, st: Progress)
    ensures AfterLoads(im, ls, r, st).lost >= st.lost
    decreases |ls|
  {
    if |ls| > 0 && st.ok { LostGrows(im, ls[1..], r, LoadOne(im, ls[0], r, st)); }
  }

  /** The whole program is loaded if and only if no page lies in a 2MB entry and there are frames for all pages and
      tables. */
  lemma {:induction false} LoadedWhole(im: Image, ls: seq<Load>, r: nat, st: Progress)
    requires st.ok && st.lost == 0
    ensures var o := AfterLoads(im, ls, r, st);
            (o.ok && o.lost == 0 <==> !InHuge(ls) && Need(ls, r, st.tables) <= st.free)
            && (o.ok && o.lost == 0 ==> o.sees == Filled(im, ls, st.sees))
    decreases |ls|
  {
    if |ls| > 0 && st.free > 0 {
      var x, next := IxOf(ls[0].vp), LoadOne(im, ls[0], r, st);
      assert ls[0] in ls && forall l :: l in ls <==> l == ls[0] || l in ls[1..];
      if next.lost == 0 { LoadedWhole(im, ls[1..], r, next); } else { LostGrows(im, ls[1..], r, next); }
    }
  }

  /** One free frame, one page, no page table for it: the loader reports success and the page is not there. */
  lemma SilentLoss(im: Image, l: Load, r: nat, t: set<Role>, sees: ByteSpace)
    requires !HugeIx(IxOf(l.vp)) && Pt(r, IxOf(l.vp).a, IxOf(l.vp).b, IxOf(l.vp).c) !in t
    ensures AfterLoads(im, [l], r, Progress(true, 0, 1, t, sees)) == Progress(true, 1, 0, t, sees)
  {
    var next := LoadOne(im, l, r, Progress(true, 0, 1, t, sees));
    assert AfterLoads(im, [], r, next) == next && [l][1..] == [];
  }

  /** A page at 4MB lies in a 2MB entry of every address space: it is never mapped, however many frames there are. */
  lemma HugeLoss(im: Image, g: Seg, r: nat, free: nat, t: set<Role>, sees: ByteSpace)
    requires free > 0
    ensures AfterLoads(im, [Load(g, 0x40_0000)], r, Progress(true, 0, free, t, sees)) ==
      Progress(true, 1, free - 1, t, sees)
  {
    var l := Load(g, 0x40_0000);
    assert IxOf(l.vp) == Ix(0, 0, 2, 0);
    var next := LoadOne(im, l, r, Progress(true, 0, free, t, sees));
    assert AfterLoads(im, [], r, next) == next && [l][1..] == [];
  }

  // ---------------------------------------------------------------------------
  // Reading the program
  // ---------------------------------------------------------------------------

  /** The byte at address a; -1 if its page is not mapped. */
  ghost function ReadByte(sees: ByteSpace, a: nat): int {
    if IxOf(a) in sees && |sees[IxOf(a)]| == PAGE then sees[IxOf(a)][a % PAGE] else -1
  }

  /** i is the last page load at the page of address a; -1 if there is none. */
  predicate LastAt(ls: seq<Load>, a: nat, i: int) {
    -1 <= i < |ls| && (i >= 0 ==> ls[i].vp == Down(a)) && forall j :: i < j < |ls| ==> ls[j].vp != Down(a)
  }

  predicate Canonical(ls: seq<Load>) {
    forall i :: 0 <= i < |ls| ==> ls[i].vp % PAGE == 0 && ls[i].vp < 0x1_0000_0000_0000
  }

  lemma SamePage(vp: nat, a: nat)
    requires vp % PAGE == 0 && vp < 0x1_0000_0000_0000 && a < 0x1_0000_0000_0000
    ensures IxOf(vp) == IxOf(a) <==> vp == Down(a)
  {
    IxInjective(vp, a);
  }

  /** Below 2^48, an address reads as the last segment loaded at its page says, or as before if there is none. */
  lemma {:induction false} FilledByte(im: Image, ls: seq<Load>, sees: ByteSpace, a: nat, i: int)
    requires Canonical(ls) && a < 0x1_0000_0000_0000 && LastAt(ls, a, i)
    ensures ReadByte(Filled(im, ls, sees), a) == if i < 0 then ReadByte(sees, a) else SegByte(im, ls[i].g, a)
    decreases |ls|
  {
    if |ls| > 0 {
      SamePage(ls[0].vp, a);
      var next := sees[IxOf(ls[0].vp) := PageOf(im, ls[0])];
      FilledByte(im, ls[1..], next, a, if i > 0 then i - 1 else -1);
    }
  }

  /** The segment occupies the page. */
  predicate Covers(g: Seg, page: nat) { page % PAGE == 0 && First(g) <= page < Last(g) }

  lemma {:induction false} PagesFromAt(g: Seg, vp: nat, end: nat, k: nat)
    requires vp % PAGE == 0 && k < |PagesFrom(g, vp, end)|
    ensures PagesFrom(g, vp, end)[k] == Load(g, vp + k * PAGE) && vp + k * PAGE < end && (vp + k * PAGE) % PAGE == 0
    decreases end - vp
  {
    if k > 0 { PagesFromAt(g, vp + PAGE, end, k - 1); }
  }

  /** A page is loaded for a segment exactly when the segment occupies it. */
  lemma {:induction false} PagesFromIff(g: Seg, vp: nat, end: nat, page: nat)
    requires vp % PAGE == 0
    ensures Load(g, page) in PagesFrom(g, vp, end) <==> page % PAGE == 0 && vp <= page < end
    decreases end - vp
  {
    if vp < end {
      PagesFromIff(g, vp + PAGE, end, page);
      NextPage(vp, page);
    }
  }

  lemma NextPage(vp: nat, x: nat)
    requires vp % PAGE == 0
    ensures (vp + PAGE) % PAGE == 0
    ensures x % PAGE == 0 && vp < x ==> vp + PAGE <= x
  {}

  lemma NoWrap(x: nat)
    requires x < W64
    ensures x % W64 == x
  {}

  /** Every address of a segment that does not wrap lies in one of its pages. */
  lemma SegmentCovered(g: Seg, a: nat)
    requires g.vaddr + g.memsz + PAGE <= W64 && g.vaddr <= a < g.vaddr + g.memsz
    ensures Covers(g, Down(a))
  {
    NoWrap(g.vaddr + g.memsz + PAGE - 1);
    Ordered(g.vaddr, a);
    Ordered(a, g.vaddr + g.memsz - 1);
    UpOne(g.vaddr + g.memsz);
  }

  lemma Ordered(a: nat, b: nat)
    requires a <= b
    ensures Down(a) <= Down(b)
  {}

  lemma UpOne(e: nat)
    requires e > 0
    ensures Down(e - 1) < Down(e + PAGE - 1)
  {}

  /** A program whose pages below 2^48 all got mapped: an address in a page that no later load replaces reads as its
      file byte inside the file part of its segment, and as zero elsewhere in the page. */
  lemma LoadedSegment(im: Image, ls: seq<Load>, sees: ByteSpace, i: nat, a: nat)
    requires Canonical(ls) && a < 0x1_0000_0000_0000 && LastAt(ls, a, i)
    requires SegOk(im, ls[i].g) && ls[i].g.filesz <= ls[i].g.memsz && ls[i].g.vaddr + ls[i].g.memsz + PAGE <= W64
    requires ls[i].g.offset + ls[i].g.filesz < W64
    ensures var g, v := ls[i].g, ReadByte(Filled(im, ls, sees), a);
            if g.vaddr <= a < g.vaddr + g.filesz
                then g.offset + (a - g.vaddr) < |im.data| && v == im.data[g.offset + (a - g.vaddr)]
            else v == 0
  {
    FilledByte(im, ls, sees, a, i);
    SegmentByte(im, ls[i].g, a);
  }

  lemma SegmentByte(im: Image, g: Seg, a: nat)
    requires SegOk(im, g) && g.vaddr + g.filesz < W64 && g.offset + g.filesz < W64
    ensures if g.vaddr <= a < g.vaddr + g.filesz
            then g.offset + (a - g.vaddr) < |im.data| && SegByte(im, g, a) == im.data[g.offset + (a - g.vaddr)]
            else SegByte(im, g, a) == 0
  {
    NoWrap(g.vaddr + g.filesz);
    NoWrap(g.offset + g.filesz);
  }

  // ---------------------------------------------------------------------------
  // Reading a program of several segments
  // ---------------------------------------------------------------------------

  function HeaderSeg(im: Image, h: nat): Seg { SegAt(im, EntryAt(im, h)) }

  /** The i-th page of a program comes from a loadable header that occupies it. */
  lemma {:induction false} LoadFrom(im: Image, n: nat, i: nat) returns (h: nat)
    requires i < |Loads(im, n)|
    ensures h < n && Loadable(im, h) && Loads(im, n)[i].g == HeaderSeg(im, h)
      && Covers(HeaderSeg(im, h), Loads(im, n)[i].vp)
  {
    LoadsEnd(im, n, i);
    if i < |Loads(im, n - 1)| { h := LoadFrom(im, n - 1, i); } else { h := n - 1; }
  }

  lemma LoadsEnd(im: Image, n: nat, i: nat)
    requires n > 0 && i < |Loads(im, n)|
    ensures var front, g := Loads(im, n - 1), HeaderSeg(im, n - 1);
            if i < |front| then Loads(im, n)[i] == front[i]
            else Loadable(im, n - 1) && Loads(im, n)[i].g == g && Covers(g, Loads(im, n)[i].vp)
  {
    var front, g := Loads(im, n - 1), HeaderSeg(im, n - 1);
    if i >= |front| { PagesFromAt(g, First(g), Last(g), i - |front|); }
  }

  /** Every page that a loadable header occupies is loaded for it. */
  lemma {:induction false} LoadOf(im: Image, n: nat, h: nat, page: nat) returns (i: nat)
    requires h < n && Loadable(im, h) && Covers(HeaderSeg(im, h), page)
    ensures i < |Loads(im, n)| && Loads(im, n)[i] == Load(HeaderSeg(im, h), page)
  {
    if h < n - 1 {
      i := LoadOf(im, n - 1, h, page);
    } else {
      var j := SegLoadOf(HeaderSeg(im, h), page);
      i := |Loads(im, n - 1)| + j;
    }
  }

  lemma SegLoadOf(g: Seg, page: nat) returns (j: nat)
    requires Covers(g, page)
    ensures j < |SegLoads(g)| && SegLoads(g)[j] == Load(g, page)
  {
    PagesFromIff(g, First(g), Last(g), page);
    j :| 0 <= j < |SegLoads(g)| && SegLoads(g)[j] == Load(g, page);
  }

  /** The last load at the page of a, if there is one. */
  lemma {:induction false} LastLoad(ls: seq<Load>, a: nat, i: nat) returns (k: nat)
    requires i < |ls| && ls[i].vp == Down(a)
    ensures k < |ls| && LastAt(ls, a, k)
    decreases |ls| - i
  {
    if j :| i < j < |ls| && ls[j].vp == Down(a) { k := LastLoad(ls, a, j); } else { k := i; }
  }

  /** The segments of the loadable headers end below 2^48. */
  predicate Addressable(im: Image, n: nat) {
    forall h :: 0 <= h < n && Loadable(im, h) ==>
        HeaderSeg(im, h).vaddr + HeaderSeg(im, h).memsz + PAGE <= 0x1_0000_0000_0000
  }

  lemma ProgramCanonical(im: Image, n: nat)
    requires Addressable(im, n)
    ensures Canonical(Loads(im, n))
  {
    var ls := Loads(im, n);
    forall i | 0 <= i < |ls| ensures ls[i].vp % PAGE == 0 && ls[i].vp < 0x1_0000_0000_0000 {
      var h := LoadFrom(im, n, i);
      NoWrap(HeaderSeg(im, h).vaddr + HeaderSeg(im, h).memsz + PAGE - 1);
    }
  }

  /** Address a belongs to the segment of header h, and no other segment has a part of its page. */
  predicate SoleIn(im: Image, n: nat, h: nat, a: nat) {
    && h < n && Loadable(im, h) && HeaderSeg(im, h).vaddr <= a < HeaderSeg(im, h).vaddr + HeaderSeg(im, h).memsz
    && forall k :: 0 <= k < n && k != h && Loadable(im, k) ==> !Covers(HeaderSeg(im, k), Down(a))
  }

  /** What a program must read at address a of its segment h: the file byte, or zero behind the file part. */
  function HeaderByte(im: Image, h: nat, a: nat): byte
    requires a >= HeaderSeg(im, h).vaddr
  {
    var g := HeaderSeg(im, h);
    if a < g.vaddr + g.filesz then ByteAt(im, g.offset + (a - g.vaddr)) else 0
  }

  /** In a program whose pages were all mapped, every address of a segment that shares no page with another one reads as
      its file byte, or as zero behind the file part. */
  lemma ProgramByte(im: Image, n: nat, sees: ByteSpace, h: nat, a: nat)
    requires AllFit(im, n) && Addressable(im, n) && SoleIn(im, n, h, a)
      && HeaderSeg(im, h).filesz <= HeaderSeg(im, h).memsz
    ensures ReadByte(Filled(im, Loads(im, n), sees), a) == HeaderByte(im, h, a)
  {
    var k := OwnLoad(im, n, h, a);
    ProgramCanonical(im, n);
    FilledByte(im, Loads(im, n), sees, a, k);
    OwnByte(im, HeaderSeg(im, h), a);
  }

  /** The last load at the page of a is one of its own segment. */
  lemma OwnLoad(im: Image, n: nat, h: nat, a: nat) returns (k: nat)
    requires Addressable(im, n) && SoleIn(im, n, h, a)
    ensures k < |Loads(im, n)| && LastAt(Loads(im, n), a, k) && Loads(im, n)[k].g == HeaderSeg(im, h)
  {
    SegmentCovered(HeaderSeg(im, h), a);
    var i := LoadOf(im, n, h, Down(a));
    k := LastLoad(Loads(im, n), a, i);
    var l := LoadFrom(im, n, k);
  }

  lemma OwnByte(im: Image, g: Seg, a: nat)
    requires g.vaddr + g.filesz < W64 && g.vaddr <= a
    ensures SegByte(im, g, a) == if a < g.vaddr + g.filesz then ByteAt(im, g.offset + (a - g.vaddr)) else 0
  {
    NoWrap(g.vaddr + g.filesz);
  }

  /** The file bytes are inside the file. */
  lemma {:induction false} HeaderBytesThere(im: Image, n: nat, h: nat, a: nat)
    requires AllFit(im, n) && h < n && Loadable(im, h) && HeaderSeg(im, h).offset + HeaderSeg(im, h).filesz < W64
    requires HeaderSeg(im, h).vaddr <= a < HeaderSeg(im, h).vaddr + HeaderSeg(im, h).filesz
    ensures HeaderSeg(im, h).offset + (a - HeaderSeg(im, h).vaddr) < |im.data|
    decreases n
  {
    if h < n - 1 {
      HeaderBytesThere(im, n - 1, h, a);
    } else {
      NoWrap(HeaderSeg(im, h).offset + HeaderSeg(im, h).filesz);
    }
  }
}
