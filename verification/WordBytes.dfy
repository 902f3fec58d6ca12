/** The eight bytes of a memory word, and pages as 4096 bytes. */
module WordBytes {
  import opened Bytes
  import opened Paging

  predicate Odd(x: nat) { x % 2 == 1 }

  /** The word with a given value: its fields are the bits of the number. */
  function WordOf(v: nat): Word {
    Word(v / 4096, Odd(v), Odd(v / 2), Odd(v / 4), Odd(v / 0x80), Odd(v / 0x200), v)
  }

  lemma Bits01(f: nat, n: nat)
    ensures Odd(4096 * f + n) == Odd(n) && Odd((4096 * f + n) / 2) == Odd(n / 2)
  {
    assert (4096 * f + n) / 2 == 2 * (1024 * f) + n / 2;
  }

  lemma Bit2(f: nat, n: nat)
    ensures Odd((4096 * f + n) / 4) == Odd(n / 4)
  {
    assert (4096 * f + n) / 4 == 2 * (512 * f) + n / 4;
  }

  lemma Bit7(f: nat, n: nat)
    ensures Odd((4096 * f + n) / 0x80) == Odd(n / 0x80)
  {
    assert (4096 * f + n) / 0x80 == 2 * (16 * f) + n / 0x80;
  }

  lemma Bit9(f: nat, n: nat)
    ensures Odd((4096 * f + n) / 0x200) == Odd(n / 0x200)
  {
    assert (4096 * f + n) / 0x200 == 2 * (4 * f) + n / 0x200;
  }

  lemma WordParts(f: nat, n: nat)
    requires n < 4096
    ensures WordOf(4096 * f + n) == Word(f, Odd(n), Odd(n / 2), Odd(n / 4), Odd(n / 0x80), Odd(n / 0x200), 4096 * f + n)
  {
    Bits01(f, n);
    Bit2(f, n);
    Bit7(f, n);
    Bit9(f, n);
  }

  lemma UserEntryValues(f: nat)
    ensures Entry(f, 7) == WordOf(4096 * f + 7) && Entry(f, 0x205) == WordOf(4096 * f + 0x205)
  {
    WordParts(f, 7);
    WordParts(f, 0x205);
  }

  lemma KernelEntryValues(f: nat)
    ensures Entry(f, 3) == WordOf(4096 * f + 3) && Entry(f, 0x83) == WordOf(4096 * f + 0x83)
  {
    WordParts(f, 3);
    WordParts(f, 0x83);
  }

  lemma LargeEntryValue(f: nat)
    ensures Entry(f, 0x87) == WordOf(4096 * f + 0x87)
  {
    WordParts(f, 0x87);
  }

  /** The entries the memory manager writes are the words with these values. */
  lemma EntryValues(f: nat)
    ensures Entry(f, 7) == WordOf(4096 * f + 7) && Entry(f, 0x205) == WordOf(4096 * f + 0x205)
    ensures Entry(f, 3) == WordOf(4096 * f + 3) && Entry(f, 0x83) == WordOf(4096 * f + 0x83)
    ensures Entry(f, 0x87) == WordOf(4096 * f + 0x87)
  {
    UserEntryValues(f);
    KernelEntryValues(f);
    LargeEntryValue(f);
  }

  /** The low n bytes of v, least significant first. */
  function Split(v: nat, n: nat): (s: seq<byte>)
    ensures |s| == n
    decreases n, v
  {
    if n == 0 then [] else [v % 256] + Split(v / 256, n - 1)
  }

  function Join(s: seq<byte>): nat {
    if |s| == 0 then 0 else s[0] + 256 * Join(s[1..])
  }

  lemma {:induction false} SplitJoin(s: seq<byte>)
    ensures Split(Join(s), |s|) == s
  {
    if |s| > 0 {
      SplitJoin(s[1..]);
      assert Join(s) % 256 == s[0] && Join(s) / 256 == Join(s[1..]);
    }
  }

  function BytesOf(w: Word): (s: seq<byte>)
    ensures |s| == 8
  {
    Split(w.value, 8)
  }

  function WordFrom(s: seq<byte>): Word { WordOf(Join(s)) }

  lemma BytesFrom(s: seq<byte>)
    requires |s| == 8
    ensures BytesOf(WordFrom(s)) == s
  {
    SplitJoin(s);
  }

  /** A page as bytes. */
  function PageBytes(pg: seq<Word>): (s: seq<byte>)
    ensures |pg| == 512 ==> |s| == 4096
  {
    if |pg| == 512 then seq<byte>(4096, j requires 0 <= j < 4096 => BytesOf(pg[j / 8])[j % 8]) else []
  }

  lemma {:induction false} SplitZeros(n: nat, k: nat)
    requires k < n
    ensures Split(0, n)[k] == 0
    decreases n
  {
    if k > 0 { SplitZeros(n - 1, k - 1); }
  }

  lemma ZeroWord(n: nat, k: nat)
    requires n == 8 && k < n
    ensures BytesOf(ZERO)[k] == 0
  {
    SplitZeros(n, k);
  }

  lemma ZeroBytes(j: nat)
    requires j < 4096
    ensures PageBytes(ZeroPage())[j] == 0
  {
    ZeroWord(8, j % 8);
  }

  /** Writing one byte of a page. */
  function SetByte(pg: Page, j: nat, b: byte): Page
    requires j < 4096
  {
    pg[j / 8 := WordFrom(BytesOf(pg[j / 8])[j % 8 := b])]
  }

  lemma SetByteOk(pg: Page, j: nat, b: byte)
    requires j < 4096
    ensures PageBytes(SetByte(pg, j, b)) == PageBytes(pg)[j := b]
  {
    var s := BytesOf(pg[j / 8])[j % 8 := b];
    BytesFrom(s);
    PageSet(pg, j, WordFrom(s), b);
  }

  lemma PageSet(pg: Page, j: nat, w: Word, b: byte)
    requires j < 4096 && BytesOf(w) == BytesOf(pg[j / 8])[j % 8 := b]
    ensures PageBytes(pg[j / 8 := w]) == PageBytes(pg)[j := b]
  {
    PageSetSlot(pg, j, j / 8, j % 8, w, b);
  }

  lemma PageSetSlot(pg: Page, j: nat, p: nat, q: nat, w: Word, b: byte)
    requires j < 4096 && p == j / 8 && q == j % 8 && BytesOf(w) == BytesOf(pg[p])[q := b]
    ensures PageBytes(pg[p := w]) == PageBytes(pg)[j := b]
  {
    var now: Page := pg[p := w];
    forall k | 0 <= k < 4096 ensures PageBytes(now)[k] == PageBytes(pg)[j := b][k] {
      SameSlot(j, k);
      var i, l := k / 8, k % 8;
      PageByteAt(pg, k, i, l);
      PageByteAt(now, k, i, l);
      SlotSet(pg, p, q, w, b, i, l, now);
    }
  }

  lemma PageByteAt(pg: Page, k: nat, i: nat, l: nat)
    requires k < 4096 && i == k / 8 && l == k % 8
    ensures i < 512 && l < 8 && PageBytes(pg)[k] == BytesOf(pg[i])[l]
  {}

  lemma SlotSet(pg: Page, p: nat, q: nat, w: Word, b: byte, i: nat, l: nat, now: Page)
    requires p < 512 && q < 8 && i < 512 && l < 8 && BytesOf(w) == BytesOf(pg[p])[q := b] && now == pg[p := w]
    ensures BytesOf(now[i])[l] == if i == p && l == q then b else BytesOf(pg[i])[l]
  {}

  lemma SameSlot(j: nat, k: nat)
    ensures j / 8 == k / 8 && j % 8 == k % 8 <==> j == k
  {}
}
