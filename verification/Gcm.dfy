/** AES-128-GCM of src/kernel/crypto.c as a mode of operation: for any block cipher and any hash of the cipher text. */
module Gcm {
  import opened Bytes

  type Block = s: seq<byte> | |s| == 16 witness [0, 0, 0, 0, 0, 0, 0, 0, 0, 0, 0, 0, 0, 0, 0, 0]
  type Iv = s: seq<byte> | |s| == 12 witness [0, 0, 0, 0, 0, 0, 0, 0, 0, 0, 0, 0]

  /** The block cipher under one key, and the hash over associated data and cipher text. */
  datatype Suite = Suite(cipher: Block -> Block, hash: (Block, seq<byte>, seq<byte>) -> Block)

  // ---------------------------------------------------------------------------
  // Exclusive or of bytes
  // ---------------------------------------------------------------------------

  lemma XorByteOk(x: byte, y: byte)
    ensures Xor(x, y) < 256
  {
    assert Exp2(8) == 256;
    XorBelow(x, y, 8);
  }

  function XorByte(x: byte, y: byte): byte {
    XorByteOk(x, y);
    Xor(x, y)
  }

  lemma XorTwice(x: byte, y: byte)
    ensures XorByte(XorByte(x, y), y) == x
  {
    XorSym(x, y);
    XorUndo(y, x);
    XorSym(XorByte(x, y), y);
  }

  lemma XorEqual(x: byte, y: byte)
    ensures XorByte(x, y) == 0 <==> x == y
  {
    XorZero(x);
    if XorByte(x, y) == 0 { XorUndo(x, y); }
  }

  function XorAll(a: seq<byte>, b: seq<byte>): (r: seq<byte>)
    requires |a| == |b|
    ensures |r| == |a|
  {
    seq(|a|, i requires 0 <= i < |a| => XorByte(a[i], b[i]))
  }

  lemma {:induction false} OrZeroIff(x: nat, y: nat)
    ensures Or(x, y) == 0 <==> x == 0 && y == 0
    decreases x + y
  {
    if x > 0 || y > 0 { OrZeroIff(x / 2, y / 2); }
  }

  // ---------------------------------------------------------------------------
  // Counter mode
  // ---------------------------------------------------------------------------

  function CounterBlock(iv: Iv, ctr: nat): Block { iv + BigEndian(ctr, 4) }

  /** Byte i of the key stream; the counter is 32 bits wide. */
  function KeyByte(k: Suite, iv: Iv, start: nat, i: nat): byte {
    k.cipher(CounterBlock(iv, (start + 1 + i / 16) % W32))[i % 16]
  }

  function Ctr(k: Suite, iv: Iv, start: nat, m: seq<byte>): (c: seq<byte>)
    ensures |c| == |m|
  {
    seq(|m|, i requires 0 <= i < |m| => XorByte(m[i], KeyByte(k, iv, start, i)))
  }

  /** Counter mode undoes itself. */
  lemma CtrTwice(k: Suite, iv: Iv, start: nat, m: seq<byte>)
    ensures Ctr(k, iv, start, Ctr(k, iv, start, m)) == m
  {
    var c := Ctr(k, iv, start, m);
    forall i | 0 <= i < |m| ensures Ctr(k, iv, start, c)[i] == m[i] { XorTwice(m[i], KeyByte(k, iv, start, i)); }
  }

  function TagOf(k: Suite, iv: Iv, aad: seq<byte>, c: seq<byte>): Block {
    var h := k.cipher([0, 0, 0, 0, 0, 0, 0, 0, 0, 0, 0, 0, 0, 0, 0, 0]);
    XorAll(k.hash(h, aad, c), k.cipher(iv + [0, 0, 0, 1]))
  }

  // ---------------------------------------------------------------------------
  // The blocks that are encrypted
  // ---------------------------------------------------------------------------

  /** The nonce in the first twelve bytes, the block number big-endian in the last four. */
  predicate Numbered(b: Block, iv: Iv, n: nat) { b[..12] == iv && FromBigEndian(b[12..]) == n }

  lemma CounterNumbered(iv: Iv, c: nat)
    requires c < W32
    ensures Numbered(CounterBlock(iv, c), iv, c)
  {
    var b, n := CounterBlock(iv, c), 4;
    assert b[..12] == iv && b[12..] == BigEndian(c, n);
    assert Pow256(n - 3) == 0x100 && Pow256(n - 2) == 0x1_0000 && Pow256(n - 1) == 0x100_0000;
    BigEndianValue(c, n, W32);
  }

  lemma {:induction false} FromBigEndianInjective(a: seq<byte>, b: seq<byte>)
    requires |a| == |b| && FromBigEndian(a) == FromBigEndian(b)
    ensures a == b
    decreases |a|
  {
    var n := |a| - 1;
    if |a| > 0 {
      FromBigEndianInjective(a[..n], b[..n]);
      assert a == a[..n] + [a[n]] && b == b[..n] + [b[n]];
    }
  }

  /** Nonce and number name one block. */
  lemma NumberedUnique(iv: Iv, b: Block, m: nat, c: Block, n: nat)
    requires Numbered(b, iv, m) && Numbered(c, iv, n)
    ensures b == c <==> m == n
  {
    if m == n {
      FromBigEndianInjective(b[12..], c[12..]);
      assert b == b[..12] + b[12..] && c == c[..12] + c[12..];
    }
  }

  /** Counter mode as the standard states it: byte i of a message within the length limit is masked with byte i mod 16
      of the encryption of block i / 16 + 2. */
  lemma MaskedBy(k: Suite, iv: Iv, m: seq<byte>, i: nat, b: Block)
    requires i < |m| && |m| <= 0xFFFF_FFF0 && Numbered(b, iv, i / 16 + 2)
    ensures Ctr(k, iv, 1, m)[i] == XorByte(m[i], k.cipher(b)[i % 16])
  {
    var n := i / 16 + 2;
    CounterNumbered(iv, n);
    NumberedUnique(iv, b, n, CounterBlock(iv, n), n);
    assert (1 + 1 + i / 16) % W32 == n;
  }

  /** So no two blocks of one message are masked alike, and none with the block of the tag, which has number 1. */
  lemma MasksDiffer(iv: Iv, i: nat, j: nat, b: Block, c: Block, j0: Block)
    requires Numbered(b, iv, i / 16 + 2) && Numbered(c, iv, j / 16 + 2) && Numbered(j0, iv, 1)
    ensures (b == c <==> i / 16 == j / 16) && b != j0 && c != j0
  {
    NumberedUnique(iv, b, i / 16 + 2, c, j / 16 + 2);
  }

  /** Behind the encryption of block 1 the tag is the hash of the cipher text under the encryption of zero. */
  lemma TagMask(k: Suite, iv: Iv, aad: seq<byte>, c: seq<byte>, zero: Block, j0: Block)
    requires Numbered(j0, iv, 1) && forall i :: 0 <= i < 16 ==> zero[i] == 0
    ensures XorAll(TagOf(k, iv, aad, c), k.cipher(j0)) == k.hash(k.cipher(zero), aad, c)
  {
    var first: Block := iv + [0, 0, 0, 1];
    CounterNumbered(iv, 1);
    assert first == CounterBlock(iv, 1) by { OneBytes(4); }
    NumberedUnique(iv, j0, 1, first, 1);
    assert zero == [0, 0, 0, 0, 0, 0, 0, 0, 0, 0, 0, 0, 0, 0, 0, 0];
    var h, e := k.hash(k.cipher(zero), aad, c), k.cipher(j0);
    assert TagOf(k, iv, aad, c) == XorAll(h, e);
    XorAllBack(h, e);
  }

  lemma OneBytes(n: nat)
    requires n == 4
    ensures BigEndian(1, n) == [0, 0, 0, 1]
  {
    assert BigEndian(1, n) == BigEndian(0, n - 1) + [1];
    assert BigEndian(0, n - 1) == BigEndian(0, n - 2) + [0] && BigEndian(0, n - 2) == BigEndian(0, n - 3) + [0];
    assert BigEndian(0, n - 3) == BigEndian(0, n - 4) + [0];
  }

  lemma XorAllBack(a: seq<byte>, b: seq<byte>)
    requires |a| == |b|
    ensures XorAll(XorAll(a, b), b) == a
  {
    forall i | 0 <= i < |a| ensures XorAll(XorAll(a, b), b)[i] == a[i] { XorTwice(a[i], b[i]); }
  }

  // ---------------------------------------------------------------------------
  // In place on a buffer
  // ---------------------------------------------------------------------------

  /** Exclusive-ors one key block onto the buffer from `done` on. */
  method XorBlock(key: Block, buf: array<byte>, done: nat, take: nat)
    requires take <= 16 && done + take <= buf.Length
    modifies buf
    ensures forall i :: 0 <= i < buf.Length ==>
      buf[i] == if done <= i < done + take then XorByte(old(buf[i]), key[i - done]) else old(buf[i])
  {
    for j := 0 to take
      invariant forall i :: 0 <= i < buf.Length ==>
        buf[i] == if done <= i < done + j then XorByte(old(buf[i]), key[i - done]) else old(buf[i])
    {
      XorByteOk(buf[done + j], key[j]);
      buf[done + j] := Xor(buf[done + j], key[j]);
    }
  }

  lemma SameBlock(k: Suite, iv: Iv, start: nat, n: nat, i: nat)
    requires 16 * n <= i < 16 * n + 16
    ensures KeyByte(k, iv, start, i) == k.cipher(CounterBlock(iv, (start + 1 + n) % W32))[i - 16 * n]
  {
    assert i / 16 == n && i % 16 == i - 16 * n;
  }

  lemma NextCounter(start: nat, n: nat)
    ensures ((start + n) % W32 + 1) % W32 == (start + 1 + n) % W32
  {}

  /** The first `done` bytes of the cipher text c have replaced those of `orig`. */
  predicate Partly(b: seq<byte>, orig: seq<byte>, c: seq<byte>, done: nat) {
    |c| <= |b| == |orig| && forall i :: 0 <= i < |b| ==> b[i] == if i < done && i < |c| then c[i] else orig[i]
  }

  /** One block: key stream block n onto bytes 16 n to 16 n + take. */
  method CtrBlock(k: Suite, iv: Iv, buf: array<byte>, ctr: nat, done: nat, take: nat, ghost start: nat, ghost n: nat,
      ghost orig: seq<byte>, ghost m: seq<byte>)
    requires done == 16 * n && ctr == (start + 1 + n) % W32 && done + take <= |m| && take <= 16 && m <= orig
    requires done + take == |m| || take == 16
    requires Partly(buf[..], orig, Ctr(k, iv, start, m), done)
    modifies buf
    ensures Partly(buf[..], orig, Ctr(k, iv, start, m), done + 16)
  {
    var key := k.cipher(CounterBlock(iv, ctr));
    forall i | done <= i < done + take ensures Ctr(k, iv, start, m)[i] == XorByte(buf[i], key[i - done]) {
      SameBlock(k, iv, start, n, i);
      assert buf[..][i] == orig[i] == m[i];
    }
    ghost var b := buf[..];
    XorBlock(key, buf, done, take);
    forall i | 0 <= i < buf.Length ensures buf[..][i] == if i < done + 16 && i < |m| then Ctr(k, iv, start, m)[i]
        else orig[i] {
      assert b[i] == if i < done && i < |m| then Ctr(k, iv, start, m)[i] else orig[i];
    }
  }

  /** `gcm_ctr`: encrypts or decrypts the first `len` bytes. */
  method GcmCtr(k: Suite, iv: Iv, buf: array<byte>, len: nat, start: nat)
    requires len <= buf.Length && len <= 0xFFFF_FFF0 && start < W32
    modifies buf
    ensures buf[..len] == Ctr(k, iv, start, old(buf[..len])) && buf[len..] == old(buf[len..])
  {
    ghost var orig, m, n := buf[..], buf[..len], 0;
    var ctr, done := start, 0;
    while done < len
      invariant done == 16 * n && done <= len + 15 && ctr == (start + n) % W32
      invariant Partly(buf[..], orig, Ctr(k, iv, start, m), done)
      decreases len + 16 - done
    {
      NextCounter(start, n);
      ctr := (ctr + 1) % W32;
      var take := len - done;
      if take > 16 { take := 16; }
      CtrBlock(k, iv, buf, ctr, done, take, start, n, orig, m);
      done := done + 16;
      n := n + 1;
    }
  }

  method ComputeTag(k: Suite, iv: Iv, aad: seq<byte>, c: seq<byte>) returns (tag: Block)
    ensures tag == TagOf(k, iv, aad, c)
  {
    var h := k.cipher([0, 0, 0, 0, 0, 0, 0, 0, 0, 0, 0, 0, 0, 0, 0, 0]);
    var s := k.hash(h, aad, c);
    var e := k.cipher(iv + [0, 0, 0, 1]);
    var t: seq<byte> := [];
    for i := 0 to 16
      invariant |t| == i && forall j :: 0 <= j < i ==> t[j] == XorByte(s[j], e[j])
    {
      XorByteOk(s[i], e[i]);
      var x: byte := Xor(s[i], e[i]);
      t := t + [x];
    }
    assert t == XorAll(s, e);
    tag := t;
  }

  /** `aes128gcm_encrypt`. */
  method GcmEncrypt(k: Suite, iv: Iv, aad: seq<byte>, buf: array<byte>, len: nat) returns (tag: Block)
    requires len <= buf.Length && len <= 0xFFFF_FFF0
    modifies buf
    ensures buf[..len] == Ctr(k, iv, 1, old(buf[..len])) && buf[len..] == old(buf[len..])
    ensures tag == TagOf(k, iv, aad, buf[..len])
  {
    GcmCtr(k, iv, buf, len, 1);
    tag := ComputeTag(k, iv, aad, buf[..len]);
  }

  /** The comparison without early exit: zero exactly for equal tags. */
  method TagDiff(tag: Block, expected: Block) returns (diff: nat)
    ensures diff == 0 <==> tag == expected
  {
    diff := 0;
    for i := 0 to 16
      invariant diff == 0 <==> forall j :: 0 <= j < i ==> tag[j] == expected[j]
    {
      XorEqual(tag[i], expected[i]);
      OrZeroIff(diff, Xor(tag[i], expected[i]));
      diff := Or(diff, Xor(tag[i], expected[i]));
    }
  }

  /** `aes128gcm_decrypt`: the buffer changes only if the tag is right. */
  method GcmDecrypt(k: Suite, iv: Iv, aad: seq<byte>, buf: array<byte>, len: nat, expected: Block) returns (ok: bool)
    requires len <= buf.Length && len <= 0xFFFF_FFF0
    modifies buf
    ensures ok <==> expected == TagOf(k, iv, aad, old(buf[..len]))
    ensures buf[..len] == if ok then Ctr(k, iv, 1, old(buf[..len])) else old(buf[..len])
    ensures buf[len..] == old(buf[len..])
  {
    var tag := ComputeTag(k, iv, aad, buf[..len]);
    var diff := TagDiff(tag, expected);
    ok := diff == 0;
    if ok { GcmCtr(k, iv, buf, len, 1); }
  }
}
