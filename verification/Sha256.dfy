/** The hash context of src/kernel/crypto.c (sha256_init, sha256_update, sha256_final), for any compression function. */
module Sha256 {
  import opened Bytes
  import opened Numbers

  // ---------------------------------------------------------------------------
  // The hash of a whole message
  // ---------------------------------------------------------------------------

  /** The compression function folded over the full 64-byte blocks of m; a shorter rest is left over. */
  ghost function Fold<H>(f: (H, seq<byte>) -> H, h: H, m: seq<byte>): H
    decreases |m|
  {
    if |m| < 64 then h else Fold(f, f(h, m[..64]), m[64..])
  }

  /** The bytes behind the last full block. */
  function Rest(m: seq<byte>): (r: seq<byte>)
    ensures |r| == |m| % 64
    decreases |m|
  {
    if |m| < 64 then m else Rest(m[64..])
  }

  function Zeros(k: nat): (z: seq<byte>)
    ensures |z| == k && forall i :: 0 <= i < k ==> z[i] == 0
  {
    if k == 0 then [] else Zeros(k - 1) + [0]
  }

  /** Zero bytes after the marker byte: the fewest that leave 8 bytes to a block boundary. */
  function Gap(n: nat): nat { (119 - n % 64) % 64 }

  /** Padding as in section 5.1.1 of FIPS 180-4; the length field is the low 64 bits of the bit count. */
  function Padded(m: seq<byte>): seq<byte> {
    m + [0x80] + Zeros(Gap(|m|)) + BigEndian((8 * |m|) % W64, 8)
  }

  /** Appending the marker and Gap(n) zero bytes leaves exactly 8 bytes to a block boundary, and no fewer would. */
  lemma GapOk(n: nat, k: nat)
    ensures Gap(n) < 64 && (n + 1 + Gap(n)) % 64 == 56 && (n + 1 + Gap(n) + 8) % 64 == 0
    ensures k <= Gap(n) ==> ((n + 1 + k) % 64 == 56 <==> k == Gap(n))
  {}

  lemma PaddedLength(m: seq<byte>)
    ensures |Padded(m)| % 64 == 0
  {
    GapOk(|m|, 0);
    PaddedSize(m);
  }

  lemma PaddedSize(m: seq<byte>)
    ensures |Padded(m)| == |m| + 1 + Gap(|m|) + 8
    ensures Padded(m)[..|m|] == m && Padded(m)[|Padded(m)| - 8..] == BigEndian((8 * |m|) % W64, 8)
  {
    Cut(m + [0x80], Zeros(Gap(|m|)), BigEndian((8 * |m|) % W64, 8));
    assert (m + [0x80])[..|m|] == m;
  }

  lemma Cut(a: seq<byte>, b: seq<byte>, c: seq<byte>)
    ensures |a + b + c| == |a| + |b| + |c| && (a + b + c)[|a| + |b|..] == c
    ensures forall k :: 0 <= k <= |a| ==> (a + b + c)[..k] == a[..k]
  {}

  lemma SmallMod(x: nat)
    requires x < W64
    ensures x % W64 == x
  {}

  /** Below 2^61 bytes the length field is the exact bit count. */
  lemma LengthField(m: seq<byte>)
    requires |m| < 0x2000_0000_0000_0000
    ensures FromBigEndian(Padded(m)[|Padded(m)| - 8..]) == 8 * |m|
  {
    var n := 8;
    Pow256At(n);
    SmallMod(8 * |m|);
    BigEndianValue(8 * |m|, n, W64);
    PaddedSize(m);
  }

  /** Different messages stay different after padding. */
  lemma PaddedInjective(m: seq<byte>, n: seq<byte>)
    requires |m| < 0x2000_0000_0000_0000 && |n| < 0x2000_0000_0000_0000 && Padded(m) == Padded(n)
    ensures m == n
  {
    LengthField(m);
    LengthField(n);
    PaddedSize(m);
    PaddedSize(n);
  }

  // ---------------------------------------------------------------------------
  // Appending
  // ---------------------------------------------------------------------------

  /** Short of a full block, appending changes the rest only. */
  lemma {:induction false} AppendShort<H>(f: (H, seq<byte>) -> H, h: H, m: seq<byte>, d: seq<byte>)
    requires |m| % 64 + |d| < 64
    ensures Fold(f, h, m + d) == Fold(f, h, m) && Rest(m + d) == Rest(m) + d
    decreases |m|
  {
    if |m| >= 64 {
      assert (m + d)[..64] == m[..64] && (m + d)[64..] == m[64..] + d;
      AppendShort(f, f(h, m[..64]), m[64..], d);
    }
  }

  /** Completing a block compresses the rest together with what was appended. */
  lemma {:induction false} AppendFull<H>(f: (H, seq<byte>) -> H, h: H, m: seq<byte>, d: seq<byte>)
    requires |m| % 64 + |d| == 64
    ensures Fold(f, h, m + d) == f(Fold(f, h, m), Rest(m) + d) && Rest(m + d) == []
    decreases |m|
  {
    if |m| >= 64 {
      assert (m + d)[..64] == m[..64] && (m + d)[64..] == m[64..] + d;
      AppendFull(f, f(h, m[..64]), m[64..], d);
    } else {
      assert (m + d)[..64] == m + d && (m + d)[64..] == [];
    }
  }

  /** State, buffer and counter stand for the bytes of m. */
  ghost predicate Absorbed<H>(f: (H, seq<byte>) -> H, h: H, m: seq<byte>, state: H, b: seq<byte>, count: nat) {
    |b| == 64 && count == |m| % W64 && state == Fold(f, h, m) && b[..|m| % 64] == Rest(m)
  }

  lemma Join(m: seq<byte>, data: seq<byte>, p: nat, q: nat)
    requires p <= q <= |data|
    ensures m + data[..p] + data[p..q] + data[q..] == m + data
  {
    assert data[..p] + data[p..q] + data[q..] == data;
    assert m + data[..p] + data[p..q] + data[q..] == m + (data[..p] + data[p..q] + data[q..]);
  }

  lemma CountAdd(n: nat, d: nat)
    ensures (n % W64 + d) % W64 == (n + d) % W64 && (n % W64) % 64 == n % 64
  {
    ModAddRight(W64, d, n);
    var q, r := n / W64, n % W64;
    LowRemainder(n, q, r, r / 64, r % 64);
  }

  lemma LowRemainder(n: nat, q: nat, r: nat, a: nat, b: nat)
    requires n == q * W64 + r && r == 64 * a + b && b < 64
    ensures n % 64 == b
  {
    DivUnique(n, 64, q * 0x400_0000_0000_0000 + a, b);
  }

  lemma BitCount(n: nat)
    ensures ((n % W64) * 8) % W64 == (8 * n) % W64
  {
    ModMulLeft(W64, n, 8);
  }

  lemma RemAdd(n: nat, d: nat)
    ensures n % 64 + d < 64 ==> (n + d) % 64 == n % 64 + d
    ensures n % 64 + d == 64 ==> (n + d) % 64 == 0
  {}

  lemma StepShort<H>(f: (H, seq<byte>) -> H, h: H, m: seq<byte>, state: H, b: seq<byte>, count: nat, d: seq<byte>,
      b': seq<byte>)
    requires Absorbed(f, h, m, state, b, count) && |m| % 64 + |d| < 64
    requires |b'| == 64 && b'[..|m| % 64 + |d|] == b[..|m| % 64] + d
    ensures Absorbed(f, h, m + d, state, b', (count + |d|) % W64)
  {
    AppendShort(f, h, m, d);
    CountAdd(|m|, |d|);
    RemAdd(|m|, |d|);
  }

  lemma StepFull<H>(f: (H, seq<byte>) -> H, h: H, m: seq<byte>, state: H, b: seq<byte>, count: nat, d: seq<byte>,
      b': seq<byte>)
    requires Absorbed(f, h, m, state, b, count) && |m| % 64 + |d| == 64 && |b'| == 64
    ensures Absorbed(f, h, m + d, f(state, b[..|m| % 64] + d), b', (count + |d|) % W64) && |m + d| % 64 == 0
  {
    AppendFull(f, h, m, d);
    CountAdd(|m|, |d|);
    RemAdd(|m|, |d|);
    assert b'[..0] == [];
  }

  // ---------------------------------------------------------------------------
  // The digest
  // ---------------------------------------------------------------------------

  /** The eight 32-bit words of the hash state. */
  type Words = s: seq<nat> | |s| == 8 && forall i :: 0 <= i < 8 ==> s[i] < W32 witness [0, 0, 0, 0, 0, 0, 0, 0]

  function Digest(ws: seq<nat>): (d: seq<byte>)
    ensures |d| == 4 * |ws|
  {
    if |ws| == 0 then [] else Digest(ws[..|ws| - 1]) + BigEndian(ws[|ws| - 1], 4)
  }

  lemma FourBytes(x: nat, n: nat)
    requires n == 4
    ensures BigEndian(x, n) == [x / 0x100_0000 % 256, x / 0x1_0000 % 256, x / 0x100 % 256, x % 256]
  {
    var x1, x2, x3 := x / 256, x / 256 / 256, x / 256 / 256 / 256;
    assert x2 == x / 0x1_0000 && x3 == x / 0x100_0000;
    assert BigEndian(x3, 1) == [x3 % 256];
    assert BigEndian(x2, 2) == [x3 % 256, x2 % 256];
    assert BigEndian(x1, 3) == [x3 % 256, x2 % 256, x1 % 256];
  }

  lemma Pow256Four(n: nat)
    requires n == 4
    ensures Pow256(n) == W32
  {
    assert Pow256(n - 3) == 0x100 && Pow256(n - 2) == 0x1_0000;
  }

  /** Every word of the state can be read back from the digest. */
  lemma {:induction false} DigestWord(ws: seq<nat>, i: nat)
    requires i < |ws| && ws[i] < W32
    ensures FromBigEndian(Digest(ws)[4 * i..4 * i + 4]) == ws[i]
    decreases |ws|
  {
    var n := |ws| - 1;
    var front := ws[..n];
    if i == n {
      Tail(Digest(front), BigEndian(ws[n], 4));
      WordValue(ws[n], 4);
    } else {
      DigestWord(front, i);
      Inner(Digest(front), BigEndian(ws[n], 4), 4 * i, 4 * i + 4);
    }
  }

  lemma WordValue(x: nat, n: nat)
    requires n == 4 && x < W32
    ensures FromBigEndian(BigEndian(x, n)) == x
  {
    Pow256Four(n);
    BigEndianValue(x, n, W32);
  }

  lemma Tail(a: seq<byte>, b: seq<byte>)
    ensures (a + b)[|a|..|a| + |b|] == b
  {}

  lemma Inner(a: seq<byte>, b: seq<byte>, i: nat, j: nat)
    requires i <= j <= |a|
    ensures (a + b)[i..j] == a[i..j]
  {}

  // ---------------------------------------------------------------------------
  // The context
  // ---------------------------------------------------------------------------

  class Context {
    const compress: (Words, seq<byte>) -> Words
    const initial: Words
    const buf: array<byte>
    var state: Words
    var count: nat
    ghost var message: seq<byte>

    ghost predicate Valid()
      reads this, buf
    {
      Absorbed(compress, initial, message, state, buf[..], count)
    }

    constructor (compress: (Words, seq<byte>) -> Words, initial: Words)
      ensures Valid() && message == [] && fresh(buf) && this.compress == compress && this.initial == initial
    {
      this.compress, this.initial := compress, initial;
      buf := new byte[64](_ => 0);
      state, count, message := initial, 0, [];
    }

    /** Copies bytes into the buffer from position `at`. */
    method Copy(at: nat, data: seq<byte>)
      requires buf.Length == 64 && at + |data| <= 64
      modifies buf
      ensures buf[..][..at + |data|] == old(buf[..])[..at] + data
      ensures data == [] ==> buf[..] == old(buf[..])
    {
      for i := 0 to |data|
        invariant i == 0 ==> buf[..] == old(buf[..])
        invariant buf[..][..at + i] == old(buf[..])[..at] + data[..i]
      {
        buf[at + i] := data[i];
        assert data[..i + 1] == data[..i] + [data[i]];
      }
      assert data[..|data|] == data;
    }

    /** Fills the buffer from the front of `data`; `n` bytes are used. */
    method Fill(data: seq<byte>) returns (n: nat)
      requires Valid() && |message| % 64 > 0
      modifies this`state, this`message, this`count, buf
      ensures Valid() && n <= |data| && message == old(message) + data[..n] && (n == |data| || |message| % 64 == 0)
    {
      CountAdd(|message|, 0);
      var rem := count % 64;
      n := 64 - rem;
      if |data| < n { n := |data|; }
      ghost var d, b := data[..n], buf[..];
      Copy(rem, data[..n]);
      if rem + n == 64 {
        assert buf[..] == b[..rem] + d by { assert buf[..][..64] == buf[..]; }
        StepFull(compress, initial, message, state, b, count, d, buf[..]);
        state := compress(state, buf[..]);
      } else {
        StepShort(compress, initial, message, state, b, count, d, buf[..]);
      }
      count := (count + n) % W64;
      message := message + d;
    }

    /** One whole block straight from the data. */
    method Whole(d: seq<byte>)
      requires Valid() && |message| % 64 == 0 && |d| == 64
      modifies this`state, this`message, this`count
      ensures Valid() && message == old(message) + d && |message| % 64 == 0
    {
      StepFull(compress, initial, message, state, buf[..], count, d, buf[..]);
      assert buf[..][..0] + d == d;
      state := compress(state, d);
      count := (count + 64) % W64;
      message := message + d;
    }

    /** The block loop of `sha256_update`, from position p on. */
    method Blocks(data: seq<byte>, p: nat) returns (q: nat)
      requires Valid() && p <= |data| && (p == |data| || |message| % 64 == 0)
      modifies this`state, this`message, this`count
      ensures Valid() && p <= q <= |data| < q + 64 && message == old(message) + data[p..q]
        && (q == |data| || |message| % 64 == 0)
    {
      q := p;
      while |data| - q >= 64
        invariant p <= q <= |data| && Valid() && message == old(message) + data[p..q]
          && (q == |data| || |message| % 64 == 0)
      {
        Whole(data[q..q + 64]);
        assert data[p..q] + data[q..q + 64] == data[p..q + 64];
        q := q + 64;
      }
    }

    /** `sha256_update`. */
    method Update(data: seq<byte>)
      requires Valid() && |data| < 0x1_0000_0000
      modifies this`state, this`message, this`count, buf
      ensures Valid() && message == old(message) + data
    {
      var rem := count % 64;
      CountAdd(|message|, 0);
      var p := 0;
      if rem != 0 { p := Fill(data); } else { assert message == message + data[..0]; }
      var q := Blocks(data, p);
      Leave(data[q..]);
      Join(old(message), data, p, q);
    }

    /** The copy loop at the end of `sha256_update`. */
    method Leave(d: seq<byte>)
      requires Valid() && |d| < 64 && (d == [] || |message| % 64 == 0)
      modifies this`message, this`count, buf
      ensures Valid() && message == old(message) + d
    {
      ghost var b := buf[..];
      Copy(0, d);
      assert buf[..][..|d|] == b[..0] + d == d;
      if d == [] {
        assert message + d == message;
        assert (count + 0) % W64 == count;
      } else {
        StepShort(compress, initial, message, state, b, count, d, buf[..]);
      }
      count := (count + |d|) % W64;
      message := message + d;
    }

    /** The padding loop of `sha256_final`; it ends after Gap(|m|) turns. */
    method PadZeros(ghost m: seq<byte>)
      requires Valid() && message == m + [0x80]
      modifies this`state, this`message, this`count, buf
      ensures Valid() && message == m + [0x80] + Zeros(Gap(|m|))
    {
      ghost var k := 0;
      GapOk(|m|, 0);
      CountAdd(|message|, 0);
      assert m + [0x80] + Zeros(0) == m + [0x80];
      while count % 64 != 56
        invariant Valid() && k <= Gap(|m|) && message == m + [0x80] + Zeros(k) && count % 64 == (|m| + 1 + k) % 64
        decreases Gap(|m|) - k
      {
        GapOk(|m|, k);
        Update([0]);
        assert m + [0x80] + Zeros(k) + [0] == m + [0x80] + (Zeros(k) + [0]);
        k := k + 1;
        CountAdd(|message|, 0);
      }
      GapOk(|m|, k);
    }

    /** `sha256_final`: the bytes of the fold over the padded message. */
    method Final() returns (digest: seq<byte>)
      requires Valid()
      modifies this`state, this`message, this`count, buf
      ensures Valid() && message == Padded(old(message))
        && digest == Digest(Fold(compress, initial, Padded(old(message))))
    {
      ghost var m := message;
      var bits := (count * 8) % W64;
      BitCount(|m|);
      Update([0x80]);
      PadZeros(m);
      var enc := Encode(bits, 8);
      Update(enc);
      digest := WriteWords(state);
    }

    /** The state, each word most significant byte first. */
    method WriteWords(w: Words) returns (digest: seq<byte>)
      ensures digest == Digest(w)
    {
      digest := [];
      for i := 0 to 8
        invariant digest == Digest(w[..i])
      {
        FourBytes(w[i], 4);
        assert w[..i + 1][..i] == w[..i];
        digest := digest + [w[i] / 0x100_0000 % 256, w[i] / 0x1_0000 % 256, w[i] / 0x100 % 256, w[i] % 256];
      }
      assert w[..8] == w;
    }

    /** The n length bytes, filled from the last one down. */
    method Encode(bits: nat, n: nat) returns (enc: seq<byte>)
      ensures enc == BigEndian(bits, n)
    {
      enc := [];
      var b := bits;
      var i := n;
      while i > 0
        invariant 0 <= i <= n && BigEndian(b, i) + enc == BigEndian(bits, n)
      {
        assert BigEndian(b, i) + enc == BigEndian(b / 256, i - 1) + ([b % 256] + enc);
        enc := [b % 256] + enc;
        b := b / 256;
        i := i - 1;
      }
    }
  }

  function Concat(chunks: seq<seq<byte>>): seq<byte> {
    if |chunks| == 0 then [] else Concat(chunks[..|chunks| - 1]) + chunks[|chunks| - 1]
  }

  /** Whatever the split into updates, the result is the digest of the fold over the padded concatenation. */
  method Hash(compress: (Words, seq<byte>) -> Words, initial: Words, chunks: seq<seq<byte>>) returns (digest: seq<byte>)
    requires forall i :: 0 <= i < |chunks| ==> |chunks[i]| < 0x1_0000_0000
    ensures digest == Digest(Fold(compress, initial, Padded(Concat(chunks))))
  {
    var c := new Context(compress, initial);
    assert chunks[..|chunks|] == chunks;
    for i := 0 to |chunks|
      invariant c.Valid() && c.message == Concat(chunks[..i]) && c.compress == compress && c.initial == initial
      invariant fresh(c) && fresh(c.buf)
    {
      c.Update(chunks[i]);
      assert chunks[..i + 1][..i] == chunks[..i];
    }
    digest := c.Final();
  }
}
