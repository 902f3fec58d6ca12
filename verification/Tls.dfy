/** The TLS 1.3 record layer of src/kernel/tls13.c: sealing, opening, and the receive ring. */
module Tls {
  import opened Bytes
  import opened Gcm
  import Ring

  const REC_BUF: nat := 16384
  const APP_DATA: byte := 0x17
  const ALERT: byte := 0x15

  // ---------------------------------------------------------------------------
  // Nonces
  // ---------------------------------------------------------------------------

  /** The per-record nonce: the sequence number, in 8 bytes, onto the end of the IV (section 5.3 of RFC 8446). */
  function NonceOf(iv: Iv, n: nat): Iv { iv[..4] + XorAll(iv[4..], BigEndian(n, 8)) }

  lemma XorAllTwice(a: seq<byte>, b: seq<byte>)
    requires |a| == |b|
    ensures XorAll(a, XorAll(a, b)) == b
  {
    forall i | 0 <= i < |a| ensures XorAll(a, XorAll(a, b))[i] == b[i] { XorUndo(a[i], b[i]); }
  }

  lemma BigEndianInjective(m: nat, n: nat)
    requires m < W64 && n < W64 && BigEndian(m, 8) == BigEndian(n, 8)
    ensures m == n
  {
    var k := 8;
    Pow256At(k);
    BigEndianValue(m, k, W64);
    BigEndianValue(n, k, W64);
  }

  /** Different records under one key never share a nonce. */
  lemma NoncesDistinct(iv: Iv, m: nat, n: nat)
    requires m < W64 && n < W64 && NonceOf(iv, m) == NonceOf(iv, n)
    ensures m == n
  {
    var a, b := XorAll(iv[4..], BigEndian(m, 8)), XorAll(iv[4..], BigEndian(n, 8));
    assert a == NonceOf(iv, m)[4..] && b == NonceOf(iv, n)[4..];
    XorAllTwice(iv[4..], BigEndian(m, 8));
    XorAllTwice(iv[4..], BigEndian(n, 8));
    BigEndianInjective(m, n);
  }

  lemma {:induction false} LeadingZeros(z: seq<byte>, s: seq<byte>)
    requires forall i :: 0 <= i < |z| ==> z[i] == 0
    ensures FromBigEndian(z + s) == FromBigEndian(s)
    decreases |z| + |s|
  {
    var w := z + s;
    if |s| > 0 {
      assert w[..|w| - 1] == z + s[..|s| - 1];
      LeadingZeros(z, s[..|s| - 1]);
    } else if |z| > 0 {
      assert w[..|w| - 1] == z[..|z| - 1] + s;
      LeadingZeros(z[..|z| - 1], s);
    }
  }

  /** Without the IV the twelve bytes of the nonce read big-endian are the sequence number. */
  lemma NonceNumber(iv: Iv, n: nat)
    requires n < W64
    ensures FromBigEndian(XorAll(iv, NonceOf(iv, n))) == n
  {
    var a, k := XorAll(iv, NonceOf(iv, n)), 8;
    forall i | 0 <= i < 4 ensures a[i] == 0 { XorEqual(iv[i], iv[i]); }
    XorAllTwice(iv[4..], BigEndian(n, 8));
    forall i | 0 <= i < 8 ensures a[4..][i] == BigEndian(n, 8)[i] {
      assert XorAll(iv[4..], XorAll(iv[4..], BigEndian(n, 8)))[i] == BigEndian(n, 8)[i];
    }
    assert a[4..] == BigEndian(n, 8) && a == a[..4] + a[4..];
    LeadingZeros(a[..4], a[4..]);
    Pow256At(k);
    BigEndianValue(n, k, W64);
  }

  // ---------------------------------------------------------------------------
  // One record
  // ---------------------------------------------------------------------------

  function Header(clen: nat): (h: seq<byte>)
    ensures |h| == 5
  {
    [0x17, 0x03, 0x03] + BigEndian(clen, 2)
  }

  /** A record on the wire: header, encrypted data and content type, tag. */
  function Sealed(k: Suite, iv: Iv, n: nat, ct: byte, data: seq<byte>): seq<byte> {
    var c := Ctr(k, NonceOf(iv, n), 1, data + [ct]);
    Header(|data| + 17) + (c + TagOf(k, NonceOf(iv, n), Header(|data| + 17), c))
  }

  datatype Opened = Failed | Opened(ct: byte, data: seq<byte>)

  /** The content type is the last byte that is not zero. */
  function Inner(p: seq<byte>): Opened {
    if |p| == 0 then Failed
    else if p[|p| - 1] != 0 then Opened(p[|p| - 1], p[..|p| - 1])
    else Inner(p[..|p| - 1])
  }

  /** The last 16 bytes are the tag of the others. */
  predicate Authentic(k: Suite, iv: Iv, n: nat, body: seq<byte>)
    requires |body| >= 16
  {
    body[|body| - 16..] == TagOf(k, NonceOf(iv, n), Header(|body|), body[..|body| - 16])
  }

  function Decrypted(k: Suite, iv: Iv, n: nat, body: seq<byte>): seq<byte>
    requires |body| >= 16
  {
    Ctr(k, NonceOf(iv, n), 1, body[..|body| - 16])
  }

  lemma BodyParts(k: Suite, iv: Iv, n: nat, body: seq<byte>, c: seq<byte>, tag: seq<byte>)
    requires |body| >= 16 && c == body[..|body| - 16] && tag == body[|body| - 16..]
    ensures Authentic(k, iv, n, body) <==> tag == TagOf(k, NonceOf(iv, n), Header(|body|), c)
    ensures Decrypted(k, iv, n, body) == Ctr(k, NonceOf(iv, n), 1, c)
  {}

  function OpenRecord(k: Suite, iv: Iv, n: nat, body: seq<byte>): Opened {
    if |body| < 16 || !Authentic(k, iv, n, body) then Failed else Inner(Decrypted(k, iv, n, body))
  }

  /** A body too short for a tag does not use up a sequence number. */
  function NextSeq(n: nat, body: seq<byte>): nat { if |body| < 16 then n else Following(n) }

  /** The next sequence number, in 64 bits. */
  function Following(n: nat): (r: nat)
    ensures r < W64
  {
    (n + 1) % W64
  }

  datatype Read = NoRecord(rest: seq<byte>) | Record(kind: byte, body: seq<byte>, rest: seq<byte>)

  function Len16(hi: byte, lo: byte): nat { hi as nat * 256 + lo as nat }

  /** The next record of the bytes still to arrive; what a failed read has consumed is gone. */
  function ReadFrom(wire: seq<byte>): (r: Read)
    ensures r.NoRecord? ==> |r.rest| < |wire| || wire == [] == r.rest
    ensures r.Record? ==> |r.rest| < |wire| && |r.body| <= REC_BUF
  {
    if |wire| < 5 then NoRecord([])
    else
      var rlen := Len16(wire[3], wire[4]);
      if rlen > REC_BUF then NoRecord(wire[5..])
      else if |wire| < 5 + rlen then NoRecord([])
      else Record(wire[0], wire[5..5 + rlen], wire[5 + rlen..])
  }

  lemma Header16(n: nat)
    requires n < 65536
    ensures Header(n)[0] == 0x17 && Len16(Header(n)[3], Header(n)[4]) == n
  {
    assert BigEndian(n, 2) == BigEndian(n / 256, 1) + [n % 256];
    assert BigEndian(n / 256, 1) == BigEndian(n / 256 / 256, 0) + [n / 256 % 256];
  }

  lemma OpenSealed(k: Suite, iv: Iv, n: nat, ct: byte, data: seq<byte>)
    requires |data| < REC_BUF
    ensures var s := Sealed(k, iv, n, ct, data);
            |s| == |data| + 22 && s[..5] == Header(|data| + 17) && OpenRecord(k, iv, n, s[5..]) == Inner(data + [ct])
  {
    var s := Sealed(k, iv, n, ct, data);
    var c := Ctr(k, NonceOf(iv, n), 1, data + [ct]);
    var tag := TagOf(k, NonceOf(iv, n), Header(|data| + 17), c);
    assert s[5..] == c + tag && s[..5] == Header(|data| + 17);
    assert (c + tag)[..|data| + 1] == c && (c + tag)[|data| + 1..] == tag;
    CtrTwice(k, NonceOf(iv, n), 1, data + [ct]);
  }

  /** What a record looks like on the wire: type 23, version 3.3, the length of what follows, the data and then the type
      under counter mode, and a tag over the header and the cipher text. */
  lemma WireFormat(k: Suite, iv: Iv, n: nat, ct: byte, data: seq<byte>, i: nat, b: Block, zero: Block, j0: Block)
    requires |data| < REC_BUF && i <= |data| && Numbered(b, NonceOf(iv, n), i / 16 + 2)
    requires Numbered(j0, NonceOf(iv, n), 1) && forall j :: 0 <= j < 16 ==> zero[j] == 0
    ensures var s := Sealed(k, iv, n, ct, data);
            && |s| == |data| + 22 && s[0] == 23 && s[1] == 3 && s[2] == 3 && Len16(s[3], s[4]) == |s| - 5
            && s[5 + i] == XorByte(if i < |data| then data[i] else ct, k.cipher(b)[i % 16])
            && XorAll(s[|s| - 16..], k.cipher(j0)) == k.hash(k.cipher(zero), s[..5], s[5..|s| - 16])
  {
    var s := Sealed(k, iv, n, ct, data);
    var h, p := Header(|data| + 17), data + [ct];
    var c := Ctr(k, NonceOf(iv, n), 1, p);
    var tag := TagOf(k, NonceOf(iv, n), h, c);
    Header16(|data| + 17);
    assert s == h + (c + tag) && s[..5] == h && s[5..|s| - 16] == c && s[|s| - 16..] == tag;
    MaskedBy(k, NonceOf(iv, n), p, i, b);
    assert s[5 + i] == c[i];
    TagMask(k, NonceOf(iv, n), h, c, zero, j0);
  }

  lemma ReadParts(h: seq<byte>, body: seq<byte>, rest: seq<byte>)
    requires |h| == 5 && Len16(h[3], h[4]) == |body|
    ensures ReadFrom(h + body + rest) == if |body| <= REC_BUF then Record(h[0], body, rest) else NoRecord(body + rest)
  {
    var w := h + body + rest;
    assert w[0] == h[0] && w[3] == h[3] && w[4] == h[4];
    assert w[5..] == body + rest && w[5..5 + |body|] == body && w[5 + |body|..] == rest;
  }

  lemma ReadSealed(k: Suite, iv: Iv, n: nat, ct: byte, data: seq<byte>, rest: seq<byte>)
    requires |data| < REC_BUF
    ensures var s := Sealed(k, iv, n, ct, data);
            ReadFrom(s + rest) == if |data| + 17 <= REC_BUF then Record(APP_DATA, s[5..], rest)
                else NoRecord(s[5..] + rest)
  {
    var s := Sealed(k, iv, n, ct, data);
    OpenSealed(k, iv, n, ct, data);
    Header16(|data| + 17);
    assert s == s[..5] + s[5..];
    ReadParts(s[..5], s[5..], rest);
  }

  lemma {:induction false} InnerNonzero(p: seq<byte>)
    ensures Inner(p) == Failed || Inner(p).ct != 0
  {
    if |p| > 0 { InnerNonzero(p[..|p| - 1]); }
  }

  lemma InnerLast(ct: byte, data: seq<byte>)
    ensures ct != 0 ==> Inner(data + [ct]) == Opened(ct, data)
    ensures ct == 0 ==> Inner(data + [ct]) == Inner(data)
  {
    assert (data + [ct])[..|data|] == data;
  }

  /** What one record read from the wire gives. */
  function Received(k: Suite, iv: Iv, n: nat, wire: seq<byte>): Opened {
    match ReadFrom(wire)
    case NoRecord(_) => Failed
    case Record(_, body, _) => OpenRecord(k, iv, n, body)
  }

  /** A record the sender accepts comes back with its type and bytes exactly when the type is not zero and
      there are at most 16367 bytes: the sender's own limit is 16383. */
  lemma RecordRoundTrip(k: Suite, iv: Iv, n: nat, ct: byte, data: seq<byte>, rest: seq<byte>)
    requires |data| + 1 <= REC_BUF
    ensures Received(k, iv, n, Sealed(k, iv, n, ct, data) + rest) == Opened(ct, data) <==> ct != 0 && |data| <= 16367
  {
    ReadSealed(k, iv, n, ct, data, rest);
    OpenSealed(k, iv, n, ct, data);
    InnerLast(ct, data);
    InnerNonzero(data + [ct]);
  }

  /** The smallest record that is sent and not received: 16368 bytes. */
  lemma LongRecordLost(k: Suite, iv: Iv, n: nat, data: seq<byte>)
    requires |data| == 16368
    ensures Received(k, iv, n, Sealed(k, iv, n, APP_DATA, data)) == Failed
  {
    ReadSealed(k, iv, n, APP_DATA, data, []);
    assert Sealed(k, iv, n, APP_DATA, data) + [] == Sealed(k, iv, n, APP_DATA, data);
  }

  // ---------------------------------------------------------------------------
  // Streams of records
  // ---------------------------------------------------------------------------

  /** A content type and its bytes. */
  datatype Plain = Plain(ct: byte, data: seq<byte>)

  predicate Sendable(r: Plain) { r.ct != 0 && |r.data| <= 16367 }

  /** The wire bytes of records sent in order. */
  function SealedAll(k: Suite, iv: Iv, n: nat, rs: seq<Plain>): seq<byte>
    decreases |rs|
  {
    if |rs| == 0 then [] else Sealed(k, iv, n, rs[0].ct, rs[0].data) + SealedAll(k, iv, Following(n), rs[1..])
  }

  function Payload(rs: seq<Plain>): seq<byte> {
    if |rs| == 0 then [] else (if rs[0].ct == APP_DATA then rs[0].data else []) + Payload(rs[1..])
  }

  /** All application bytes a receiver will ever get out of the bytes still to arrive. */
  function AppData(k: Suite, iv: Iv, n: nat, wire: seq<byte>): seq<byte>
    decreases |wire|
  {
    if wire == [] then []
    else match ReadFrom(wire)
      case NoRecord(rest) => AppData(k, iv, n, rest)
      case Record(kind, body, rest) =>
        if kind != APP_DATA then AppData(k, iv, n, rest)
        else Piece(OpenRecord(k, iv, n, body)) + AppData(k, iv, NextSeq(n, body), rest)
  }

  function Piece(o: Opened): seq<byte> { if o.Opened? && o.ct == APP_DATA then o.data else [] }

  /** Sender and receiver streams undo each other, whatever the record sizes and types. */
  lemma {:induction false} StreamRoundTrip(k: Suite, iv: Iv, n: nat, rs: seq<Plain>)
    requires forall r :: r in rs ==> Sendable(r)
    ensures AppData(k, iv, n, SealedAll(k, iv, n, rs)) == Payload(rs)
    decreases |rs|
  {
    if |rs| > 0 {
      var r, rest := rs[0], SealedAll(k, iv, Following(n), rs[1..]);
      assert Sendable(r);
      ReadSealed(k, iv, n, r.ct, r.data, rest);
      OpenSealed(k, iv, n, r.ct, r.data);
      InnerLast(r.ct, r.data);
      StreamRoundTrip(k, iv, Following(n), rs[1..]);
    }
  }

  /** Every record opened in order, with its type, up to the first that does not open. */
  function OpenedAll(k: Suite, iv: Iv, n: nat, wire: seq<byte>): seq<Plain>
    decreases |wire|
  {
    if wire == [] then []
    else match ReadFrom(wire)
      case NoRecord(rest) => []
      case Record(_, body, rest) =>
        match OpenRecord(k, iv, n, body)
        case Failed => []
        case Opened(ct, data) => [Plain(ct, data)] + OpenedAll(k, iv, NextSeq(n, body), rest)
  }

  /** The same records, types and bytes, in the same order. */
  lemma {:induction false} RecordsRoundTrip(k: Suite, iv: Iv, n: nat, rs: seq<Plain>)
    requires forall r :: r in rs ==> Sendable(r)
    ensures OpenedAll(k, iv, n, SealedAll(k, iv, n, rs)) == rs
    decreases |rs|
  {
    if |rs| > 0 {
      var r, rest := rs[0], SealedAll(k, iv, Following(n), rs[1..]);
      assert Sendable(r);
      ReadSealed(k, iv, n, r.ct, r.data, rest);
      OpenSealed(k, iv, n, r.ct, r.data);
      InnerLast(r.ct, r.data);
      RecordsRoundTrip(k, iv, Following(n), rs[1..]);
      assert rs == [r] + rs[1..];
    }
  }

  // ---------------------------------------------------------------------------
  // Sending
  // ---------------------------------------------------------------------------

  class Sender {
    const suite: Suite
    const iv: Iv
    const enc: array<byte>
    var seqNo: nat
    var sent: seq<byte>

    ghost predicate Valid()
      reads this
    {
      enc.Length == REC_BUF + 32 && seqNo < W64
    }

    constructor (suite: Suite, iv: Iv)
      ensures Valid() && fresh(enc) && seqNo == 0 && sent == [] && this.suite == suite && this.iv == iv
    {
      this.suite, this.iv := suite, iv;
      enc := new byte[REC_BUF + 32](_ => 0);
      seqNo, sent := 0, [];
    }

    /** `tmemcpy` into the encryption buffer. */
    method Copy(data: seq<byte>)
      requires Valid() && |data| <= REC_BUF
      modifies enc
      ensures enc[..|data|] == data
    {
      for i := 0 to |data|
        invariant enc[..i] == data[..i]
      {
        enc[i] := data[i];
      }
    }

    /** `send_encrypted`. */
    method SendEncrypted(ct: byte, data: seq<byte>) returns (ok: bool)
      requires Valid() && |data| < 0xFFFF_FFFF
      modifies this`seqNo, this`sent, enc
      ensures Valid() && ok == (|data| + 1 <= REC_BUF)
      ensures !ok ==> sent == old(sent) && seqNo == old(seqNo)
      ensures ok ==> sent == old(sent) + Sealed(suite, iv, old(seqNo), ct, data) && seqNo == Following(old(seqNo))
    {
      if |data| + 1 > REC_BUF { return false; }
      Copy(data);
      enc[|data|] := ct;
      var ptlen := |data| + 1;
      var clen := ptlen + 16;
      assert enc[..ptlen] == data + [ct];
      var nonce := MakeNonce(iv, seqNo);
      seqNo := Following(seqNo);
      var tag := GcmEncrypt(suite, nonce, Header(clen), enc, ptlen);
      sent := sent + (Header(clen) + (enc[..ptlen] + tag));
      ok := true;
    }
  }

  /** `make_nonce`. */
  method MakeNonce(iv: Iv, n: nat) returns (nonce: Iv)
    requires n < W64
    ensures nonce == NonceOf(iv, n)
  {
    var e := BigEndian(n, 8);
    var s: seq<byte> := iv;
    for i := 0 to 8
      invariant |s| == 12 && forall j :: 0 <= j < 12 ==> s[j] == if 4 <= j < 4 + i then XorByte(iv[j], e[j - 4])
        else iv[j]
    {
      XorByteOk(s[4 + i], e[i]);
      var x: byte := Xor(s[4 + i], e[i]);
      s := s[4 + i := x];
    }
    assert s == NonceOf(iv, n);
    nonce := s;
  }

  // ---------------------------------------------------------------------------
  // Receiving
  // ---------------------------------------------------------------------------

  lemma Assoc(a: seq<byte>, b: seq<byte>, c: seq<byte>)
    ensures a + (b + c) == (a + b) + c
  {}

  /** What was pending is now delivered or still pending, in order. */
  predicate Delivers(out: seq<byte>, pending: seq<byte>, before: seq<byte>) { out + pending == before }

  lemma DeliversSplit(d: seq<byte>, out: seq<byte>, kept: seq<byte>, rest: seq<byte>, before: seq<byte>)
    requires d == out + kept && before == [] + (d + rest)
    ensures Delivers(out, kept + rest, before)
  {
    Assoc(out, kept, rest);
  }

  class Receiver {
    const suite: Suite
    const iv: Iv
    const rec: array<byte>
    const ring: Ring.Buffer
    var seqNo: nat
    var wire: seq<byte>

    ghost predicate Valid()
      reads this, ring
    {
      rec.Length == REC_BUF && ring.Valid() && ring.data.Length == REC_BUF && ring.data != rec && seqNo < W64
    }

    /** Everything still to be delivered: what the ring holds, then what will arrive. */
    ghost function Pending(): seq<byte>
      requires Valid()
      reads this, ring, ring.data
    {
      ring.Contents() + AppData(suite, iv, seqNo, wire)
    }

    constructor (suite: Suite, iv: Iv, wire: seq<byte>)
      ensures Valid() && fresh(rec) && fresh(ring) && fresh(ring.data) && seqNo == 0 && this.wire == wire
      ensures this.suite == suite && this.iv == iv && Pending() == AppData(suite, iv, 0, wire)
    {
      this.suite, this.iv, this.wire, seqNo := suite, iv, wire, 0;
      rec := new byte[REC_BUF](_ => 0);
      ring := new Ring.Buffer(REC_BUF);
    }

    /** `tcp_read_exact`: fails, with what has arrived consumed, when the bytes never come. */
    method ReadExact(n: nat) returns (ok: bool, got: seq<byte>)
      modifies this`wire
      ensures ok == (n <= |old(wire)|)
      ensures ok ==> got == old(wire)[..n] && wire == old(wire)[n..]
      ensures !ok ==> wire == []
    {
      ok := n <= |wire|;
      if ok { got, wire := wire[..n], wire[n..]; } else { got, wire := [], []; }
    }

    method Fill(data: seq<byte>)
      requires |data| <= rec.Length
      modifies rec
      ensures rec[..|data|] == data
    {
      for i := 0 to |data|
        invariant rec[..i] == data[..i]
      {
        rec[i] := data[i];
      }
    }

    /** `read_record`. */
    method ReadRecord() returns (ok: bool, kind: byte, len: nat)
      requires Valid()
      modifies this`wire, rec
      ensures Valid() && wire == ReadFrom(old(wire)).rest
      ensures ok == ReadFrom(old(wire)).Record?
      ensures ok ==> var r := ReadFrom(old(wire)); kind == r.kind && len == |r.body| && rec[..len] == r.body
    {
      ghost var w := wire;
      kind, len := 0, 0;
      var hdr, got;
      ok, hdr := ReadExact(5);
      if !ok { return; }
      var rlen := Len16(hdr[3], hdr[4]);
      if rlen > REC_BUF { return false, 0, 0; }
      ok, got := ReadExact(rlen);
      if !ok { return; }
      Fill(got);
      kind, len := hdr[0], rlen;
      assert got == w[5..5 + rlen] && wire == w[5 + rlen..];
    }

    /** Searches the content type from the end; -1 if every byte is zero. */
    method FindType(len: nat) returns (ict: int, dlen: nat)
      requires len <= rec.Length
      ensures ict < 0 <==> Inner(rec[..len]) == Failed
      ensures ict >= 0 ==> dlen < len && ict == rec[dlen] && Inner(rec[..len]) == Opened(rec[dlen], rec[..dlen])
    {
      ict, dlen := -1, len;
      var i := len;
      while i > 0
        invariant 0 <= i <= len && Inner(rec[..len]) == Inner(rec[..i]) && ict == -1
      {
        i := i - 1;
        assert rec[..i + 1][..i] == rec[..i];
        if rec[i] != 0 { return rec[i], i; }
      }
    }

    /** `decrypt_record` on the first `len` bytes of the record buffer. */
    method DecryptRecord(len: nat) returns (ict: int, dlen: nat)
      requires Valid() && len <= REC_BUF
      modifies this`seqNo, rec
      ensures Valid() && seqNo == NextSeq(old(seqNo), old(rec[..len]))
      ensures ict < 0 <==> OpenRecord(suite, iv, old(seqNo), old(rec[..len])) == Failed
      ensures ict >= 0 ==> 16 <= len && dlen < len - 16 && ict < 256
                           && OpenRecord(suite, iv, old(seqNo), old(rec[..len])) == Opened(ict, rec[..dlen])
    {
      ict, dlen := -1, 0;
      if len < 16 { return; }
      var ok := CheckAndDecrypt(len);
      if !ok { return; }
      ict, dlen := FindType(len - 16);
    }

    /** The tag check and decryption inside `decrypt_record`. */
    method CheckAndDecrypt(len: nat) returns (ok: bool)
      requires Valid() && 16 <= len <= REC_BUF
      modifies this`seqNo, rec
      ensures Valid() && seqNo == Following(old(seqNo))
      ensures ok <==> Authentic(suite, iv, old(seqNo), old(rec[..len]))
      ensures ok ==> rec[..len - 16] == Decrypted(suite, iv, old(seqNo), old(rec[..len]))
    {
      ghost var body, n := rec[..len], seqNo;
      var ptlen := len - 16;
      var tag: Block := rec[ptlen..len];
      BodyParts(suite, iv, n, body, rec[..ptlen], tag);
      var nonce := MakeNonce(iv, seqNo);
      seqNo := Following(seqNo);
      ok := GcmDecrypt(suite, nonce, Header(len), rec, ptlen, tag);
    }

    /** Keeps what the caller has no room for. */
    method Store(from: nat, to: nat)
      requires Valid() && from <= to <= REC_BUF && to - from < REC_BUF && ring.Contents() == []
      modifies ring, ring.data
      ensures Valid() && ring.Contents() == rec[from..to]
    {
      var i := from;
      while i < to
        invariant from <= i <= to && Valid() && ring.Contents() == rec[from..i]
        invariant rec[..] == old(rec[..])
      {
        ring.Put(rec[i]);
        assert rec[from..i + 1] == rec[from..i] + [rec[i]];
        i := i + 1;
      }
    }

    /** Reads and opens one record: application bytes in the record buffer, or nothing, or the end of this call. */
    method NextPlain() returns (found: bool, stop: bool, dlen: nat)
      requires Valid()
      modifies this`seqNo, this`wire, rec
      ensures Valid() && dlen < REC_BUF && ring.Contents() == old(ring.Contents())
      ensures AppData(suite, iv, old(seqNo), old(wire)) == (if found then rec[..dlen] else [])
        + AppData(suite, iv, seqNo, wire)
      ensures |wire| < |old(wire)| || wire == []
    {
      found, stop, dlen := false, false, 0;
      var ok, kind, len := ReadRecord();
      if !ok { return false, true, 0; }
      if kind != APP_DATA { return false, kind == ALERT, 0; }
      var ict, d := DecryptRecord(len);
      if ict < 0 { return; }
      if ict == ALERT { return false, true, 0; }
      if ict == APP_DATA { return true, true, d; }
    }

    /** One pass of `tls13_recv`: done, with up to maxlen bytes, or skipped. */
    method RecvRecord(maxlen: nat) returns (done: bool, out: seq<byte>)
      requires Valid() && ring.Contents() == []
      modifies this`seqNo, this`wire, rec, ring, ring.data
      ensures Valid() && |out| <= maxlen && Delivers(out, Pending(), old(Pending()))
      ensures !done ==> out == [] && ring.Contents() == []
      ensures |wire| < |old(wire)| || wire == []
    {
      out := [];
      ghost var before := Pending();
      var found, stop, dlen := NextPlain();
      done := stop;
      if !found { return; }
      done := true;
      var take := if dlen < maxlen then dlen else maxlen;
      out := rec[..take];
      Store(take, dlen);
      DeliversSplit(rec[..dlen], out, rec[take..dlen], AppData(suite, iv, seqNo, wire), before);
    }

    /** `tls13_recv`: no application byte is lost, repeated or reordered, whatever arrives. */
    method Recv(maxlen: nat) returns (out: seq<byte>)
      requires Valid()
      modifies this`seqNo, this`wire, rec, ring, ring.data
      ensures Valid() && |out| <= maxlen && Delivers(out, Pending(), old(Pending()))
      ensures old(ring.Contents()) != [] ==> wire == old(wire) && old(ring.Contents()) == out + ring.Contents()
      ensures old(ring.Contents()) != [] ==> |out| == if maxlen < |old(ring.Contents())| then maxlen
        else |old(ring.Contents())|
      ensures old(ring.Contents()) == [] ==> |wire| < |old(wire)| || wire == []
    {
      if ring.first != ring.last {
        out := ring.Take(maxlen);
        return;
      }
      var done;
      done, out := RecvRecord(maxlen);
      var pass := 1;
      while pass < 10 && !done
        invariant Valid() && |out| <= maxlen && Delivers(out, Pending(), old(Pending()))
        invariant !done ==> out == [] && ring.Contents() == []
        invariant |wire| < |old(wire)| || wire == []
      {
        done, out := RecvRecord(maxlen);
        pass := pass + 1;
      }
    }
  }

  // ---------------------------------------------------------------------------
  // Both ends
  // ---------------------------------------------------------------------------

  /** The first i records have been sent. */
  predicate SentTo(k: Suite, iv: Iv, rs: seq<Plain>, i: nat, sent: seq<byte>, n: nat) {
    i <= |rs| && sent + SealedAll(k, iv, n, rs[i..]) == SealedAll(k, iv, 0, rs)
  }

  lemma SentStep(k: Suite, iv: Iv, rs: seq<Plain>, i: nat, sent: seq<byte>, n: nat, sent': seq<byte>, n': nat)
    requires i < |rs| && SentTo(k, iv, rs, i, sent, n)
    requires sent' == sent + Sealed(k, iv, n, rs[i].ct, rs[i].data) && n' == Following(n)
    ensures SentTo(k, iv, rs, i + 1, sent', n')
  {
    assert rs[i..][0] == rs[i] && rs[i..][1..] == rs[i + 1..];
    Assoc(sent, Sealed(k, iv, n, rs[i].ct, rs[i].data), SealedAll(k, iv, Following(n), rs[i + 1..]));
  }

  lemma SentAll(k: Suite, iv: Iv, rs: seq<Plain>, i: nat, sent: seq<byte>, n: nat)
    ensures SentTo(k, iv, rs, 0, [], 0)
    ensures i == |rs| && SentTo(k, iv, rs, i, sent, n) ==> sent == SealedAll(k, iv, 0, rs)
  {
    assert rs[0..] == rs && [] + SealedAll(k, iv, 0, rs) == SealedAll(k, iv, 0, rs);
    if i == |rs| { assert rs[i..] == [] && sent + [] == sent; }
  }

  /** Sends every record in order. */
  method SendAll(suite: Suite, iv: Iv, rs: seq<Plain>) returns (wire: seq<byte>)
    requires forall r :: r in rs ==> Sendable(r)
    ensures wire == SealedAll(suite, iv, 0, rs)
  {
    var s := new Sender(suite, iv);
    SentAll(suite, iv, rs, 0, [], 0);
    for i := 0 to |rs|
      invariant s.Valid() && s.suite == suite && s.iv == iv && fresh(s) && fresh(s.enc)
      invariant SentTo(suite, iv, rs, i, s.sent, s.seqNo)
    {
      assert rs[i] in rs;
      SendNext(s, rs, i);
    }
    wire := s.sent;
    SentAll(suite, iv, rs, |rs|, wire, s.seqNo);
  }

  method SendNext(s: Sender, rs: seq<Plain>, i: nat)
    requires s.Valid() && i < |rs| && Sendable(rs[i]) && SentTo(s.suite, s.iv, rs, i, s.sent, s.seqNo)
    modifies s`seqNo, s`sent, s.enc
    ensures s.Valid() && SentTo(s.suite, s.iv, rs, i + 1, s.sent, s.seqNo)
  {
    ghost var sent, n := s.sent, s.seqNo;
    var ok := s.SendEncrypted(rs[i].ct, rs[i].data);
    SentStep(s.suite, s.iv, rs, i, sent, n, s.sent, s.seqNo);
  }

  /** Receives with a buffer of `maxlen` bytes until nothing is left. */
  method RecvAll(suite: Suite, iv: Iv, wire: seq<byte>, maxlen: nat) returns (all: seq<byte>)
    requires maxlen > 0
    ensures all == AppData(suite, iv, 0, wire)
  {
    var r := new Receiver(suite, iv, wire);
    all := [];
    ghost var goal := AppData(suite, iv, 0, wire);
    assert goal == [] + r.Pending();
    while r.wire != [] || r.ring.first != r.ring.last
      invariant r.Valid() && r.suite == suite && r.iv == iv
      invariant fresh(r) && fresh(r.rec) && fresh(r.ring) && fresh(r.ring.data)
      invariant all + r.Pending() == goal
      decreases |r.wire|, |r.ring.Contents()|
    {
      var out := RecvSome(r, maxlen);
      Assoc(all, out, r.Pending());
      all := all + out;
    }
    assert r.Pending() == [];
  }

  /** A receive call that has something to do makes progress. */
  method RecvSome(r: Receiver, maxlen: nat) returns (out: seq<byte>)
    requires r.Valid() && maxlen > 0 && (r.wire != [] || r.ring.first != r.ring.last)
    modifies r`seqNo, r`wire, r.rec, r.ring, r.ring.data
    ensures r.Valid() && Delivers(out, r.Pending(), old(r.Pending()))
    ensures |r.wire| < |old(r.wire)| || (r.wire == old(r.wire) && |r.ring.Contents()| < |old(r.ring.Contents())|)
  {
    Ring.Empty(r.ring.data[..], r.ring.first, r.ring.last);
    out := r.Recv(maxlen);
  }

  /** Whatever the records and the caller's buffer size, the application bytes come out exactly as they went in. */
  method Exchange(suite: Suite, iv: Iv, rs: seq<Plain>, maxlen: nat) returns (all: seq<byte>)
    requires maxlen > 0 && forall r :: r in rs ==> Sendable(r)
    ensures all == Payload(rs)
  {
    var wire := SendAll(suite, iv, rs);
    all := RecvAll(suite, iv, wire, maxlen);
    StreamRoundTrip(suite, iv, 0, rs);
  }
}
