/** The chacha20-poly1305@openssh.com construction on top of mbedTLS's ChaCha20
    and Poly1305 (sections 2.3, 2.4 and 2.6 of RFC 8439, arranged as OpenSSH
    does). The 64-byte key is split: its first half keys the payload stream
    (main_ctx), its second half the length stream (header_ctx). Both streams
    use the 96-bit nonce made of four zero bytes and the 64-bit big-endian
    sequence number, from block counter 0. The payload stream's block 0 is
    spent on the one-time Poly1305 key, so the payload is encrypted from
    block 1. The ChaCha20 block function and Poly1305 are opaque. */
module ChaChaPoly {
  import opened Bytes
  import opened Ciphers

  const SSH_OK: int := 0
  const SSH_ERROR: int := -1
  const CHACHA20_BLOCKSIZE: nat := 64
  const POLY1305_KEYLEN: nat := 32

  type Tag = s: seq<byte> | |s| == POLY1305_TAGLEN witness seq(16, i => 0)

  /** setKey says whether mbedtls_chacha20_setkey accepts a 32-byte key;
      succeeds says whether one of the other mbedTLS calls returns 0;
      keystream(key, nonce, pos) is byte pos of the ChaCha20 keystream that
      starts at block counter 0; poly1305(key, msg) is the 16-byte tag. */
  datatype ChaChaPrimitives = ChaChaPrimitives(
    setKey: seq<byte> -> bool,
    succeeds: MbedCall -> bool,
    keystream: (seq<byte>, seq<byte>, nat) -> byte,
    poly1305: (seq<byte>, seq<byte>) -> Tag)

  /** The mbedTLS calls of the packet routines that can report failure, with
      the context they act on. A failing call changes neither its context nor
      its output. */
  datatype MbedCall =
    | Starts(ctx: StreamCtx, nonce: seq<byte>)  // mbedtls_chacha20_starts
    | Update(ctx: StreamCtx, size: nat)         // mbedtls_chacha20_update
    | PolyStarts(key: seq<byte>)                // mbedtls_poly1305_starts
    | PolyUpdate(pctx: PolyCtx, size: nat)      // mbedtls_poly1305_update
    | PolyFinish(pctx: PolyCtx)                 // mbedtls_poly1305_finish

  /** mbedTLS as it behaves with valid parameters: every call returns 0. */
  ghost predicate Reliable(p: ChaChaPrimitives)
  {
    forall c: MbedCall :: p.succeeds(c)
  }

  /** An mbedtls_chacha20_context: key, nonce and how many keystream bytes are used. */
  datatype StreamCtx = StreamCtx(key: seq<byte>, nonce: seq<byte>, pos: nat)

  /** An mbedtls_poly1305_context: its one-time key and the message fed so far. */
  datatype PolyCtx = PolyCtx(key: seq<byte>, msg: seq<byte>)

  function ClearedStream(): StreamCtx
  {
    StreamCtx(Zeros(CHACHA20_KEYLEN), Zeros(12), 0)
  }

  function ClearedPoly(): PolyCtx
  {
    PolyCtx(Zeros(POLY1305_KEYLEN), [])
  }

  /** n keystream bytes from position pos. */
  function Keystream(p: ChaChaPrimitives, key: seq<byte>, nonce: seq<byte>, pos: nat, n: nat): (r: seq<byte>)
    ensures |r| == n && forall i :: 0 <= i < n ==> r[i] == p.keystream(key, nonce, pos + i)
  {
    seq(n, i requires 0 <= i < n => p.keystream(key, nonce, pos + i))
  }

  /** Keystream bytes are taken consecutively: n + m bytes from pos are n
      bytes from pos followed by m bytes from pos + n. */
  lemma KeystreamSplit(p: ChaChaPrimitives, key: seq<byte>, nonce: seq<byte>, pos: nat, n: nat, m: nat)
    ensures Keystream(p, key, nonce, pos, n + m)
            == Keystream(p, key, nonce, pos, n) + Keystream(p, key, nonce, pos + n, m)
  {
    var whole := Keystream(p, key, nonce, pos, n + m);
    var parts := Keystream(p, key, nonce, pos, n) + Keystream(p, key, nonce, pos + n, m);
    forall i | 0 <= i < n + m
      ensures whole[i] == parts[i]
    {
      if i >= n {
        assert parts[i] == Keystream(p, key, nonce, pos + n, m)[i - n];
      }
    }
  }

  function XorSeq(a: seq<byte>, k: seq<byte>): (r: seq<byte>)
    requires |a| <= |k|
    ensures |r| == |a|
  {
    seq(|a|, i requires 0 <= i < |a| => Xor(a[i], k[i]))
  }

  lemma XorSeqInvolutive(a: seq<byte>, k: seq<byte>)
    requires |a| <= |k|
    ensures XorSeq(XorSeq(a, k), k) == a
  {
    forall i | 0 <= i < |a|
      ensures XorSeq(XorSeq(a, k), k)[i] == a[i]
    {
      XorInvolutive(a[i], k[i]);
    }
  }

  lemma XorSeqZeros(k: seq<byte>)
    ensures XorSeq(Zeros(|k|), k) == k
  {
    forall i | 0 <= i < |k|
      ensures XorSeq(Zeros(|k|), k)[i] == k[i]
    {
      XorZero(k[i]);
    }
  }

  /** mbedtls_chacha20_update: XOR with the next |data| keystream bytes. */
  function Crypt(p: ChaChaPrimitives, c: StreamCtx, data: seq<byte>): (r: seq<byte>)
    ensures |r| == |data|
  {
    XorSeq(data, Keystream(p, c.key, c.nonce, c.pos, |data|))
  }

  function Advance(c: StreamCtx, n: nat): StreamCtx
  {
    c.(pos := c.pos + n)
  }

  /** mbedtls_chacha20_update is incremental: one update over a + b gives
      what an update over a and then one over b from the advanced context give.
      This is why packet setup spends a whole block and the payload then
      starts at block 1. */
  lemma CryptSplit(p: ChaChaPrimitives, c: StreamCtx, a: seq<byte>, b: seq<byte>)
    ensures Crypt(p, c, a + b) == Crypt(p, c, a) + Crypt(p, Advance(c, |a|), b)
  {
    var ks := Keystream(p, c.key, c.nonce, c.pos, |a| + |b|);
    KeystreamSplit(p, c.key, c.nonce, c.pos, |a|, |b|);
    var whole := Crypt(p, c, a + b);
    var parts := Crypt(p, c, a) + Crypt(p, Advance(c, |a|), b);
    forall i | 0 <= i < |a| + |b|
      ensures whole[i] == parts[i]
    {
      if i >= |a| {
        assert parts[i] == Crypt(p, Advance(c, |a|), b)[i - |a|];
        assert ks[i] == Keystream(p, c.key, c.nonce, c.pos + |a|, |b|)[i - |a|];
      }
    }
  }

  /** The per-packet nonce: four zero bytes, then the sequence number in network order. */
  function Nonce(seqNr: uint64): (r: seq<byte>)
    ensures |r| == 12 && r[..4] == Zeros(4) && BEToU64(r[4..]) == seqNr
  {
    U64RoundTrip(seqNr);
    Zeros(4) + U64ToBE(seqNr)
  }

  lemma NonceInjective(a: uint64, b: uint64)
    requires Nonce(a) == Nonce(b)
    ensures a == b
  {
  }

  /** The Poly1305 key packet setup derives from a payload stream in state c:
      a whole block of keystream over zeros, of which Poly1305 uses 32 bytes. */
  function PolyKeyFrom(p: ChaChaPrimitives, c: StreamCtx): seq<byte>
  {
    Crypt(p, c, Zeros(CHACHA20_BLOCKSIZE))[..POLY1305_KEYLEN]
  }

  /** That key is the first 32 bytes of the block's keystream (section 2.6 of RFC 8439). */
  lemma PolyKeyIsKeystream(p: ChaChaPrimitives, c: StreamCtx)
    ensures PolyKeyFrom(p, c) == Keystream(p, c.key, c.nonce, c.pos, POLY1305_KEYLEN)
  {
    var ks := Keystream(p, c.key, c.nonce, c.pos, CHACHA20_BLOCKSIZE);
    XorSeqZeros(ks);
  }

  /** Packet encryption from the key halves: encrypted length, encrypted
      payload, and the tag over both. */
  function SealSpec(p: ChaChaPrimitives, mainKey: seq<byte>, headerKey: seq<byte>, seqNr: uint64,
                    input: seq<byte>): (r: (seq<byte>, Tag))
    requires 4 <= |input|
    ensures |r.0| == |input|
  {
    var n := Nonce(seqNr);
    var main := StreamCtx(mainKey, n, 0);
    var out := Crypt(p, StreamCtx(headerKey, n, 0), input[..4])
               + Crypt(p, Advance(main, CHACHA20_BLOCKSIZE), input[4..]);
    (out, p.poly1305(PolyKeyFrom(p, main), out))
  }

  /** Length decryption with the header half. */
  function OpenLengthSpec(p: ChaChaPrimitives, headerKey: seq<byte>, seqNr: uint64, input: seq<byte>): (r: seq<byte>)
    requires 4 <= |input|
    ensures |r| == 4
  {
    Crypt(p, StreamCtx(headerKey, Nonce(seqNr), 0), input[..4])
  }

  /** Payload decryption from a payload stream in state c: the tag over the
      first 4 + encSize bytes must equal the 16 bytes after them, and only
      then is the payload decrypted. */
  function OpenFrom(p: ChaChaPrimitives, c: StreamCtx, packet: seq<byte>, encSize: nat): (r: Option<seq<byte>>)
    requires 4 + encSize + POLY1305_TAGLEN <= |packet|
    ensures r.Some? <==> p.poly1305(PolyKeyFrom(p, c), packet[..4 + encSize])
                         == packet[4 + encSize..4 + encSize + POLY1305_TAGLEN]
    ensures r.Some? ==> |r.value| == encSize
  {
    if p.poly1305(PolyKeyFrom(p, c), packet[..4 + encSize]) != packet[4 + encSize..4 + encSize + POLY1305_TAGLEN]
    then None
    else Some(Crypt(p, Advance(c, CHACHA20_BLOCKSIZE), packet[4..4 + encSize]))
  }

  function OpenSpec(p: ChaChaPrimitives, mainKey: seq<byte>, seqNr: uint64, packet: seq<byte>,
                    encSize: nat): Option<seq<byte>>
    requires 4 + encSize + POLY1305_TAGLEN <= |packet|
  {
    OpenFrom(p, StreamCtx(mainKey, Nonce(seqNr), 0), packet, encSize)
  }

  /** What one side seals under a sequence number the other side opens under
      the same number: the length and the payload both come back. */
  lemma SealThenOpen(p: ChaChaPrimitives, mainKey: seq<byte>, headerKey: seq<byte>, seqNr: uint64,
                     input: seq<byte>)
    requires 4 <= |input|
    ensures var (out, tag) := SealSpec(p, mainKey, headerKey, seqNr, input);
            OpenLengthSpec(p, headerKey, seqNr, out) == input[..4]
            && OpenSpec(p, mainKey, seqNr, out + tag, |input| - 4) == Some(input[4..])
  {
    var (out, tag) := SealSpec(p, mainKey, headerKey, seqNr, input);
    var n := Nonce(seqNr);
    var es := |input| - 4;
    var packet := out + tag;
    var hdr := StreamCtx(headerKey, n, 0);
    var body := Advance(StreamCtx(mainKey, n, 0), CHACHA20_BLOCKSIZE);
    assert out[..4] == Crypt(p, hdr, input[..4]);
    XorSeqInvolutive(input[..4], Keystream(p, headerKey, n, 0, 4));
    assert packet[..4 + es] == out;
    assert packet[4 + es..4 + es + POLY1305_TAGLEN] == tag;
    assert packet[4..4 + es] == Crypt(p, body, input[4..]);
    XorSeqInvolutive(input[4..], Keystream(p, mainKey, n, CHACHA20_BLOCKSIZE, es));
  }

  /** A packet whose tag does not match is refused whatever its payload. */
  lemma ForgedTagRejected(p: ChaChaPrimitives, mainKey: seq<byte>, headerKey: seq<byte>, seqNr: uint64,
                          input: seq<byte>, forged: Tag)
    requires 4 <= |input|
    requires forged != SealSpec(p, mainKey, headerKey, seqNr, input).1
    ensures OpenSpec(p, mainKey, seqNr, SealSpec(p, mainKey, headerKey, seqNr, input).0 + forged,
                     |input| - 4) == None
  {
    var out := SealSpec(p, mainKey, headerKey, seqNr, input).0;
    var packet := out + forged;
    var es := |input| - 4;
    assert packet[..4 + es] == out;
    assert packet[4 + es..4 + es + POLY1305_TAGLEN] == forged;
  }

  /** The three mbedTLS contexts of a chacha20_poly1305_keysched. */
  datatype Schedule = Schedule(main: StreamCtx, header: StreamCtx, poly: PolyCtx)

  /** Both streams at block 0 under the nonce of this sequence number. */
  function Restarted(s: Schedule, seqNr: uint64): Schedule
  {
    s.(main := StreamCtx(s.main.key, Nonce(seqNr), 0), header := StreamCtx(s.header.key, Nonce(seqNr), 0))
  }

  /** After a successful packet setup from s: one payload-stream block spent
      and Poly1305 started with the key it gave. */
  function SetupDone(p: ChaChaPrimitives, s: Schedule): Schedule
  {
    s.(main := Advance(s.main, CHACHA20_BLOCKSIZE), poly := PolyCtx(PolyKeyFrom(p, s.main), []))
  }

  /** chacha20_poly1305_set_iv: restarts the header stream, then the payload
      stream; a failing start returns SSH_ERROR at once. */
  function SetIvSpec(p: ChaChaPrimitives, s: Schedule, seqNr: uint64): (r: (int, Schedule))
    ensures r.0 == SSH_OK || r.0 == SSH_ERROR
    ensures r.0 == SSH_OK <==> p.succeeds(Starts(s.header, Nonce(seqNr))) && p.succeeds(Starts(s.main, Nonce(seqNr)))
    ensures r.0 == SSH_OK ==> r.1 == Restarted(s, seqNr)
    ensures r.1.poly == s.poly && r.1.main.key == s.main.key && r.1.header.key == s.header.key
    ensures Reliable(p) ==> r.0 == SSH_OK
  {
    var n := Nonce(seqNr);
    if !p.succeeds(Starts(s.header, n)) then (SSH_ERROR, s)
    else
      var s1 := s.(header := StreamCtx(s.header.key, n, 0));
      if !p.succeeds(Starts(s.main, n)) then (SSH_ERROR, s1)
      else (SSH_OK, s1.(main := StreamCtx(s.main.key, n, 0)))
  }

  /** chacha20_poly1305_packet_setup: set_iv when encrypting, then one whole
      block of payload keystream over zeros, whose first 32 bytes start
      Poly1305; each failure returns SSH_ERROR. */
  function PacketSetupSpec(p: ChaChaPrimitives, s: Schedule, seqNr: uint64, doEncrypt: bool): (r: (int, Schedule))
    ensures r.0 == SSH_OK || r.0 == SSH_ERROR
    ensures r.0 == SSH_OK ==> r.1 == SetupDone(p, if doEncrypt then Restarted(s, seqNr) else s)
    ensures !doEncrypt ==> r.1.header == s.header
    ensures r.1.main.key == s.main.key && r.1.header.key == s.header.key
    ensures Reliable(p) ==> r.0 == SSH_OK
  {
    var (rc0, s0) := if doEncrypt then SetIvSpec(p, s, seqNr) else (SSH_OK, s);
    if rc0 != SSH_OK then (SSH_ERROR, s0)
    else if !p.succeeds(Update(s0.main, CHACHA20_BLOCKSIZE)) then (SSH_ERROR, s0)
    else
      var key := PolyKeyFrom(p, s0.main);
      var s1 := s0.(main := Advance(s0.main, CHACHA20_BLOCKSIZE));
      if !p.succeeds(PolyStarts(key)) then (SSH_ERROR, s1)
      else (SSH_OK, s1.(poly := PolyCtx(key, [])))
  }

  /** chacha20_poly1305_aead_decrypt_length: the new schedule and the four
      bytes written to out, if any. */
  function DecryptLengthSpec(p: ChaChaPrimitives, s: Schedule, input: seq<byte>, len: nat, seqNr: uint64)
    : (r: (int, Schedule, Option<seq<byte>>))
    requires len <= |input|
    ensures r.0 == SSH_OK || r.0 == SSH_ERROR
    ensures r.2.Some? <==> r.0 == SSH_OK
    ensures len < 4 ==> r == (SSH_ERROR, s, None)
    ensures r.0 == SSH_OK ==> r.2.value == OpenLengthSpec(p, s.header.key, seqNr, input)
                              && r.1 == Restarted(s, seqNr).(header := StreamCtx(s.header.key, Nonce(seqNr), 4))
    ensures r.1.poly == s.poly && r.1.main.key == s.main.key && r.1.header.key == s.header.key
    ensures Reliable(p) && 4 <= len ==> r.0 == SSH_OK
  {
    if len < 4 then (SSH_ERROR, s, None)
    else
      var (rc0, s0) := SetIvSpec(p, s, seqNr);
      if rc0 != SSH_OK then (SSH_ERROR, s0, None)
      else if !p.succeeds(Update(s0.header, 4)) then (SSH_ERROR, s0, None)
      else (SSH_OK, s0.(header := Advance(s0.header, 4)), Some(Crypt(p, s0.header, input[..4])))
  }

  /** chacha20_poly1305_aead_decrypt: the new schedule and the plaintext
      written to out, if any. The tag is checked before anything is written. */
  function AeadDecryptSpec(p: ChaChaPrimitives, s: Schedule, packet: seq<byte>, encSize: nat, seqNr: uint64)
    : (r: (int, Schedule, Option<seq<byte>>))
    requires 4 + encSize + POLY1305_TAGLEN <= |packet|
    ensures r.0 == SSH_OK || r.0 == SSH_ERROR
    ensures r.2.Some? <==> r.0 == SSH_OK
    ensures r.0 == SSH_OK ==> r.2 == OpenFrom(p, s.main, packet, encSize)
    ensures OpenFrom(p, s.main, packet, encSize).None? ==> r.0 == SSH_ERROR
    ensures Reliable(p) ==> r.2 == OpenFrom(p, s.main, packet, encSize)
    ensures r.0 == SSH_OK ==> r.1 == Schedule(Advance(s.main, CHACHA20_BLOCKSIZE + encSize), s.header,
                                              PolyCtx(PolyKeyFrom(p, s.main), packet[..4 + encSize]))
    ensures r.1.header == s.header && r.1.main.key == s.main.key
  {
    var (rc0, s0) := PacketSetupSpec(p, s, seqNr, false);
    if rc0 != SSH_OK then (SSH_ERROR, s0, None)
    else if !p.succeeds(PolyUpdate(s0.poly, 4 + encSize)) then (SSH_ERROR, s0, None)
    else
      var s1 := s0.(poly := s0.poly.(msg := s0.poly.msg + packet[..4 + encSize]));
      assert s0.poly.msg == [] && s1.poly == PolyCtx(PolyKeyFrom(p, s.main), packet[..4 + encSize]);
      if !p.succeeds(PolyFinish(s1.poly)) then (SSH_ERROR, s1, None)
      else if p.poly1305(s1.poly.key, s1.poly.msg) != packet[4 + encSize..4 + encSize + POLY1305_TAGLEN]
      then (SSH_ERROR, s1, None)
      else if !p.succeeds(Update(s1.main, encSize)) then (SSH_ERROR, s1, None)
      else (SSH_OK, s1.(main := Advance(s1.main, encSize)), Some(Crypt(p, s1.main, packet[4..4 + encSize])))
  }

  /** chacha20_poly1305_aead_encrypt: the new schedule, the prefix of out
      written before the first failing call, and the tag if every call
      succeeded. What is written is always a prefix of the sealed packet. */
  function AeadEncryptSpec(p: ChaChaPrimitives, s: Schedule, input: seq<byte>, len: nat, seqNr: uint64)
    : (r: (Schedule, seq<byte>, Option<Tag>))
    requires 4 <= len <= |input|
    ensures var sealed := SealSpec(p, s.main.key, s.header.key, seqNr, input[..len]);
            && (|r.1| == 0 || |r.1| == 4 || |r.1| == len) && r.1 == sealed.0[..|r.1|]
            && (r.2.Some? ==> r.1 == sealed.0 && r.2.value == sealed.1
                              && r.0 == Schedule(StreamCtx(s.main.key, Nonce(seqNr), CHACHA20_BLOCKSIZE + len - 4),
                                                 StreamCtx(s.header.key, Nonce(seqNr), 4),
                                                 PolyCtx(PolyKeyFrom(p, StreamCtx(s.main.key, Nonce(seqNr), 0)), sealed.0)))
    ensures Reliable(p) ==> r.2.Some?
    ensures r.0.main.key == s.main.key && r.0.header.key == s.header.key
  {
    var (rc0, s0) := PacketSetupSpec(p, s, seqNr, true);
    if rc0 != SSH_OK then (s0, [], None)
    else
      SealPrefix(p, s.main.key, s.header.key, seqNr, input, len);
      var r := EncryptSteps(p, s0, input, len);
      assert r.2.Some? ==> r.0.poly == PolyCtx(PolyKeyFrom(p, Restarted(s, seqNr).main), r.1);
      r
  }

  /** The steps of chacha20_poly1305_aead_encrypt after packet setup: the
      length field, the payload, then the MAC. */
  function EncryptSteps(p: ChaChaPrimitives, s0: Schedule, input: seq<byte>, len: nat)
    : (r: (Schedule, seq<byte>, Option<Tag>))
    requires 4 <= len <= |input|
    ensures |r.1| == 0 || |r.1| == 4 || |r.1| == len
    ensures |r.1| >= 4 ==> r.1[..4] == Crypt(p, s0.header, input[..4])
    ensures |r.1| == len ==> r.1[4..] == Crypt(p, s0.main, input[4..len])
    ensures r.2.Some? ==> |r.1| == len && r.2.value == p.poly1305(s0.poly.key, s0.poly.msg + r.1)
                          && r.0 == Schedule(Advance(s0.main, len - 4), Advance(s0.header, 4),
                                             s0.poly.(msg := s0.poly.msg + r.1))
    ensures r.0.main.key == s0.main.key && r.0.header.key == s0.header.key
    ensures Reliable(p) ==> r.2.Some?
  {
    if !p.succeeds(Update(s0.header, 4)) then (s0, [], None)
    else
      var encLen := Crypt(p, s0.header, input[..4]);
      var s1 := s0.(header := Advance(s0.header, 4));
      if !p.succeeds(Update(s1.main, len - 4)) then (s1, encLen, None)
      else
        var body := encLen + Crypt(p, s1.main, input[4..len]);
        var s2 := s1.(main := Advance(s1.main, len - 4));
        if !p.succeeds(PolyUpdate(s2.poly, len)) then (s2, body, None)
        else
          var s3 := s2.(poly := s2.poly.(msg := s2.poly.msg + body));
          if !p.succeeds(PolyFinish(s3.poly)) then (s3, body, None)
          else (s3, body, Some(p.poly1305(s3.poly.key, s3.poly.msg)))
  }

  /** The sealed packet is the encrypted length field followed by the payload
      encrypted from block 1. */
  lemma SealPrefix(p: ChaChaPrimitives, mainKey: seq<byte>, headerKey: seq<byte>, seqNr: uint64,
                   input: seq<byte>, len: nat)
    requires 4 <= len <= |input|
    ensures var n := Nonce(seqNr);
            var sealed := SealSpec(p, mainKey, headerKey, seqNr, input[..len]).0;
            && sealed[..4] == Crypt(p, StreamCtx(headerKey, n, 0), input[..4])
            && sealed == sealed[..4] + Crypt(p, StreamCtx(mainKey, n, CHACHA20_BLOCKSIZE), input[4..len])
  {
    assert input[..len][..4] == input[..4] && input[..len][4..] == input[4..len];
  }

  /** The receiving side of a packet the sending side sealed under the same
      keys and sequence number: decrypt_length recovers the length field, and
      aead_decrypt after it recovers the payload. With mbedTLS reliable both
      succeed. */
  lemma ReceiveSealed(p: ChaChaPrimitives, sender: Schedule, receiver: Schedule, input: seq<byte>,
                      len: nat, seqNr: uint64)
    requires 4 <= len <= |input|
    requires receiver.main.key == sender.main.key && receiver.header.key == sender.header.key
    requires AeadEncryptSpec(p, sender, input, len, seqNr).2.Some?
    ensures var (_, out, tag) := AeadEncryptSpec(p, sender, input, len, seqNr);
            var packet := out + tag.value;
            var (rc1, s1, lenField) := DecryptLengthSpec(p, receiver, packet, |packet|, seqNr);
            && (rc1 == SSH_OK ==> lenField == Some(input[..4])
                                  && AeadDecryptSpec(p, s1, packet, len - 4, seqNr).2 in {None, Some(input[4..len])})
            && (Reliable(p) ==> rc1 == SSH_OK && AeadDecryptSpec(p, s1, packet, len - 4, seqNr).2 == Some(input[4..len]))
  {
    var (_, out, tag) := AeadEncryptSpec(p, sender, input, len, seqNr);
    var packet := out + tag.value;
    SealThenOpen(p, sender.main.key, sender.header.key, seqNr, input[..len]);
    assert input[..len][..4] == input[..4] && input[..len][4..] == input[4..len];
    assert packet[..4] == out[..4];
    var (rc1, s1, lenField) := DecryptLengthSpec(p, receiver, packet, |packet|, seqNr);
    if rc1 == SSH_OK {
      assert s1.main == StreamCtx(sender.main.key, Nonce(seqNr), 0);
    }
  }

  /** The cipher struct's chacha20_schedule: absent until keyed, then the
      two stream contexts and the Poly1305 context. */
  class ChaChaPolyCipher {
    var hasSchedule: bool
    var initialized: bool
    var main: StreamCtx
    var header: StreamCtx
    var poly: PolyCtx

    function State(): Schedule
      reads this
    {
      Schedule(main, header, poly)
    }

    constructor ()
      ensures !hasSchedule && !initialized
    {
      hasSchedule := false;
      initialized := false;
      main := ClearedStream();
      header := ClearedStream();
      poly := ClearedPoly();
    }

    /** chacha20_poly1305_cleanup: frees the contexts if they were set up,
        then the schedule itself. */
    method Cleanup()
      modifies this
      ensures !hasSchedule && !initialized
      ensures State() == old(State())
    {
      if !hasSchedule {
        initialized := false;
        return;
      }
      if initialized {
        initialized := false;
      }
      hasSchedule := false;
    }

    /** chacha20_poly1305_set_key: allocates and initialises the schedule when
        needed, keys the payload stream with bytes 0..31 and the length stream
        with bytes 32..63; any failure cleans the schedule up. */
    method SetKey(p: ChaChaPrimitives, key: seq<byte>) returns (rc: int)
      requires 2 * CHACHA20_KEYLEN <= |key|
      modifies this
      ensures rc == SSH_OK <==> p.setKey(key[..32]) && p.setKey(key[32..64])
      ensures rc == SSH_OK ==> hasSchedule && initialized
                               && main.key == key[..32] && header.key == key[32..64]
      ensures rc != SSH_OK ==> rc == SSH_ERROR && !hasSchedule && !initialized
    {
      if !hasSchedule {
        hasSchedule := true;
        initialized := false;
      }
      if !initialized {
        main := ClearedStream();
        header := ClearedStream();
        poly := ClearedPoly();
        initialized := true;
      }
      if !p.setKey(key[..32]) {
        Cleanup();
        return SSH_ERROR;
      }
      main := main.(key := key[..32]);
      if !p.setKey(key[32..64]) {
        Cleanup();
        return SSH_ERROR;
      }
      header := header.(key := key[32..64]);
      rc := SSH_OK;
    }

    /** chacha20_poly1305_set_iv. */
    method SetIv(p: ChaChaPrimitives, seqNr: uint64) returns (rc: int)
      requires hasSchedule
      modifies this
      ensures (rc, State()) == SetIvSpec(p, old(State()), seqNr)
      ensures hasSchedule == old(hasSchedule) && initialized == old(initialized)
    {
      var n := Nonce(seqNr);
      if !p.succeeds(Starts(header, n)) {
        return SSH_ERROR;
      }
      header := StreamCtx(header.key, n, 0);
      if !p.succeeds(Starts(main, n)) {
        return SSH_ERROR;
      }
      main := StreamCtx(main.key, n, 0);
      rc := SSH_OK;
    }

    /** chacha20_poly1305_packet_setup. */
    method PacketSetup(p: ChaChaPrimitives, seqNr: uint64, doEncrypt: bool) returns (rc: int)
      requires hasSchedule
      modifies this
      ensures (rc, State()) == PacketSetupSpec(p, old(State()), seqNr, doEncrypt)
      ensures hasSchedule == old(hasSchedule) && initialized == old(initialized)
    {
      if doEncrypt {
        var rv := SetIv(p, seqNr);
        if rv != SSH_OK {
          return SSH_ERROR;
        }
      }
      if !p.succeeds(Update(main, CHACHA20_BLOCKSIZE)) {
        return SSH_ERROR;
      }
      var polyKey := Crypt(p, main, Zeros(CHACHA20_BLOCKSIZE));
      assert polyKey[..POLY1305_KEYLEN] == PolyKeyFrom(p, main);
      main := Advance(main, |polyKey|);
      if !p.succeeds(PolyStarts(polyKey[..POLY1305_KEYLEN])) {
        return SSH_ERROR;
      }
      poly := PolyCtx(polyKey[..POLY1305_KEYLEN], []);
      rc := SSH_OK;
    }

    /** chacha20_poly1305_aead_decrypt_length: writes out[..4] only on success. */
    method DecryptLength(p: ChaChaPrimitives, input: seq<byte>, out: array<byte>, len: nat,
                         seqNr: uint64) returns (rc: int)
      requires hasSchedule && len <= |input| && 4 <= out.Length
      modifies this, out
      ensures var (rc', st, written) := DecryptLengthSpec(p, old(State()), input, len, seqNr);
              && rc == rc' && State() == st
              && (written.Some? ==> out[..4] == written.value && out[4..] == old(out[4..]))
              && (written.None? ==> out[..] == old(out[..]))
      ensures hasSchedule == old(hasSchedule) && initialized == old(initialized)
    {
      if len < 4 {
        return SSH_ERROR;
      }
      var rv := SetIv(p, seqNr);
      if rv != SSH_OK {
        return SSH_ERROR;
      }
      if !p.succeeds(Update(header, 4)) {
        return SSH_ERROR;
      }
      var plain := Crypt(p, header, input[..4]);
      CopyBytes(out, plain, 0);
      header := Advance(header, 4);
      rc := SSH_OK;
    }

    /** chacha20_poly1305_aead_decrypt: writes out[..encSize] only once the
        tag has matched and the payload update succeeded. */
    method AeadDecrypt(p: ChaChaPrimitives, packet: seq<byte>, out: array<byte>, encSize: nat,
                       seqNr: uint64) returns (rc: int)
      requires hasSchedule && 4 + encSize + POLY1305_TAGLEN <= |packet| && encSize <= out.Length
      modifies this, out
      ensures var (rc', st, written) := AeadDecryptSpec(p, old(State()), packet, encSize, seqNr);
              && rc == rc' && State() == st
              && (written.Some? ==> out[..encSize] == written.value && out[encSize..] == old(out[encSize..]))
              && (written.None? ==> out[..] == old(out[..]))
      ensures hasSchedule == old(hasSchedule) && initialized == old(initialized)
    {
      var rv := PacketSetup(p, seqNr, false);
      if rv != SSH_OK {
        return SSH_ERROR;
      }
      if !p.succeeds(PolyUpdate(poly, 4 + encSize)) {
        return SSH_ERROR;
      }
      poly := poly.(msg := poly.msg + packet[..4 + encSize]);
      if !p.succeeds(PolyFinish(poly)) {
        return SSH_ERROR;
      }
      var tag := p.poly1305(poly.key, poly.msg);
      if tag != packet[4 + encSize..4 + encSize + POLY1305_TAGLEN] {
        return SSH_ERROR;
      }
      if !p.succeeds(Update(main, encSize)) {
        return SSH_ERROR;
      }
      var plain := Crypt(p, main, packet[4..4 + encSize]);
      CopyBytes(out, plain, 0);
      main := Advance(main, encSize);
      rc := SSH_OK;
    }

    /** chacha20_poly1305_aead_encrypt: each step writes its part of out, or
        the tag, and a failing call returns with what is written so far. */
    method AeadEncrypt(p: ChaChaPrimitives, input: seq<byte>, out: array<byte>, len: nat,
                       tag: array<byte>, seqNr: uint64)
      requires hasSchedule && 4 <= len <= |input| && len <= out.Length
      requires POLY1305_TAGLEN <= tag.Length && out != tag
      modifies this, out, tag
      ensures var (st, written, t) := AeadEncryptSpec(p, old(State()), input, len, seqNr);
              && State() == st
              && out[..|written|] == written && out[|written|..] == old(out[|written|..])
              && (t.Some? ==> tag[..POLY1305_TAGLEN] == t.value && tag[POLY1305_TAGLEN..] == old(tag[POLY1305_TAGLEN..]))
              && (t.None? ==> tag[..] == old(tag[..]))
      ensures hasSchedule == old(hasSchedule) && initialized == old(initialized)
    {
      var rv := PacketSetup(p, seqNr, true);
      if rv != SSH_OK {
        return;
      }
      EncryptAfterSetup(p, input, out, len, tag);
    }

    /** The length, payload and MAC steps of aead_encrypt. */
    method EncryptAfterSetup(p: ChaChaPrimitives, input: seq<byte>, out: array<byte>, len: nat,
                             tag: array<byte>)
      requires 4 <= len <= |input| && len <= out.Length
      requires POLY1305_TAGLEN <= tag.Length && out != tag
      modifies this, out, tag
      ensures var (st, written, t) := EncryptSteps(p, old(State()), input, len);
              && State() == st
              && out[..|written|] == written && out[|written|..] == old(out[|written|..])
              && (t.Some? ==> tag[..POLY1305_TAGLEN] == t.value && tag[POLY1305_TAGLEN..] == old(tag[POLY1305_TAGLEN..]))
              && (t.None? ==> tag[..] == old(tag[..]))
      ensures hasSchedule == old(hasSchedule) && initialized == old(initialized)
    {
      if !p.succeeds(Update(header, 4)) {
        return;
      }
      ghost var rest := out[len..];
      var encLen := Crypt(p, header, input[..4]);
      CopyBytes(out, encLen, 0);
      header := Advance(header, 4);
      assert out[len..] == rest by {
        assert out[len..] == out[4..][len - 4..];
      }
      if !p.succeeds(Update(main, len - 4)) {
        return;
      }
      var encBody := Crypt(p, main, input[4..len]);
      CopyBytes(out, encBody, 4);
      main := Advance(main, len - 4);
      assert out[..len] == encLen + encBody by {
        assert out[..len] == out[..4] + out[4..len];
      }
      assert out[len..] == rest;
      if !p.succeeds(PolyUpdate(poly, len)) {
        return;
      }
      poly := poly.(msg := poly.msg + out[..len]);
      if !p.succeeds(PolyFinish(poly)) {
        return;
      }
      var t := p.poly1305(poly.key, poly.msg);
      CopyBytes(tag, t, 0);
    }
  }

  /** memcpy(a + at, src, |src|). */
  method CopyBytes(a: array<byte>, src: seq<byte>, at: nat)
    requires at + |src| <= a.Length
    modifies a
    ensures a[at..at + |src|] == src
    ensures a[..at] == old(a[..at]) && a[at + |src|..] == old(a[at + |src|..])
  {
    var i := 0;
    while i < |src|
      invariant i <= |src|
      invariant a[at..at + i] == src[..i]
      invariant a[..at] == old(a[..at]) && a[at + |src|..] == old(a[at + |src|..])
    {
      a[at + i] := src[i];
      i := i + 1;
      assert a[at..at + i] == a[at..at + i - 1] + [a[at + i - 1]];
      assert src[..i] == src[..i - 1] + [src[i - 1]];
    }
    assert src[..|src|] == src;
  }
}
