/** AES-GCM packet glue of the mbedTLS back end (the aes128-gcm@openssh.com and
    aes256-gcm@openssh.com entries). The 12-byte nonce kept in last_iv is a
    4-byte fixed field followed by a 64-bit invocation counter that is stepped
    after every successful packet (section 7.1 of RFC 5647). GCM itself is
    opaque. */
module Gcm {
  import opened Bytes
  import opened Ciphers

  const SSH_OK: int := 0
  const SSH_ERROR: int := -1

  /** The mbedTLS GCM calls the glue makes, as opaque functions:
      setKey says whether mbedtls_gcm_setkey accepts a key;
      cryptAndTag(key, iv, aad, plaintext) is the ciphertext and tag, or None on failure;
      authDecrypt(key, iv, aad, ciphertext, tag) is the plaintext, or None when the
      tag does not authenticate. */
  datatype GcmPrimitives = GcmPrimitives(
    setKey: seq<byte> -> bool,
    cryptAndTag: (seq<byte>, seq<byte>, seq<byte>, seq<byte>) -> Option<(seq<byte>, seq<byte>)>,
    authDecrypt: (seq<byte>, seq<byte>, seq<byte>, seq<byte>, seq<byte>) -> Option<seq<byte>>)

  /** GCM opens what it sealed, for every key, nonce and associated data. */
  ghost predicate GcmInverse(p: GcmPrimitives)
  {
    forall k, iv, aad, pt :: p.cryptAndTag(k, iv, aad, pt).Some? ==>
      p.authDecrypt(k, iv, aad, p.cryptAndTag(k, iv, aad, pt).value.0,
                    p.cryptAndTag(k, iv, aad, pt).value.1) == Some(pt)
  }

  /** uint64_inc: a big-endian counter plus one, carrying from the last byte. */
  function Increment(s: seq<byte>): (r: seq<byte>)
    ensures |r| == |s|
  {
    if s == [] then []
    else if s[|s| - 1] == 255 then Increment(s[..|s| - 1]) + [0]
    else s[..|s| - 1] + [s[|s| - 1] + 1]
  }

  lemma MulBound(x: nat, p: nat)
    requires x * 256 < 256 * p
    ensures x < p
  {
  }

  /** The counter goes up by exactly one, and only the all-0xff counter wraps, to zero. */
  lemma {:induction false} IncrementValue(s: seq<byte>)
    ensures BEToNat(s) + 1 < Pow256(|s|) ==> BEToNat(Increment(s)) == BEToNat(s) + 1
    ensures BEToNat(s) + 1 == Pow256(|s|) ==> Increment(s) == Zeros(|s|)
  {
    BEToNatBound(s);
    if s != [] {
      var init := s[..|s| - 1];
      var last := s[|s| - 1];
      BEToNatBound(init);
      assert BEToNat(s) == BEToNat(init) * 256 + last;
      assert Pow256(|s|) == 256 * Pow256(|init|);
      if last == 255 {
        IncrementValue(init);
        var r := Increment(s);
        assert r[..|s| - 1] == Increment(init);
        assert BEToNat(s) + 1 == (BEToNat(init) + 1) * 256;
        if BEToNat(s) + 1 < Pow256(|s|) {
          MulBound(BEToNat(init) + 1, Pow256(|init|));
        }
      } else {
        var r := Increment(s);
        assert r[..|s| - 1] == init;
        assert BEToNat(init) * 256 + last + 1 < 256 * Pow256(|init|) by {
          assert BEToNat(init) + 1 <= Pow256(|init|);
          assert (BEToNat(init) + 1) * 256 <= Pow256(|init|) * 256;
        }
      }
    }
  }

  /** The nonce for the next packet: fixed field kept, invocation counter stepped. */
  function NextIv(iv: seq<byte>): (r: seq<byte>)
    requires |iv| == AES_GCM_IVLEN
    ensures |r| == AES_GCM_IVLEN
  {
    iv[..4] + Increment(iv[4..])
  }

  /** The nonce after n successful packets. */
  function IvAfter(iv: seq<byte>, n: nat): (r: seq<byte>)
    requires |iv| == AES_GCM_IVLEN
    ensures |r| == AES_GCM_IVLEN
  {
    if n == 0 then iv else NextIv(IvAfter(iv, n - 1))
  }

  function Counter(iv: seq<byte>): nat
    requires |iv| == AES_GCM_IVLEN
  {
    BEToNat(iv[4..])
  }

  /** Stepping never touches the fixed field, and adds n to the counter while it does not wrap. */
  lemma {:induction false} IvAfterValue(iv: seq<byte>, n: nat)
    requires |iv| == AES_GCM_IVLEN
    requires Counter(iv) + n < Pow256(8)
    ensures IvAfter(iv, n)[..4] == iv[..4]
    ensures Counter(IvAfter(iv, n)) == Counter(iv) + n
  {
    if n > 0 {
      IvAfterValue(iv, n - 1);
      var prev := IvAfter(iv, n - 1);
      assert NextIv(prev)[4..] == Increment(prev[4..]);
      assert NextIv(prev)[..4] == prev[..4];
      IncrementValue(prev[4..]);
    }
  }

  /** No nonce repeats among the packets sent before the counter wraps. */
  lemma IvsDistinct(iv: seq<byte>, i: nat, j: nat)
    requires |iv| == AES_GCM_IVLEN
    requires i < j && Counter(iv) + j < Pow256(8)
    ensures IvAfter(iv, i) != IvAfter(iv, j)
  {
    IvAfterValue(iv, i);
    IvAfterValue(iv, j);
  }

  /** Encrypt-side result for one packet: the length field copied, then the
      ciphertext, and the tag; None when the primitive fails. The wrong-size
      branch only exists because the primitive is opaque: a conforming mbedTLS
      writes exactly the buffer sizes the glue passes, so it never takes it. */
  function SealSpec(p: GcmPrimitives, key: seq<byte>, iv: seq<byte>, input: seq<byte>,
                    aadlen: nat, tagSize: nat): (r: Option<(seq<byte>, seq<byte>)>)
    requires aadlen <= |input|
    ensures r.Some? ==> |r.value.0| == |input| && r.value.0[..aadlen] == input[..aadlen]
                        && |r.value.1| == tagSize
  {
    match p.cryptAndTag(key, iv, input[..aadlen], input[aadlen..])
    case Some((ct, tag)) =>
      if |ct| == |input| - aadlen && |tag| == tagSize then Some((input[..aadlen] + ct, tag)) else None
    case None => None
  }

  /** Decrypt-side result for one packet laid out as aad, ciphertext, tag;
      None when the tag does not authenticate. As in SealSpec, a plaintext of
      the wrong size cannot come from a conforming mbedTLS. */
  function OpenSpec(p: GcmPrimitives, key: seq<byte>, iv: seq<byte>, packet: seq<byte>,
                    aadlen: nat, encSize: nat, tagSize: nat): (r: Option<seq<byte>>)
    requires aadlen + encSize + tagSize <= |packet|
    ensures r.Some? ==> |r.value| == encSize
  {
    match p.authDecrypt(key, iv, packet[..aadlen], packet[aadlen..aadlen + encSize],
                        packet[aadlen + encSize..aadlen + encSize + tagSize])
    case Some(pt) => if |pt| == encSize then Some(pt) else None
    case None => None
  }

  /** A sealed packet opens to its payload under the same key and nonce. */
  lemma SealThenOpen(p: GcmPrimitives, key: seq<byte>, iv: seq<byte>, input: seq<byte>,
                     aadlen: nat, tagSize: nat)
    requires GcmInverse(p) && aadlen <= |input|
    requires SealSpec(p, key, iv, input, aadlen, tagSize).Some?
    ensures OpenSpec(p, key, iv, SealSpec(p, key, iv, input, aadlen, tagSize).value.0
                       + SealSpec(p, key, iv, input, aadlen, tagSize).value.1,
                     aadlen, |input| - aadlen, tagSize) == Some(input[aadlen..])
  {
    var (out, tag) := SealSpec(p, key, iv, input, aadlen, tagSize).value;
    var ct := p.cryptAndTag(key, iv, input[..aadlen], input[aadlen..]).value.0;
    var packet := out + tag;
    var es := |input| - aadlen;
    assert packet[..aadlen] == input[..aadlen];
    assert packet[aadlen..aadlen + es] == ct;
    assert packet[aadlen + es..aadlen + es + tagSize] == tag;
  }

  /** The GCM part of a struct ssh_cipher_struct: the keyed context and last_iv. */
  class GcmCipher {
    const keysize: nat
    const lenfieldBlocksize: nat
    const tagSize: nat
    var key: Option<seq<byte>>
    var lastIv: seq<byte>

    predicate Valid()
      reads this
    {
      |lastIv| == AES_GCM_IVLEN
    }

    /** A cipher struct copied from a GCM table entry, not yet keyed. */
    constructor (d: Descriptor)
      ensures keysize == d.keysize && lenfieldBlocksize == d.lenfieldBlocksize && tagSize == d.tagSize
      ensures key == None && lastIv == Zeros(AES_GCM_IVLEN) && Valid()
    {
      keysize := d.keysize;
      lenfieldBlocksize := d.lenfieldBlocksize;
      tagSize := d.tagSize;
      key := None;
      lastIv := Zeros(AES_GCM_IVLEN);
    }

    /** cipher_set_key_gcm: keys the context with the first keysize bits and
        keeps the 12-byte IV verbatim; on failure the context is freed and
        last_iv is left alone. */
    method SetKey(p: GcmPrimitives, k: seq<byte>, iv: seq<byte>) returns (rc: int)
      requires Valid() && keysize / 8 <= |k| && AES_GCM_IVLEN <= |iv|
      modifies this
      ensures Valid()
      ensures p.setKey(k[..keysize / 8]) ==> rc == 0 && key == Some(k[..keysize / 8]) && lastIv == iv[..AES_GCM_IVLEN]
      ensures !p.setKey(k[..keysize / 8]) ==> rc == 1 && key.None? && lastIv == old(lastIv)
    {
      var bits := k[..keysize / 8];
      if !p.setKey(bits) {
        key := None;
        return 1;
      }
      key := Some(bits);
      lastIv := iv[..AES_GCM_IVLEN];
      rc := 0;
    }

    /** cipher_gcm_get_length: the length field is sent in clear, so it is copied. */
    method GetLength(input: seq<byte>, out: array<byte>, len: nat, seqNr: uint64) returns (rc: int)
      requires len <= |input| && len <= out.Length
      modifies out
      ensures rc == SSH_OK
      ensures out[..len] == input[..len] && out[len..] == old(out[len..])
    {
      var i := 0;
      while i < len
        invariant i <= len
        invariant out[..i] == input[..i] && out[len..] == old(out[len..])
      {
        out[i] := input[i];
        i := i + 1;
        assert out[..i] == out[..i - 1] + [out[i - 1]];
        assert input[..i] == input[..i - 1] + [input[i - 1]];
      }
      rc := SSH_OK;
    }

    /** cipher_encrypt_gcm: copies the length field, then encrypts and tags
        the rest; the counter steps only when the primitive succeeds. */
    method Encrypt(p: GcmPrimitives, input: seq<byte>, out: array<byte>, len: nat,
                   tag: array<byte>, seqNr: uint64)
      requires Valid() && key.Some?
      requires lenfieldBlocksize <= len <= |input| && len <= out.Length && tagSize <= tag.Length
      requires out != tag
      modifies this, out, tag
      ensures Valid() && key == old(key)
      ensures out[..lenfieldBlocksize] == input[..lenfieldBlocksize]
      ensures out[len..] == old(out[len..])
      ensures match SealSpec(p, key.value, old(lastIv), input[..len], lenfieldBlocksize, tagSize)
        case Some((ct, t)) =>
          out[..len] == ct && tag[..tagSize] == t && tag[tagSize..] == old(tag[tagSize..])
          && lastIv == NextIv(old(lastIv))
        case None =>
          out[lenfieldBlocksize..] == old(out[lenfieldBlocksize..]) && tag[..] == old(tag[..])
          && lastIv == old(lastIv)
    {
      var aadlen := lenfieldBlocksize;
      CopyInto(out, input[..aadlen], 0);
      var r := SealSpec(p, key.value, lastIv, input[..len], aadlen, tagSize);
      if r.None? {
        return;
      }
      var (sealed, t) := r.value;
      CopyInto(out, sealed[aadlen..], aadlen);
      assert out[..len] == out[..aadlen] + out[aadlen..len];
      assert sealed == sealed[..aadlen] + sealed[aadlen..];
      CopyInto(tag, t, 0);
      lastIv := NextIv(lastIv);
    }

    /** cipher_decrypt_gcm: authenticates and decrypts encSize bytes after the
        length field; on failure the counter stays put and SSH_ERROR is returned. */
    method Decrypt(p: GcmPrimitives, packet: seq<byte>, out: array<byte>, encSize: nat,
                   seqNr: uint64) returns (rc: int)
      requires Valid() && key.Some?
      requires lenfieldBlocksize + encSize + tagSize <= |packet| && encSize <= out.Length
      modifies this, out
      ensures Valid() && key == old(key)
      ensures match OpenSpec(p, key.value, old(lastIv), packet, lenfieldBlocksize, encSize, tagSize)
        case Some(pt) =>
          rc == SSH_OK && out[..encSize] == pt && out[encSize..] == old(out[encSize..])
          && lastIv == NextIv(old(lastIv))
        case None =>
          rc == SSH_ERROR && out[..] == old(out[..]) && lastIv == old(lastIv)
    {
      var r := OpenSpec(p, key.value, lastIv, packet, lenfieldBlocksize, encSize, tagSize);
      if r.None? {
        return SSH_ERROR;
      }
      CopyInto(out, r.value, 0);
      lastIv := NextIv(lastIv);
      rc := SSH_OK;
    }
  }

  /** memcpy(a + at, src, |src|). */
  method CopyInto(a: array<byte>, src: seq<byte>, at: nat)
    requires at + |src| <= a.Length
    modifies a
    ensures a[at..at + |src|] == src
    ensures a[..at] == old(a[..at]) && a[at + |src|..] == old(a[at + |src|..])
  {
    var i := 0;
    while i < |src|
      invariant i <= |src|
      invariant a[at..at + i] == src[..i]
      invariant a[..at] == old(a[..at]) && a[at + |src|..] == old(a[at + |src|..])
    {
      a[at + i] := src[i];
      i := i + 1;
      assert a[at..at + i] == a[at..at + i - 1] + [a[at + i - 1]];
      assert src[..i] == src[..i - 1] + [src[i - 1]];
    }
    assert src[..|src|] == src;
  }
}
