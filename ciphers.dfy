/** The mbedTLS back end's cipher registry, ssh_ciphertab, in the configuration
    with AES-GCM and ChaCha20-Poly1305 compiled in, without Blowfish and without
    the insecure "none" cipher. Each entry names the glue functions it installs;
    the functions themselves are modelled elsewhere or left opaque. */
module Ciphers {
  import opened Bytes

  const AES_GCM_TAGLEN: nat := 16
  const AES_GCM_IVLEN: nat := 12
  const CHACHA20_KEYLEN: nat := 32
  const POLY1305_TAGLEN: nat := 16
  /** Size of the key_material buffer in the private-key container code. */
  const KEY_MATERIAL_MAX: nat := 128

  datatype KeySetup =
    | CipherSetEncryptKey | CipherSetDecryptKey
    | CipherSetEncryptKeyCbc | CipherSetDecryptKeyCbc
    | CipherSetKeyGcm | ChaChaPolySetKey

  datatype BlockOp = CipherEncrypt | CipherDecrypt | CipherEncryptCbc | CipherDecryptCbc

  datatype AeadOp =
    | CipherEncryptGcm | CipherGcmGetLength | CipherDecryptGcm
    | ChaChaPolyEncrypt | ChaChaPolyDecryptLength | ChaChaPolyDecrypt

  datatype CleanupOp = CipherCleanup | ChaChaPolyCleanup

  /** One struct ssh_cipher_struct as the table initialises it; a NULL
      function pointer is None. */
  datatype Descriptor = Descriptor(
    name: Option<string>,
    blocksize: nat,
    lenfieldBlocksize: nat,
    keysize: nat,
    tagSize: nat,
    setEncryptKey: Option<KeySetup>,
    setDecryptKey: Option<KeySetup>,
    encrypt: Option<BlockOp>,
    decrypt: Option<BlockOp>,
    aeadEncrypt: Option<AeadOp>,
    aeadDecryptLength: Option<AeadOp>,
    aeadDecrypt: Option<AeadOp>,
    cleanup: Option<CleanupOp>)

  function CtrEntry(name: string, keysize: nat): Descriptor
  {
    Descriptor(Some(name), 16, 0, keysize, 0,
      Some(CipherSetEncryptKey), Some(CipherSetDecryptKey),
      Some(CipherEncrypt), Some(CipherDecrypt), None, None, None, Some(CipherCleanup))
  }

  function CbcEntry(name: string, blocksize: nat, keysize: nat): Descriptor
  {
    Descriptor(Some(name), blocksize, 0, keysize, 0,
      Some(CipherSetEncryptKeyCbc), Some(CipherSetDecryptKeyCbc),
      Some(CipherEncryptCbc), Some(CipherDecryptCbc), None, None, None, Some(CipherCleanup))
  }

  function GcmEntry(name: string, keysize: nat): Descriptor
  {
    Descriptor(Some(name), 16, 4, keysize, AES_GCM_TAGLEN,
      Some(CipherSetKeyGcm), Some(CipherSetKeyGcm), None, None,
      Some(CipherEncryptGcm), Some(CipherGcmGetLength), Some(CipherDecryptGcm),
      Some(CipherCleanup))
  }

  function ChaChaPolyEntry(): Descriptor
  {
    Descriptor(Some("chacha20-poly1305@openssh.com"), 8, 4, 2 * CHACHA20_KEYLEN * 8,
      POLY1305_TAGLEN, Some(ChaChaPolySetKey), Some(ChaChaPolySetKey), None, None,
      Some(ChaChaPolyEncrypt), Some(ChaChaPolyDecryptLength), Some(ChaChaPolyDecrypt),
      Some(ChaChaPolyCleanup))
  }

  function SentinelEntry(): Descriptor
  {
    Descriptor(None, 0, 0, 0, 0, None, None, None, None, None, None, None, None)
  }

  predicate IsAead(d: Descriptor)
  {
    d.aeadEncrypt.Some? || d.aeadDecrypt.Some?
  }

  /** The shape every AEAD entry has: a 4-byte length field, a tag, the aead_*
      hooks and no plain encrypt/decrypt hooks. */
  predicate AeadShape(d: Descriptor)
  {
    d.lenfieldBlocksize == 4 && d.tagSize > 0
    && d.aeadEncrypt.Some? && d.aeadDecryptLength.Some? && d.aeadDecrypt.Some?
    && d.encrypt.None? && d.decrypt.None?
  }

  /** Every entry but the last carries a name; the last is the NULL-name sentinel. */
  predicate SentinelTerminated(t: seq<Descriptor>)
  {
    |t| > 0 && t[|t| - 1].name.None?
    && forall i :: 0 <= i < |t| - 1 ==> t[i].name.Some?
  }

  predicate NamesDistinct(t: seq<Descriptor>)
  {
    forall i, j :: 0 <= i < j < |t| && t[i].name.Some? ==> t[i].name != t[j].name
  }

  /** The key and IV the container code derives for an entry. */
  function KeyMaterialLen(d: Descriptor): nat
  {
    d.keysize / 8 + d.blocksize
  }

  const TAB_SIZE: nat := 11

  /** Entry i of ssh_ciphertab, in its compiled order; the last is the sentinel. */
  function Entry(i: nat): Descriptor
  {
    if i == 0 then CtrEntry("aes128-ctr", 128)
    else if i == 1 then CtrEntry("aes192-ctr", 192)
    else if i == 2 then CtrEntry("aes256-ctr", 256)
    else if i == 3 then CbcEntry("aes128-cbc", 16, 128)
    else if i == 4 then CbcEntry("aes192-cbc", 16, 192)
    else if i == 5 then CbcEntry("aes256-cbc", 16, 256)
    else if i == 6 then GcmEntry("aes128-gcm@openssh.com", 128)
    else if i == 7 then GcmEntry("aes256-gcm@openssh.com", 256)
    else if i == 8 then CbcEntry("3des-cbc", 8, 192)
    else if i == 9 then ChaChaPolyEntry()
    else SentinelEntry()
  }

  /** ssh_get_ciphertab. */
  function CipherTab(): (t: seq<Descriptor>)
    ensures |t| == TAB_SIZE && SentinelTerminated(t)
  {
    seq(TAB_SIZE, (i: nat) => Entry(i))
  }

  /** Every AEAD entry has the AEAD shape; every named entry has a positive
      block size and key material that fits the container code's buffer; every
      named entry that is not AEAD has both block hooks. */
  lemma CipherTabShape()
    ensures forall d :: d in CipherTab() && IsAead(d) ==> AeadShape(d)
    ensures forall d :: d in CipherTab() && d.name.Some? ==> 0 < d.blocksize && KeyMaterialLen(d) <= KEY_MATERIAL_MAX
    ensures forall d :: d in CipherTab() && d.name.Some? && !IsAead(d) ==> d.encrypt.Some? && d.decrypt.Some?
  {
  }

  /** No two entries share a name, so a name selects one entry. */
  lemma CipherTabNamesDistinct()
    ensures NamesDistinct(CipherTab())
  {
  }

  /** The first entry, before the sentinel, whose name is `name`. */
  function Lookup(t: seq<Descriptor>, name: string): (r: Option<Descriptor>)
    ensures r.Some? ==> r.value in t && r.value.name == Some(name)
    ensures r.None? && SentinelTerminated(t) ==> forall d :: d in t ==> d.name != Some(name)
  {
    if t == [] || t[0].name.None? then None
    else if t[0].name == Some(name) then Some(t[0])
    else
      var r := Lookup(t[1..], name);
      assert SentinelTerminated(t) && |t| > 1 ==> SentinelTerminated(t[1..]);
      r
  }

  /** The linear search both container routines run over the table: stops at
      the first entry with the wanted name, or at the sentinel. */
  method FindCipher(t: seq<Descriptor>, name: string) returns (i: nat)
    requires SentinelTerminated(t)
    ensures i < |t|
    ensures t[i].name.None? || t[i].name == Some(name)
    ensures forall j :: 0 <= j < i ==> t[j].name.Some? && t[j].name != Some(name)
    ensures Lookup(t, name) == if t[i].name.None? then None else Some(t[i])
  {
    i := 0;
    while t[i].name.Some?
      invariant i < |t|
      invariant forall j :: 0 <= j < i ==> t[j].name.Some? && t[j].name != Some(name)
      invariant Lookup(t, name) == Lookup(t[i..], name)
      decreases |t| - i
    {
      if t[i].name == Some(name) {
        return;
      }
      assert t[i..][1..] == t[i + 1..];
      i := i + 1;
    }
  }

  /** Every name in the table finds its own entry. */
  lemma LookupFindsEntries(k: nat)
    requires k < |CipherTab()| - 1
    ensures Lookup(CipherTab(), CipherTab()[k].name.value) == Some(CipherTab()[k])
  {
    var t := CipherTab();
    CipherTabNamesDistinct();
    assert t[k] in t;
    var r := Lookup(t, t[k].name.value);
    var j :| 0 <= j < |t| && t[j] == r.value;
    assert !(j < k) && !(k < j);
  }
}
