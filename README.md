# libssh: OpenSSH key container, mbedTLS cipher glue and GSSAPI framing

This project models three parts of libssh in Dafny and proves properties about
them.

- **The OpenSSH private-key container** (`src/pki_container_openssh.c`), the
  format of OpenSSH's PROTOCOL.key.
  - Import does the following in order:
    - strips the `-----BEGIN/END OPENSSH PRIVATE KEY-----` armour;
    - keeps the non-whitespace characters as the base64 body;
    - unpacks magic, cipher name, KDF name, KDF options, key count, public blob
      and private blob;
    - insists on one key;
    - decrypts the private section;
    - checks the two check integers, then the `1,2,3,…` padding.
  - Export builds the mirror image.
- **The mbedTLS cipher glue** (`src/libmbedcrypto.c`):
  - the sentinel-terminated cipher table and its lookup;
  - the AES-GCM `last_iv` invocation counter (section 7.1 of RFC 5647);
  - the ChaCha20-Poly1305 construction:
    - main and header key halves;
    - the 96-bit nonce built from the sequence number (section 2.3 of RFC 8439);
    - the one-time Poly1305 key taken from keystream block 0 (section 2.6 of
      RFC 8439);
    - the tag checked before any decryption;
  - the library-wide init/finalize flag.
- **GSSAPI user authentication** (`src/gssapi.c`):
  - the SSH wire form of a mechanism OID (section 3.2 of RFC 4462), with its
    encoder, decoder and the server's filter;
  - the MIC input (section 3.5 of RFC 4462);
  - the state guards of the server and client packet handlers.

Cryptographic and library primitives are uninterpreted. They enter as
function-typed fields of a parameter record (`KeyCodec`, `GcmPrimitives`,
`ChaChaPrimitives`), or as function parameters of the GSSAPI handlers. These
primitives are:

- base64;
- the key-blob codecs;
- bcrypt_pbkdf;
- AES-CBC;
- AES-GCM;
- the ChaCha20 keystream;
- Poly1305;
- the GSSAPI library calls.

Round-trip lemmas take the inverse properties they need as ghost predicates
(`Base64Inverse`, `PrivBlobInverse`, `CbcInverse`, `GcmInverse`).

Random values are inputs: the check integer, the salt and the DRBG seeding
outcome. So are the passphrase callback's answer and the session id.

Modules:

| module | contents |
|---|---|
| `Bytes` | bytes, `uint32`/`uint64`, big-endian conversions, XOR |
| `Wire` | SSH `uint32` and `string` encodings, C-string views, the `Buffer` class |
| `Ciphers` | `ssh_ciphertab` |
| `Gcm` | AES-GCM state |
| `ChaChaPoly` | ChaCha20-Poly1305 state |
| `CryptoLib` | init/finalize |
| `OpenSshKey` | the container |
| `GssapiOid` | OID framing |
| `GssapiAuth` | the session and its handlers |

Where the C code changes state, the model is a class whose methods are proved
equal to a pure specification function of the old state:

- `Wire.Buffer`;
- `Gcm.GcmCipher`;
- `ChaChaPoly.ChaChaPolyCipher`;
- `CryptoLib.Library`;
- `GssapiAuth.Session`.

The lemmas are stated about those specification functions.

## Model

| member | source | states |
|---|---|---|
| `Wire.SshString` | src/pki_container_openssh.c:551-557 | an SSH string is four length bytes followed by exactly the body |
| `Wire.GetU32` | src/pki_container_openssh.c:344 | a uint32 is read exactly when four bytes remain; it is the big-endian value of those bytes and the rest is what follows |
| `Wire.GetString` | src/pki_container_openssh.c:283-291 | a successfully read string is a body and a remainder that re-encode to exactly the input |
| `Wire.GetStringOfSshString` | src/pki_container_openssh.c:283-291 | reading an encoded string gives back the body and exactly the bytes that followed it |
| `Wire.AfterGetSshString` | src/gssapi.c:353 | ssh_buffer_get_ssh_string never grows the buffer, and leaves exactly the remainder of a successful read |
| `Wire.CName` | src/pki_container_openssh.c:283-291 | an "s" field seen as a C string is the bytes before the first NUL, with a NUL right after when it is shorter |
| `Wire.CNameOfNulFree` | src/pki_container_openssh.c:610-611 | a name without NUL bytes is read back unchanged |
| `Wire.Buffer.AddSshString` | src/pki_container_openssh.c:551-557 | packing a string appends its SSH encoding and nothing else |
| `Wire.Buffer.TakeU8` | src/pki_container_openssh.c:357 | a byte is taken only from a non-empty buffer, and it is its first byte |
| `Wire.Buffer.TakeU32` | src/pki_container_openssh.c:344 | reading a uint32 consumes four bytes on success and nothing on failure |
| `Wire.Buffer.TakeSshString` | src/gssapi.c:353 | reading a string yields the decoded body or NULL, and consumes like ssh_buffer_get_ssh_string |
| `Bytes.U32RoundTrip` | src/pki_container_openssh.c:551-557 | decoding a packed uint32 gives it back |
| `Bytes.U64RoundTrip` | src/libmbedcrypto.c:649-667 | decoding a big-endian uint64 gives it back |
| `Bytes.XorInvolutive` | src/libmbedcrypto.c:756-876 | XOR with the same keystream byte twice is the identity |
| `Bytes.CharsBytesRoundTrip` | src/gssapi.c:456-463 | Latin-1 text converted to bytes and back is unchanged |
| `Ciphers.CipherTab` | src/libmbedcrypto.c:900-1059 | the table has every entry of the fixed configuration and ends with the one NULL-name sentinel |
| `Ciphers.CipherTabShape` | src/libmbedcrypto.c:980-1039 | every AEAD entry has lenfield_blocksize 4, a nonzero tag size and aead hooks; every other named entry has encrypt and decrypt hooks; key material fits 128 bytes |
| `Ciphers.CipherTabNamesDistinct` | src/libmbedcrypto.c:900-1059 | no two entries share a name, so a lookup by name is unambiguous |
| `Ciphers.Lookup` | src/pki_container_openssh.c:127-138 | a found descriptor is in the table under that name; not found means no entry carries the name |
| `Ciphers.FindCipher` | src/pki_container_openssh.c:127-138 | the linear scan stops at the first entry carrying the name, or at the sentinel, and agrees with `Lookup` |
| `Ciphers.LookupFindsEntries` | src/libmbedcrypto.c:1061-1064 | every named entry is found by its own name |
| `Gcm.Increment` | src/libmbedcrypto.c:520 | uint64_inc keeps the width of the counter |
| `Gcm.IncrementValue` | src/libmbedcrypto.c:520 | uint64_inc adds one to the big-endian counter, wrapping to zero at 2^64 |
| `Gcm.NextIv` | src/libmbedcrypto.c:520 | a stepped IV is still 12 bytes |
| `Gcm.IvAfterValue` | src/libmbedcrypto.c:520 | n successful calls leave the 4-byte fixed field alone and add n to the 64-bit invocation counter |
| `Gcm.IvsDistinct` | src/libmbedcrypto.c:514-520 | until the counter wraps, no IV is used twice |
| `Gcm.SealSpec` | src/libmbedcrypto.c:486-521 | a successful seal keeps the length field in clear and yields a tag of tag_size bytes |
| `Gcm.OpenSpec` | src/libmbedcrypto.c:524-557 | a successful open yields exactly encrypted_size bytes |
| `Gcm.SealThenOpen` | src/libmbedcrypto.c:486-557 | opening a sealed packet with the same key and IV returns the plaintext payload |
| `Gcm.GcmCipher.constructor` | src/libmbedcrypto.c:982-1008 | a fresh cipher carries its descriptor's sizes and no key |
| `Gcm.GcmCipher.SetKey` | src/libmbedcrypto.c:240-267 | on success the key is set and the first 12 IV bytes are stored verbatim in last_iv; on failure no key is kept |
| `Gcm.GcmCipher.GetLength` | src/libmbedcrypto.c:470-483 | the length field is copied unchanged and the call succeeds |
| `Gcm.GcmCipher.Encrypt` | src/libmbedcrypto.c:486-521 | the output is the sealed packet and the tag, and last_iv steps once, only on success; on failure last_iv is unchanged, and the payload and tag are taken to be as they were (see "## Left out") |
| `Gcm.GcmCipher.Decrypt` | src/libmbedcrypto.c:524-557 | on success the plaintext is written and last_iv steps once; on failure SSH_ERROR and last_iv unchanged, with out taken to be as it was (see "## Left out") |
| `ChaChaPoly.KeystreamSplit` | src/libmbedcrypto.c:686-706 | keystream bytes are taken consecutively: n + m bytes from a position are n bytes from it followed by m bytes from n further on |
| `ChaChaPoly.CryptSplit` | src/libmbedcrypto.c:692-697 | mbedtls_chacha20_update is incremental: one update over a + b equals an update over a followed by one over b from the advanced context, which is why spending one block in packet setup starts the payload at block 1 |
| `ChaChaPoly.XorSeqInvolutive` | src/libmbedcrypto.c:756-876 | applying the same keystream twice restores the data |
| `ChaChaPoly.XorSeqZeros` | src/libmbedcrypto.c:686-706 | encrypting zeros yields the keystream itself, which is how the Poly1305 key is derived |
| `ChaChaPoly.Crypt` | src/libmbedcrypto.c:756-876 | stream encryption preserves length |
| `ChaChaPoly.Nonce` | src/libmbedcrypto.c:649-667 | the nonce is 12 bytes: four zero bytes, then the sequence number big-endian |
| `ChaChaPoly.NonceInjective` | src/libmbedcrypto.c:649-667 | distinct sequence numbers give distinct nonces |
| `ChaChaPoly.PolyKeyIsKeystream` | src/libmbedcrypto.c:686-706 | the one-time Poly1305 key is the first 32 keystream bytes at the context's position |
| `ChaChaPoly.SealSpec` | src/libmbedcrypto.c:821-876 | the sealed packet has the length of the input |
| `ChaChaPoly.OpenLengthSpec` | src/libmbedcrypto.c:719-753 | the decrypted length field is four bytes |
| `ChaChaPoly.OpenFrom` | src/libmbedcrypto.c:756-818 | the packet opens exactly when Poly1305 over the first 4+encrypted_size bytes equals the 16 bytes after them, and then yields encrypted_size bytes |
| `ChaChaPoly.SealThenOpen` | src/libmbedcrypto.c:719-876 | decrypting a sealed packet recovers both the length field and the payload |
| `ChaChaPoly.ForgedTagRejected` | src/libmbedcrypto.c:763-805 | any tag other than the sealed one is rejected |
| `ChaChaPoly.ChaChaPolyCipher.constructor` | src/libmbedcrypto.c:594-602 | a fresh cipher holds no schedule |
| `ChaChaPoly.ChaChaPolyCipher.Cleanup` | src/libmbedcrypto.c:573-591 | cleanup drops the schedule and the initialised mark, leaving the contexts alone |
| `ChaChaPoly.ChaChaPolyCipher.SetKey` | src/libmbedcrypto.c:594-640 | success exactly when both halves key; main from key bytes 0..31, header from bytes 32..63; failure leaves no schedule |
| `ChaChaPoly.SetIvSpec` | src/libmbedcrypto.c:645-674 | SSH_OK exactly when both mbedtls_chacha20_starts calls succeed, and then both streams restart at counter 0 under the sequence-number nonce; on either failure SSH_ERROR; the keys and the Poly1305 context never change; a reliable mbedTLS always gives SSH_OK |
| `ChaChaPoly.ChaChaPolyCipher.SetIv` | src/libmbedcrypto.c:645-674 | return code and new contexts are exactly `SetIvSpec` of the old ones |
| `ChaChaPoly.PacketSetupSpec` | src/libmbedcrypto.c:677-716 | SSH_OK or SSH_ERROR; on SSH_OK the streams were restarted only when encrypting, one 64-byte payload block was consumed and Poly1305 holds the key it gave with no message; decryption leaves the header stream alone; a reliable mbedTLS always gives SSH_OK |
| `ChaChaPoly.ChaChaPolyCipher.PacketSetup` | src/libmbedcrypto.c:677-716 | return code and new contexts are exactly `PacketSetupSpec`, including the SSH_ERROR returns of set_iv, chacha20_update and poly1305_starts |
| `ChaChaPoly.DecryptLengthSpec` | src/libmbedcrypto.c:719-753 | len < 4 is SSH_ERROR with nothing changed; four bytes are written exactly when SSH_OK is returned, and they are the length field decrypted with the header key under this sequence number; a reliable mbedTLS succeeds whenever len >= 4 |
| `ChaChaPoly.ChaChaPolyCipher.DecryptLength` | src/libmbedcrypto.c:719-753 | return code, new contexts and out are exactly `DecryptLengthSpec`; out is untouched on every SSH_ERROR return |
| `ChaChaPoly.AeadDecryptSpec` | src/libmbedcrypto.c:756-818 | plaintext is written exactly when SSH_OK is returned and is then what `OpenFrom` opens; a packet whose tag does not match is SSH_ERROR whatever mbedTLS does; with a reliable mbedTLS the result is exactly `OpenFrom` |
| `ChaChaPoly.ChaChaPolyCipher.AeadDecrypt` | src/libmbedcrypto.c:756-818 | return code, new contexts and out are exactly `AeadDecryptSpec`; out is untouched on every SSH_ERROR return |
| `ChaChaPoly.AeadEncryptSpec` | src/libmbedcrypto.c:821-876 | what is written to out before the first failing call is 0, 4 or len bytes and always a prefix of the sealed packet; the tag is written only when every call succeeded, and then out and tag are exactly `SealSpec`; a reliable mbedTLS always completes |
| `ChaChaPoly.ChaChaPolyCipher.AeadEncrypt` | src/libmbedcrypto.c:821-876 | new contexts, the written prefix of out and the tag are exactly `AeadEncryptSpec`; bytes past the written prefix and an unwritten tag stay as they were |
| `ChaChaPoly.ReceiveSealed` | src/libmbedcrypto.c:719-876 | a packet sealed by aead_encrypt is read back by decrypt_length then aead_decrypt under the same keys and sequence number: a successful length decryption gives the length field, a successful payload decryption gives the payload, and with a reliable mbedTLS both succeed |
| `CryptoLib.InitIdempotent` | src/libmbedcrypto.c:1071-1073 | init twice equals init once |
| `CryptoLib.FinalizeThenInit` | src/libmbedcrypto.c:1066-1118 | finalize restores the pristine state, so a later init behaves like the first |
| `CryptoLib.RunKeepsInvariant` | src/libmbedcrypto.c:1066-1118 | across any sequence of init and finalize calls a seeded generator exists only while initialised |
| `CryptoLib.Library.constructor` | src/libmbedcrypto.c:47 | the library starts uninitialised |
| `CryptoLib.Library.CryptoInit` | src/libmbedcrypto.c:1066-1101 | returns SSH_OK and moves the state as `InitSpec` |
| `CryptoLib.Library.CryptoFinalize` | src/libmbedcrypto.c:1108-1118 | moves the state as `FinalizeSpec` |
| `OpenSshKey.CStr` | src/pki_container_openssh.c:252-261 | the text a C string function sees is the prefix before the first NUL |
| `OpenSshKey.CStrOfNulFree` | src/pki_container_openssh.c:252-261 | a NUL-free text is seen whole |
| `OpenSshKey.FindFrom` | src/pki_container_openssh.c:261 | strstr returns the first occurrence at or after the start, and none only when there is none |
| `OpenSshKey.SkipToken` | src/pki_container_openssh.c:257-260 | the scan stops at the first whitespace or the end, having passed non-space characters only |
| `OpenSshKey.StripSpace` | src/pki_container_openssh.c:270-276 | the kept characters contain no whitespace and no NUL |
| `OpenSshKey.StripSpaceAppend` | src/pki_container_openssh.c:270-276 | stripping distributes over concatenation, so order is kept |
| `OpenSshKey.StripSpaceOfSpaceless` | src/pki_container_openssh.c:270-276 | text without whitespace is kept whole |
| `OpenSshKey.ArmorBody` | src/pki_container_openssh.c:252-276 | a body exists only when the text begins with the begin marker and the end marker occurs after it; the body is space-free and NUL-free |
| `OpenSshKey.StripSpaceStep` | src/pki_container_openssh.c:270-275 | one loop step keeps the character exactly when it is not whitespace |
| `OpenSshKey.ExtractBase64` | src/pki_container_openssh.c:252-276 | the pointer walk and copy loop produce exactly `ArmorBody` |
| `OpenSshKey.CopyNonSpace` | src/pki_container_openssh.c:270-276 | the copy loop fills the buffer with exactly the non-space characters of the range, in order |
| `OpenSshKey.ArmorCStr` | src/pki_container_openssh.c:648-655 | exported armour contains no NUL |
| `OpenSshKey.ArmorFindEnd` | src/pki_container_openssh.c:261 | in exported armour the end marker is found right after the base64 line |
| `OpenSshKey.ArmorShape` | src/pki_container_openssh.c:648-655 | exported armour starts with the begin marker followed by a newline, the base64 and a newline |
| `OpenSshKey.ArmorRoundTrip` | src/pki_container_openssh.c:252-276 | importing the armour of a base64 text extracts exactly that text |
| `OpenSshKey.StripFramed` | src/pki_container_openssh.c:270-276 | the newlines around the base64 line are dropped |
| `OpenSshKey.PassphraseBytes` | src/pki_container_openssh.c:181-198 | there is no passphrase exactly when none is given and either no callback exists or it fails; a passphrase has no NUL |
| `OpenSshKey.Fit` | src/pki_container_openssh.c:200-219 | what an opaque primitive writes into an n-byte buffer (the key material, the blob decrypted in place) has n bytes, and is the primitive's output when that already has n bytes |
| `OpenSshKey.KdfOptionsRoundTrip` | src/pki_container_openssh.c:156-165 | the "Sd" unpack of packed options returns the salt and rounds |
| `OpenSshKey.DeriveKey` | src/pki_container_openssh.c:166-210 | key and IV have keysize/8 and blocksize bytes; derivation fails when material exceeds 128 bytes, when there is no passphrase or when bcrypt fails, and only then |
| `OpenSshKey.DecryptAsWrittenGuards` | src/pki_container_openssh.c:121-219 | "none" returns the blob untouched without checking the KDF; an unknown cipher, a KDF other than bcrypt or a missing passphrase fails; a NULL decrypt hook is reached only for a table entry without one; success keeps a block-aligned length |
| `OpenSshKey.DecryptCorrected` | src/pki_container_openssh.c:121-222 | the corrected decrypt agrees with the code wherever the code does not call a NULL hook, and refuses every AEAD cipher |
| `OpenSshKey.AeadCipherReachesNullDecrypt` | src/pki_container_openssh.c:213-219 | a container naming aes256-gcm with bcrypt, a passphrase and block-aligned data reaches the NULL decrypt call |
| `OpenSshKey.NullDecryptForGcm` | src/pki_container_openssh.c:213-219 | the NULL call follows from any options that unpack and any key derivation that succeeds |
| `OpenSshKey.EncryptGuards` | src/pki_container_openssh.c:419-492 | "none" leaves the data; an unknown cipher, a KDF other than bcrypt or a missing passphrase fails; success preserves length |
| `OpenSshKey.ExportCipherHasEncrypt` | src/pki_container_openssh.c:608-615 | the cipher export uses is the AES-128-CBC table entry, which has an encrypt hook |
| `OpenSshKey.ExportEncryptIsCbc` | src/pki_container_openssh.c:608-615 | export's encryption is CBC encryption under the bcrypt-derived key |
| `OpenSshKey.PrivateKeyDecrypt` | src/pki_container_openssh.c:101-222 | on success the blob holds the decrypted bytes and SSH_OK is returned; on failure SSH_ERROR with the blob untouched (corrected: a table entry without a decrypt hook is refused with SSH_ERROR where the C calls through NULL at line 216; see `OpenSshKey.DecryptCorrected`) |
| `OpenSshKey.DecryptWithEntry` | src/pki_container_openssh.c:140-221 | the in-place decryption with a found entry matches `DecryptWith` (corrected: a table entry without a decrypt hook is refused with SSH_ERROR where the C calls through NULL at line 216; see `OpenSshKey.DecryptCorrected`) |
| `OpenSshKey.PrivateKeyEncrypt` | src/pki_container_openssh.c:401-493 | on success the buffer holds the encrypted bytes; on failure SSH_ERROR with the buffer untouched |
| `OpenSshKey.EncryptWithEntry` | src/pki_container_openssh.c:438-492 | the in-place encryption with a found entry matches `EncryptWith` |
| `OpenSshKey.MagicField` | src/pki_container_openssh.c:283-285 | the magic field is strlen(MAGIC)+1 bytes |
| `OpenSshKey.MagicFieldOk` | src/pki_container_openssh.c:296-300 | the exported magic passes import's magic check |
| `OpenSshKey.ContainerRoundTrip` | src/pki_container_openssh.c:283-291 | unpacking a packed container returns every field in order, with names read as C strings and one key |
| `OpenSshKey.ImportPrivkeyBlob` | src/pki_container_openssh.c:58-95 | a successful blob import consumes input and requires a known key type name |
| `OpenSshKey.ParsePrivate` | src/pki_container_openssh.c:344-364 | a private key is returned only when the section starts with two equal check integers |
| `OpenSshKey.ImportChecks` | src/pki_container_openssh.c:252-349 | an imported key implies the armour, base64, unpack, magic and nkeys == 1 checks passed; a public import reads only the public blob; a private one decrypts and parses the private section |
| `OpenSshKey.PublicImportIgnoresSecrets` | src/pki_container_openssh.c:311-321 | a public-only import never depends on the passphrase, the decryption or the private blob parser |
| `OpenSshKey.ImportPrivkeyBlobFrom` | src/pki_container_openssh.c:58-95 | the buffer-consuming blob import returns what `ImportPrivkeyBlob` returns and leaves its remainder |
| `OpenSshKey.VerifyPadding` | src/pki_container_openssh.c:356-364 | the padding loop accepts exactly a remainder of 1,2,3,… |
| `OpenSshKey.OpensshImport` | src/pki_container_openssh.c:230-381 | the import procedure returns exactly `ImportSpec` (corrected: a table entry without a decrypt hook is refused with SSH_ERROR where the C calls through NULL at line 216; see `OpenSshKey.DecryptCorrected`) |
| `OpenSshKey.ImportDecoded` | src/pki_container_openssh.c:283-364 | the steps after base64 decoding return exactly `ImportContainer` |
| `OpenSshKey.ImportPrivateSection` | src/pki_container_openssh.c:334-364 | the private-section steps return exactly `ParsePrivate` |
| `OpenSshKey.PrivkeyImport` | src/pki_container_openssh.c:383-389 | the private wrapper is a private import |
| `OpenSshKey.PubkeyImport` | src/pki_container_openssh.c:391-394 | the public wrapper is a public import without a passphrase |
| `OpenSshKey.Padding` | src/pki_container_openssh.c:566-572 | the padding brings the length to a multiple of 16 with at most 15 bytes, and is valid padding for import |
| `OpenSshKey.AppendPadding` | src/pki_container_openssh.c:566-572 | the padding loop appends exactly `Padding` |
| `OpenSshKey.PaddedSection` | src/pki_container_openssh.c:551-572 | the private section is a whole number of 16-byte blocks |
| `OpenSshKey.PrivkeyExport` | src/pki_container_openssh.c:503-691 | the export procedure returns exactly `ExportSpec` |
| `OpenSshKey.ExportPadded` | src/pki_container_openssh.c:574-691 | the steps after padding return exactly `ExportSection` |
| `OpenSshKey.BuildPrivateSection` | src/pki_container_openssh.c:541-572 | the private buffer holds two equal check integers, the blob, an empty comment and the padding |
| `OpenSshKey.WriteContainer` | src/pki_container_openssh.c:623-690 | packing, base64 and armour return exactly `Finish` |
| `OpenSshKey.ExportNames` | src/pki_container_openssh.c:627-628 | the names written are "none" without a passphrase, or "aes128-cbc" and "bcrypt" with one, as import reads them |
| `OpenSshKey.PrivBlobReadsBack` | src/pki_container_openssh.c:58-95 | an exported private blob imports back to the key, leaving what followed |
| `OpenSshKey.PrivateSectionRoundTrip` | src/pki_container_openssh.c:344-364 | the exported private section passes the check-integer and padding checks and yields the key |
| `OpenSshKey.DecryptOfExportEncrypt` | src/pki_container_openssh.c:401-493 | decrypting export's encryption with the same passphrase and salt restores the section |
| `OpenSshKey.ImportOfArmoredContainer` | src/pki_container_openssh.c:230-381 | importing an exported container gives the public-blob import, or decryption followed by private-section parsing |
| `OpenSshKey.ExportThenImport` | src/pki_container_openssh.c:503-691 | an exported key imports back privately to the same key, whether or not it was encrypted, given the same passphrase |
| `OpenSshKey.ExportThenImportPublic` | src/pki_container_openssh.c:611-632 | a public import of an export yields the import of the exported public blob |
| `GssapiOid.EncodeOid` | src/gssapi.c:774-785 | a wire OID has two header bytes followed by exactly the elements |
| `GssapiOid.OidFromString` | src/gssapi.c:803-837 | NULL data, length <= 2 and length > 256 are refused; an accepted string is the encoding of the result, a 1- to 254-byte element string |
| `GssapiOid.OidRoundTrip` | src/gssapi.c:774-837 | decoding the client's encoding returns the elements exactly for 1 to 254 elements, and refuses the rest |
| `GssapiOid.WrapOids` | src/gssapi.c:774-785 | the wrap loop produces the encoding of every selected OID, in order |
| `GssapiOid.FilterOid` | src/gssapi.c:217-235 | an entry passes only with length >= 2, the right tag and a length byte equal to the element count; the result is the elements |
| `GssapiOid.FilterVersusDecoder` | src/gssapi.c:217-235 | the server filter and the client decoder disagree exactly on the empty and the 255-element OID, which only the filter accepts |
| `GssapiOid.FilterOids` | src/gssapi.c:217-242 | the loop's count and set are exactly `MatchCount` and `MatchSet` |
| `GssapiOid.MatchSetMembers` | src/gssapi.c:217-235 | an OID is in the result set exactly when the server supports it and some entry passes the filter with it |
| `GssapiOid.MatchCountBounds` | src/gssapi.c:217-242 | the distinct matches never outnumber oid_count, which never exceeds the entries; a zero count means an empty set |
| `GssapiOid.FirstSelectedIsFirst` | src/gssapi.c:276-297 | the selection is the earliest entry naming an acquired OID, and none exists otherwise |
| `GssapiOid.SelectOid` | src/gssapi.c:276-297 | the selection loop returns exactly that earliest entry |
| `GssapiAuth.InitProperties` | src/gssapi.c:45-59 | init keeps an existing context, creates a fresh one otherwise, touches nothing else, is idempotent, and after free creates a fresh context again |
| `GssapiAuth.MicDataLayout` | src/gssapi.c:456-463 | the MIC data reads back as session id, SSH2_MSG_USERAUTH_REQUEST, user, "ssh-connection", "gssapi-with-mic" |
| `GssapiAuth.MicDataInjective` | src/gssapi.c:456-463 | different session ids or users give different MIC data |
| `GssapiAuth.BuildMic` | src/gssapi.c:439-471 | the packing procedure returns nothing without a session id or user, and otherwise the MIC data whose five-field layout `MicDataLayout` proves |
| `GssapiAuth.TokenServerTransitions` | src/gssapi.c:334-435 | outside RCV_TOKEN the handler only sets an error; RCV_MIC is reached exactly when a token was read and the callback succeeded or the library completed; nothing else of the context changes |
| `GssapiAuth.MicOutcome` | src/gssapi.c:475-556 | the handler never changes the context or the auth state; it replies success exactly when the MIC was accepted and the callback granted success; an accepted MIC with a callback gets the callback's verdict (the default reply when it denies); an accepted MIC with no callback sends nothing; a refused MIC gets the default reply |
| `GssapiAuth.ServerHandlersKeepUser` | src/gssapi.c:150-556 | the server handlers keep a user name recorded whenever a context has progressed beyond NONE |
| `GssapiAuth.HandleUserauthNoMatch` | src/gssapi.c:217-242 | no supported OID among the entries gives the default reply and SSH_OK |
| `GssapiAuth.HandleUserauthSelects` | src/gssapi.c:243-309 | when an entry names an acquired OID, the first one is chosen, the context moves to RCV_TOKEN with the user recorded, and the response carries that entry's OID |
| `GssapiAuth.ServerHandshake` | src/gssapi.c:150-556 | a chosen mechanism, a completing token and a verifying MIC lead through RCV_TOKEN and RCV_MIC to a success reply |
| `GssapiAuth.ResponseTransitions` | src/gssapi.c:839-911 | outside GSSAPI_REQUEST_SENT the handler errors; every failure sets the error state; GSSAPI_TOKEN follows exactly an accepted response whose first token is non-empty |
| `GssapiAuth.TokenClientTransitions` | src/gssapi.c:960-1039 | outside GSSAPI_TOKEN the handler errors; MIC_SENT is reached exactly on a completed context; the error state exactly when no token was read or the library failed |
| `GssapiAuth.MicSentWithoutMic` | src/gssapi.c:1029-1032 | a completed context reaches MIC_SENT even when no MIC could be computed and none was sent |
| `GssapiAuth.ClientHandshake` | src/gssapi.c:712-1039 | a request, a response with the encoded OID and a completing token lead through REQUEST_SENT and TOKEN to MIC_SENT with the MIC sent last |
| `GssapiAuth.Session.constructor` | src/gssapi.c:45-59 | a session starts without a GSSAPI context and with nothing sent |
| `GssapiAuth.Session.Init` | src/gssapi.c:45-59 | returns SSH_OK and moves the session as `InitSpec` |
| `GssapiAuth.Session.Free` | src/gssapi.c:97-116 | drops the context, as `FreeSpec` |
| `GssapiAuth.Session.AuthReplyDefault` | src/gssapi.c:239-242 | sends the default reply and changes nothing else |
| `GssapiAuth.Session.SendResponse` | src/gssapi.c:131-144 | sends the chosen OID and moves the auth state to GSSAPI token |
| `GssapiAuth.Session.HandleUserauth` | src/gssapi.c:150-309 | return code and new state are those of `HandleUserauthSpec` |
| `GssapiAuth.Session.TokenServer` | src/gssapi.c:334-435 | the new state is `TokenServerSpec`; the token string is consumed only when the guard passes |
| `GssapiAuth.Session.Mic` | src/gssapi.c:475-556 | the new state is `MicSpec`; the MIC string is consumed |
| `GssapiAuth.Session.SendAuthMic` | src/gssapi.c:597-627 | sends the request with the wrapped OIDs and moves to GSSAPI_REQUEST_SENT |
| `GssapiAuth.Session.AuthMic` | src/gssapi.c:712-801 | return code and new state are those of `AuthMicSpec` |
| `GssapiAuth.Session.Response` | src/gssapi.c:839-911 | the new state is `ResponseSpec`; the OID string is consumed only in GSSAPI_REQUEST_SENT |
| `GssapiAuth.Session.SendMic` | src/gssapi.c:913-958 | the new state is `SendMicSpec`; SSH_OK exactly when a MIC message was sent |
| `GssapiAuth.Session.TokenClient` | src/gssapi.c:960-1039 | the new state is `TokenClientSpec`; the token string is consumed only when the guard passes |

## Left out

- Allocation failures (`ssh_buffer_new`, `malloc` and `ssh_string_new` returning NULL) are not modelled. Every allocation succeeds.
- Memory zeroing, `SAFE_FREE` and secure buffers are not modelled, because they do not affect any returned value.
- Logging and hex dumps are left out because they are output only.
- The OpenSSH container needs these primitives, which are parameters: base64 encoding and decoding, bcrypt_pbkdf, the key-type lookup, the random number source, and the public and private key-blob codecs.
- pki_openssh_import_privkey_blob is modelled only as its field layout. It reads the key-type name, and the key-type-specific parser is a parameter.
- The CBC/CTR update/finish juggling in src/libmbedcrypto.c:327-466 is an opaque block operation. It depends on mbedTLS's internal block caching.
- The HMAC wrappers, ssh_kdf and ssh_reseed are not modelled. They wrap library calls that cannot be seen.
- The HAVE_BLOWFISH and WITH_INSECURE_NONE variants are not modelled. The configuration is fixed with GCM and ChaCha20-Poly1305 enabled.
- Gcm.GcmCipher.Encrypt: a failing mbedtls_gcm_crypt_and_tag is taken to leave the payload part of out and the tag as they were. mbedTLS may already have written into them.
- Gcm.GcmCipher.Decrypt: a failing mbedtls_gcm_auth_decrypt, tag mismatch included, is taken to leave out as it was. mbedTLS may already have written into it.
- A failing mbedTLS ChaCha20 or Poly1305 call (`ChaChaPoly.MbedCall`) is taken to leave its context and its output buffer as they were. Its outcome is a parameter. What mbedTLS leaves behind after a failure is not modelled.
- The ChaCha20 fallback copy in ssh_crypto_init (src/libmbedcrypto.c:1084-1096) is not modelled. It only matters when the mbedTLS build lacks ChaCha20.
- Every GSSAPI library call is a parameter, as are the callbacks and the outcome of ssh_gssapi_match. The library calls are gss_indicate_mechs, gss_import_name, gss_acquire_cred, gss_accept_sec_context, gss_init_sec_context, gss_get_mic and gss_verify_mic.
- These GSSAPI handles are not modelled: the security context, the client credentials, the delegation flags, client_name/canonic_user, and the hostname formatting. None of them is tested by a state guard.
- Packet sending is assumed to succeed. Each sent message is appended to the session's outgoing sequence.
- ssh_gssapi_get_creds and ssh_gssapi_set_creds are not modelled, because they only pass a handle through.
- GssapiAuth.HandleUserauthSpec: when no client entry names an acquired OID, the C selection loop runs past the end of the array and reads out of bounds. The model returns SSH_ERROR there instead.
- GssapiAuth.BuildMic: a NULL user name in ssh_gssapi_build_mic is treated as a failure to build the MIC.
- GssapiAuth.ResponseSpec: a response that arrives with no GSSAPI context is treated as a no-op on the context.
- GssapiAuth.Session.AuthReplyDefault: the return value of ssh_auth_reply_default is taken as SSH_OK.
- GssapiAuth.Session.SendAuthMic: always succeeds, because packet sending is assumed to succeed.
- OpenSshKey.PassphraseBytes: the 128-byte callback buffer is not modelled. The callback's answer is taken as given, up to its first NUL.
- OpenSshKey.Fit: the output of bcrypt_pbkdf and of the opaque cipher is cut or zero-extended to the length of the buffer it is written into. The C code writes exactly that many bytes; what the primitives do beyond that length is not modelled.
- Wire.GetU32 and the other buffer functions do not apply ssh_buffer's 32-bit length limits above the SSH string bound.
- These constants come from libssh headers that are outside the model: OPENSSH_HEADER_BEGIN/END, OPENSSH_AUTH_MAGIC, SSH_OID_TAG and the message numbers. Their values follow OpenSSH's PROTOCOL.key and RFC 4462.

## Findings

| source | as written | input that shows it | evidently intended | confidence | as-written member | corrected member |
|---|---|---|---|---|---|---|
| src/pki_container_openssh.c:213-219 | pki_private_key_decrypt unconditionally calls `cipher.decrypt` for any table entry other than "none" | a container whose cipher name is `aes256-gcm@openssh.com` (or `aes128-gcm@openssh.com`, `chacha20-poly1305@openssh.com`), KDF `bcrypt`, a block-aligned private blob and any passphrase: these AEAD entries have no `decrypt` hook, so the call goes through a NULL pointer | refuse ciphers without a `decrypt` hook with SSH_ERROR, as an unsupported cipher | not executed | `OpenSshKey.AeadCipherReachesNullDecrypt` | `OpenSshKey.DecryptCorrected` |
