/**
  Authenticated encryption as the key store uses it: a fresh nonce in front of the
  AES-GCM output, with the length checks of the wrapper. AES-GCM itself is a parameter.
 */
module Aead {
  import opened Bytes
  import opened Wrappers

  const KEY_LEN: nat := 32
  const NONCE_LEN: nat := 12
  const TAG_LEN: nat := 16

  /** AES-GCM: encrypt and decrypt take key, nonce, text and associated data. */
  datatype Gcm = Gcm(encryptor: (bytes, bytes, bytes, bytes) -> bytes,
                     decryptor: (bytes, bytes, bytes, bytes) -> Option<bytes>)

  function GcmEncrypt(g: Gcm, key: bytes, nonce: bytes, plain: bytes, aad: bytes): bytes {
    g.encryptor(key, nonce, plain, aad)
  }

  function GcmDecrypt(g: Gcm, key: bytes, nonce: bytes, cipher: bytes, aad: bytes): Option<bytes> {
    g.decryptor(key, nonce, cipher, aad)
  }

  /** Decryption inverts encryption under the same key, nonce and associated data; the tag adds 16 bytes. */
  ghost predicate Lawful(g: Gcm) {
    && (forall key, nonce, plain, aad :: |GcmEncrypt(g, key, nonce, plain, aad)| == |plain| + TAG_LEN)
    && (forall key, nonce, plain, aad ::
          GcmDecrypt(g, key, nonce, GcmEncrypt(g, key, nonce, plain, aad), aad) == Some(plain))
  }

  /** Decryption accepts nothing but what encryption makes under the same key, nonce and associated data. */
  ghost predicate Authentic(g: Gcm) {
    forall key, nonce, cipher, aad :: GcmDecrypt(g, key, nonce, cipher, aad).Some? ==>
      cipher == GcmEncrypt(g, key, nonce, GcmDecrypt(g, key, nonce, cipher, aad).value, aad)
  }

  /** Nonce, then ciphertext and tag; an error for a key of the wrong length. */
  function Seal(g: Gcm, key: bytes, nonce: bytes, plain: bytes, aad: bytes): Option<bytes>
    requires |nonce| == NONCE_LEN
  {
    if |key| != KEY_LEN then None else Some(nonce + GcmEncrypt(g, key, nonce, plain, aad))
  }

  function Open(g: Gcm, key: bytes, blob: bytes, aad: bytes): Option<bytes> {
    if |key| != KEY_LEN then None
    else if |blob| < NONCE_LEN + TAG_LEN then None
    else GcmDecrypt(g, key, blob[..NONCE_LEN], blob[NONCE_LEN..], aad)
  }

  /** What is sealed under a 32-byte key opens under the same key and associated data. */
  lemma OpenSeal(g: Gcm, key: bytes, nonce: bytes, plain: bytes, aad: bytes)
    requires Lawful(g) && |nonce| == NONCE_LEN && |key| == KEY_LEN
    ensures Seal(g, key, nonce, plain, aad).Some?
    ensures Open(g, key, Seal(g, key, nonce, plain, aad).value, aad) == Some(plain)
  {
    var blob := Seal(g, key, nonce, plain, aad).value;
    assert blob[..NONCE_LEN] == nonce && blob[NONCE_LEN..] == GcmEncrypt(g, key, nonce, plain, aad);
  }

  /** Exactly what was sealed under the key with the associated data opens, whatever comes in. */
  lemma OpensExactlySealed(g: Gcm, key: bytes, blob: bytes, aad: bytes, plain: bytes)
    requires Lawful(g) && Authentic(g)
    ensures Open(g, key, blob, aad) == Some(plain)
      <==> exists nonce :: |nonce| == NONCE_LEN && Seal(g, key, nonce, plain, aad) == Some(blob)
  {
    if Open(g, key, blob, aad) == Some(plain) {
      var nonce := blob[..NONCE_LEN];
      assert blob == nonce + blob[NONCE_LEN..];
      assert |nonce| == NONCE_LEN && Seal(g, key, nonce, plain, aad) == Some(blob);
    }
    if exists nonce :: |nonce| == NONCE_LEN && Seal(g, key, nonce, plain, aad) == Some(blob) {
      var nonce :| |nonce| == NONCE_LEN && Seal(g, key, nonce, plain, aad) == Some(blob);
      OpenSeal(g, key, nonce, plain, aad);
    }
  }

  /** The laws can be met: they ask nothing contradictory of AES-GCM. */
  lemma LawfulExists() returns (g: Gcm)
    ensures Lawful(g) && Authentic(g)
  {
    var tag: bytes := [0, 0, 0, 0, 0, 0, 0, 0, 0, 0, 0, 0, 0, 0, 0, 0];
    g := Gcm((key, nonce, plain, aad) => plain + tag,
             (key, nonce, cipher, aad) =>
               if |cipher| >= TAG_LEN && cipher[|cipher| - TAG_LEN..] == tag
               then Some(cipher[..|cipher| - TAG_LEN]) else None);
    forall key, nonce, plain, aad
      ensures GcmDecrypt(g, key, nonce, GcmEncrypt(g, key, nonce, plain, aad), aad) == Some(plain)
    {
      assert (plain + tag)[..|plain|] == plain && (plain + tag)[|plain|..] == tag;
    }
    forall key, nonce, cipher, aad | GcmDecrypt(g, key, nonce, cipher, aad).Some?
      ensures cipher == GcmEncrypt(g, key, nonce, GcmDecrypt(g, key, nonce, cipher, aad).value, aad)
    {
      assert cipher == cipher[..|cipher| - TAG_LEN] + cipher[|cipher| - TAG_LEN..];
    }
  }
}
