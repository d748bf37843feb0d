/**
 security/key_unlock.py and models/key_unlock.py: a GPG key's passphrase sealed
 once per unlock method.  The ideal cryptography is that of module VaultSeal.
 */
module UnlockSlots {
  import opened Wrappers
  import opened Bytes
  import VaultModel
  import VaultSeal

  const MAX_KEY_SECRET_LEN := 200
  const MAX_WRAPPED_SECRET_LENGTH := 256
  const TOKEN_SECRET_LEN := 32
  const CIPHER := VaultModel.ChaCha20Poly1305

  /** What identifies one token binding. */
  datatype Credential = Credential(id: bytes, salt: bytes, title: string)

  datatype UnlockSlot =
    | PassphraseSlot(wrapped: bytes, nonce: bytes, kdf: VaultModel.KdfFields)
    | FidoSlot(wrapped: bytes, nonce: bytes, fido: Credential)

  predicate ValidSlot(s: UnlockSlot) {
    && 0 < |s.wrapped| <= MAX_WRAPPED_SECRET_LENGTH
    && |s.nonce| == VaultModel.NONCE_LEN
    && (s.PassphraseSlot? ==> VaultModel.ValidParams(s.kdf.ToParams()))
  }

  datatype SlotError = BadSecret | BadTokenSecret | Sealing | InvalidSlot | Decryption

  /** The two domain separators. */
  const PASSPHRASE_DATA := EncodeAscii("gpg-meister-key-unlock/1:slot:passphrase")
  const FIDO_DATA := EncodeAscii("gpg-meister-key-unlock/1:slot:fido")

  /** `slot_associated_data`. */
  function DataOf(s: UnlockSlot): bytes { if s.FidoSlot? then FIDO_DATA else PASSPHRASE_DATA }

  /** `check_secret`. */
  predicate SecretOk(s: bytes) { 0 < |s| <= MAX_KEY_SECRET_LEN && 0 !in s && 10 !in s && 13 !in s }

  function Sealed(x: VaultSeal.Crypto, key: bytes, nonce: bytes, ad: bytes, secret: bytes): Result<bytes, SlotError> {
    match VaultSeal.AeadEncrypt(x, CIPHER, key, nonce, ad, secret) case Err(_) => Err(Sealing) case Ok(ct) => Ok(ct)
  }

  /** AEAD decryption, then `_secret_from_bytes`. */
  function Unsealed(x: VaultSeal.Crypto, key: bytes, nonce: bytes, ad: bytes, wrapped: bytes): Result<bytes, SlotError> {
    match VaultSeal.AeadDecrypt(x, CIPHER, key, nonce, ad, wrapped)
    case Err(_) => Err(Decryption)
    case Ok(raw) => if 0 < |raw| <= MAX_KEY_SECRET_LEN then Ok(raw) else Err(Decryption)
  }

  function Checked(s: UnlockSlot): Result<UnlockSlot, SlotError> { if ValidSlot(s) then Ok(s) else Err(InvalidSlot) }

  /** `wrap_with_passphrase`. */
  function WrapWithPassphrase(x: VaultSeal.Crypto, secret: bytes, passphrase: bytes, params: VaultModel.KdfParams,
                              salt: bytes, nonce: bytes): Result<UnlockSlot, SlotError> {
    if !SecretOk(secret) then Err(BadSecret)
    else
      match Sealed(x, x.derive(passphrase, salt, params), nonce, PASSPHRASE_DATA, secret)
      case Err(e) => Err(e)
      case Ok(ct) => Checked(PassphraseSlot(ct, nonce, VaultModel.FieldsOf(params, salt)))
  }

  /** `wrap_with_token`: the token's answer is the AEAD key as it is. */
  function WrapWithToken(x: VaultSeal.Crypto, secret: bytes, tokenSecret: bytes, cred: Credential, nonce: bytes): Result<UnlockSlot, SlotError> {
    if !SecretOk(secret) then Err(BadSecret)
    else if |tokenSecret| != TOKEN_SECRET_LEN then Err(BadTokenSecret)
    else
      match Sealed(x, tokenSecret, nonce, FIDO_DATA, secret)
      case Err(e) => Err(e)
      case Ok(ct) => Checked(FidoSlot(ct, nonce, cred))
  }

  /** `unwrap_with_passphrase`. */
  function UnwrapWithPassphrase(x: VaultSeal.Crypto, s: UnlockSlot, passphrase: bytes): Result<bytes, SlotError>
    requires s.PassphraseSlot?
  {
    Unsealed(x, x.derive(passphrase, s.kdf.salt, s.kdf.ToParams()), s.nonce, PASSPHRASE_DATA, s.wrapped)
  }

  /** `unwrap_with_token`. */
  function UnwrapWithToken(x: VaultSeal.Crypto, s: UnlockSlot, tokenSecret: bytes): Result<bytes, SlotError>
    requires s.FidoSlot?
  {
    if |tokenSecret| != TOKEN_SECRET_LEN then Err(BadTokenSecret)
    else Unsealed(x, tokenSecret, s.nonce, FIDO_DATA, s.wrapped)
  }

  /** The slot is this secret sealed under this key. */
  ghost predicate SealedUnder(x: VaultSeal.Crypto, s: UnlockSlot, key: bytes, secret: bytes) {
    && SecretOk(secret) && |key| == VaultModel.KEY_LEN && |s.nonce| == VaultModel.NONCE_LEN
    && s.wrapped == x.seal(CIPHER, key, s.nonce, DataOf(s), secret)
  }

  /** The slot holds this secret, sealed under some key. */
  ghost predicate Holds(x: VaultSeal.Crypto, s: UnlockSlot, secret: bytes) {
    exists key: bytes :: SealedUnder(x, s, key, secret)
  }

  /** A wrapped secret comes back to the credential it was wrapped for. */
  lemma TokenRoundTrip(x: VaultSeal.Crypto, secret: bytes, tokenSecret: bytes, cred: Credential, nonce: bytes, s: UnlockSlot)
    requires VaultSeal.Ideal(x) && WrapWithToken(x, secret, tokenSecret, cred, nonce) == Ok(s)
    ensures s.FidoSlot? && s.fido == cred && Holds(x, s, secret)
    ensures SealedUnder(x, s, tokenSecret, secret) && UnwrapWithToken(x, s, tokenSecret) == Ok(secret)
  {
    assert SealedUnder(x, s, tokenSecret, secret);
    assert x.open(CIPHER, tokenSecret, nonce, FIDO_DATA, s.wrapped) == Some(secret);
  }

  lemma PassphraseRoundTrip(x: VaultSeal.Crypto, secret: bytes, passphrase: bytes, params: VaultModel.KdfParams,
                            salt: bytes, nonce: bytes, s: UnlockSlot)
    requires VaultSeal.Ideal(x) && |salt| == params.saltLen
    requires WrapWithPassphrase(x, secret, passphrase, params, salt, nonce) == Ok(s)
    ensures s.PassphraseSlot? && Holds(x, s, secret)
    ensures UnwrapWithPassphrase(x, s, passphrase) == Ok(secret)
  {
    var key := x.derive(passphrase, salt, params);
    assert s.kdf.ToParams() == params;
    assert SealedUnder(x, s, key, secret);
    assert x.open(CIPHER, key, nonce, PASSPHRASE_DATA, s.wrapped) == Some(secret);
  }

  /** A slot opens under the key it was sealed with, to its secret, and under no other. */
  lemma OpensExactly(x: VaultSeal.Crypto, s: UnlockSlot, secret: bytes, key: bytes, tried: bytes)
    requires VaultSeal.Ideal(x) && VaultSeal.KeyBound(x) && SealedUnder(x, s, key, secret)
    ensures Unsealed(x, tried, s.nonce, DataOf(s), s.wrapped) == if tried == key then Ok(secret) else Err(Decryption)
  {
    assert x.open(CIPHER, tried, s.nonce, DataOf(s), x.seal(CIPHER, key, s.nonce, DataOf(s), secret))
        == if tried == key then Some(secret) else None;
  }
}
