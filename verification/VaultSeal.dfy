/**
 Sealing and opening vaults: services/vault_service.py on top of
 security/vault_keyslots.py.

 Argon2id, the AEAD ciphers and OpenPGP are ideal functions; salts, nonces and
 the random file key are inputs.
 */
module VaultSeal {
  import opened Wrappers
  import opened Bytes
  import opened VaultModel
  import opened VaultFrame

  /** An inserted token: the keys on it, and whether the PIN entered for it is right. */
  datatype Card = Card(holds: set<string>, pinCorrect: bool)

  /** GnuPG's answer to a decryption: the message, or one of the three errors the slot loop skips. */
  datatype PgpReply = Plain(message: bytes) | Refused

  datatype Crypto = Crypto(
    derive: (bytes, bytes, KdfParams) -> bytes,
    seal: (Cipher, bytes, bytes, bytes, bytes) -> bytes,
    open: (Cipher, bytes, bytes, bytes, bytes) -> Option<bytes>,
    pgpSeal: (string, bytes) -> bytes,
    pgpOpen: (Card, bytes) -> PgpReply)

  predicate Unlocks(card: Card, fp: string) { card.pinCorrect && fp in card.holds }

  ghost predicate Ideal(x: Crypto) {
    && (forall p: bytes, s: bytes, k: KdfParams :: |x.derive(p, s, k)| == k.hashLen)
    && (forall a, k: bytes, n: bytes, ad: bytes, m: bytes ::
          x.seal(a, k, n, ad, m) != [] && x.open(a, k, n, ad, x.seal(a, k, n, ad, m)) == Some(m))
    && (forall card, fp, m: bytes ::
          x.pgpOpen(card, x.pgpSeal(fp, m)) == if Unlocks(card, fp) then Plain(m) else Refused)
  }

  /**
   A ciphertext opens under no key but the one it was sealed with.  This is an
   idealisation of sealing under independent random keys.  ChaCha20-Poly1305 and
   AES-GCM are not key-committing, so nothing that needs it is claimed of
   ciphertexts crafted to open under two keys.
   */
  ghost predicate KeyBound(x: Crypto) {
    forall a, k: bytes, k': bytes, n: bytes, ad: bytes, m: bytes ::
      k' != k ==> x.open(a, k', n, ad, x.seal(a, k, n, ad, m)) == None
  }

  datatype VaultError =
    | Format(frame: FrameError)
    | KeyLength            // aead: key or nonce of the wrong length
    | Decryption           // wrong key, tampered ciphertext or header
    | ImportLimits         // KDF parameters outside the import limits
    | WrongFileKeyLength
    | NoSlotOfThatKind | NeedsPassphrase | NoCredential
    | UnusableKey | InvalidSlot | NoUnlockMethod | TooManySlots
    | CardRefused

  // ---------------------------------------------------------------- AEAD with its input checks

  function AeadEncrypt(x: Crypto, a: Cipher, key: bytes, nonce: bytes, ad: bytes, m: bytes): Result<bytes, VaultError> {
    if |key| != KEY_LEN || |nonce| != NONCE_LEN then Err(KeyLength) else Ok(x.seal(a, key, nonce, ad, m))
  }

  function AeadDecrypt(x: Crypto, a: Cipher, key: bytes, nonce: bytes, ad: bytes, ct: bytes): Result<bytes, VaultError> {
    if |key| != KEY_LEN || |nonce| != NONCE_LEN then Err(Decryption)
    else match x.open(a, key, nonce, ad, ct) case None => Err(Decryption) case Some(m) => Ok(m)
  }

  // ---------------------------------------------------------------- import limits

  const MAX_IMPORT_TIME_COST := 3
  const MAX_IMPORT_MEMORY_COST_KB := 262_144
  const MAX_IMPORT_PARALLELISM := 4

  /** `_validate_import_kdf`. */
  predicate Importable(p: KdfParams) {
    && 2 <= p.timeCost <= MAX_IMPORT_TIME_COST
    && 19_456 <= p.memoryCost <= MAX_IMPORT_MEMORY_COST_KB
    && p.parallelism <= MAX_IMPORT_PARALLELISM
  }

  // ---------------------------------------------------------------- version 2

  function HeaderV2(params: KdfParams, cipher: Cipher, salt: bytes, nonce: bytes): Header {
    Header(2, Some(FieldsOf(params, salt)), cipher, nonce, None)
  }

  /** Packs a header around the sealed plaintext: the end both sealing functions share. */
  function SealUnder(hc: HeaderCodec, x: Crypto, h: Header, key: bytes, plaintext: bytes): Result<bytes, VaultError> {
    match Pack(hc, h, [])
    case Err(e) => Err(Format(e))
    case Ok((_, headerBytes)) =>
      match AeadEncrypt(x, h.cipher, key, h.nonce, headerBytes, plaintext)
      case Err(e) => Err(e)
      case Ok(ct) => match Pack(hc, h, ct) case Err(e) => Err(Format(e)) case Ok((frame, _)) => Ok(frame)
  }

  /** `_encrypt_payload`, the frame. */
  function SealV2(hc: HeaderCodec, x: Crypto, plaintext: bytes, passphrase: bytes, params: KdfParams,
                  cipher: Cipher, salt: bytes, nonce: bytes): Result<bytes, VaultError> {
    SealUnder(hc, x, HeaderV2(params, cipher, salt, nonce), x.derive(passphrase, salt, params), plaintext)
  }

  // ---------------------------------------------------------------- version 3: slots

  const PASSPHRASE_SLOT_DATA := EncodeAscii("GPGMEISTER_VAULT:slot:passphrase")

  /** `wrap_with_passphrase`. */
  function WrapWithPassphrase(x: Crypto, fileKey: bytes, passphrase: bytes, params: KdfParams,
                              cipher: Cipher, salt: bytes, nonce: bytes): Result<Slot, VaultError> {
    match AeadEncrypt(x, cipher, x.derive(passphrase, salt, params), nonce, PASSPHRASE_SLOT_DATA, fileKey)
    case Err(e) => Err(e)
    case Ok(wrapped) =>
      var slot := PassphraseSlot(wrapped, FieldsOf(params, salt), nonce, "Master passphrase");
      if ValidSlot(slot) then Ok(slot) else Err(InvalidSlot)
  }

  /** `file_key_from_bytes`. */
  function FileKeyFromBytes(raw: bytes): Result<bytes, VaultError> {
    if |raw| != KEY_LEN then Err(WrongFileKeyLength) else Ok(raw)
  }

  /** `unwrap_with_passphrase`, after the caller's check of the import limits. */
  function TryPassphraseSlot(x: Crypto, slot: Slot, passphrase: bytes, cipher: Cipher): Result<bytes, VaultError>
    requires slot.PassphraseSlot?
  {
    var params := slot.kdf.ToParams();
    if !Importable(params) then Err(ImportLimits)
    else
      match AeadDecrypt(x, cipher, x.derive(passphrase, slot.kdf.salt, params), slot.nonce, PASSPHRASE_SLOT_DATA, slot.wrapped)
      case Err(e) => Err(e)
      case Ok(raw) => FileKeyFromBytes(raw)
  }

  /** The key a user picked to open the vault with: usable unless revoked or expired. */
  datatype UnlockKey = UnlockKey(fingerprint: string, usable: bool, title: string)

  function PgpSlot(x: Crypto, fileKey: bytes, k: UnlockKey): Slot {
    OpenPgpSlot(x.pgpSeal(k.fingerprint, fileKey), k.fingerprint,
                if |k.title| <= MAX_VAULT_SLOT_LABEL_LENGTH then k.title else k.title[..MAX_VAULT_SLOT_LABEL_LENGTH])
  }

  function WrapAll(x: Crypto, fileKey: bytes, keys: seq<UnlockKey>): Result<seq<Slot>, VaultError> {
    if keys == [] then Ok([])
    else
      var n := |keys| - 1;
      match WrapAll(x, fileKey, keys[..n])
      case Err(e) => Err(e)
      case Ok(slots) =>
        if !keys[n].usable then Err(UnusableKey)
        else if !ValidSlot(PgpSlot(x, fileKey, keys[n])) then Err(InvalidSlot)
        else Ok(slots + [PgpSlot(x, fileKey, keys[n])])
  }

  /** `_wrap_for_keys`. */
  method WrapForKeys(x: Crypto, fileKey: bytes, keys: seq<UnlockKey>) returns (r: Result<seq<Slot>, VaultError>)
    ensures r == WrapAll(x, fileKey, keys)
  {
    var slots: seq<Slot> := [];
    for n := 0 to |keys|
      invariant WrapAll(x, fileKey, keys[..n]) == Ok(slots)
    {
      assert keys[..n + 1][..n] == keys[..n] && keys[..n + 1][n] == keys[n];
      if !keys[n].usable {
        WrapAllFails(x, fileKey, keys, n + 1);
        return Err(UnusableKey);
      }
      var slot := PgpSlot(x, fileKey, keys[n]);
      if !ValidSlot(slot) {
        WrapAllFails(x, fileKey, keys, n + 1);
        return Err(InvalidSlot);
      }
      slots := slots + [slot];
    }
    assert keys[..|keys|] == keys;
    r := Ok(slots);
  }

  lemma {:induction false} WrapAllFails(x: Crypto, fileKey: bytes, keys: seq<UnlockKey>, n: nat)
    requires n <= |keys| && WrapAll(x, fileKey, keys[..n]).Err?
    ensures WrapAll(x, fileKey, keys) == WrapAll(x, fileKey, keys[..n])
    decreases |keys|
  {
    if n < |keys| {
      var last := |keys| - 1;
      assert keys[..last][..n] == keys[..n];
      WrapAllFails(x, fileKey, keys[..last], n);
    } else {
      assert keys[..n] == keys;
    }
  }

  /** The passphrase half of a version 3 vault, if it has one. */
  datatype MasterSlot = NoMaster | Master(passphrase: bytes, salt: bytes, nonce: bytes)

  function AllSlots(x: Crypto, fileKey: bytes, master: MasterSlot, params: KdfParams, cipher: Cipher,
                    keys: seq<UnlockKey>): Result<seq<Slot>, VaultError> {
    var first := if master.NoMaster? then Ok([])
                 else match WrapWithPassphrase(x, fileKey, master.passphrase, params, cipher, master.salt, master.nonce)
                      case Err(e) => Err(e) case Ok(slot) => Ok([slot]);
    match first
    case Err(e) => Err(e)
    case Ok(mine) =>
      match WrapAll(x, fileKey, keys)
      case Err(e) => Err(e)
      case Ok(theirs) =>
        var slots := mine + theirs;
        if slots == [] then Err(NoUnlockMethod)
        else if |slots| > MAX_VAULT_KEY_SLOTS then Err(TooManySlots)
        else Ok(slots)
  }

  function HeaderV3(cipher: Cipher, nonce: bytes, slots: seq<Slot>): Header {
    Header(3, None, cipher, nonce, Some(slots))
  }

  /** `_encrypt_payload_with_slots`, the frame. */
  function SealV3(hc: HeaderCodec, x: Crypto, plaintext: bytes, fileKey: bytes, master: MasterSlot, params: KdfParams,
                  cipher: Cipher, nonce: bytes, keys: seq<UnlockKey>): Result<bytes, VaultError> {
    match AllSlots(x, fileKey, master, params, cipher, keys)
    case Err(e) => Err(e)
    case Ok(slots) => SealUnder(hc, x, HeaderV3(cipher, nonce, slots), fileKey, plaintext)
  }

  // ---------------------------------------------------------------- opening

  /** `header.slots_of`. */
  function PassphraseSlots(slots: seq<Slot>): (ps: seq<Slot>)
    ensures forall i | 0 <= i < |ps| :: ps[i].PassphraseSlot?
  {
    if slots == [] then []
    else (if slots[0].PassphraseSlot? then [slots[0]] else []) + PassphraseSlots(slots[1..])
  }

  function OpenPgpSlots(slots: seq<Slot>): (ps: seq<Slot>)
    ensures forall i | 0 <= i < |ps| :: ps[i].OpenPgpSlot?
  {
    if slots == [] then []
    else (if slots[0].OpenPgpSlot? then [slots[0]] else []) + OpenPgpSlots(slots[1..])
  }

  /** The first passphrase slot that opens; only wrong keys and excessive parameters are skipped over. */
  function FirstPassphrase(x: Crypto, slots: seq<Slot>, passphrase: bytes, cipher: Cipher, last: VaultError): Result<bytes, VaultError>
    requires forall i | 0 <= i < |slots| :: slots[i].PassphraseSlot?
    decreases |slots|
  {
    if slots == [] then Err(last)
    else
      match TryPassphraseSlot(x, slots[0], passphrase, cipher)
      case Ok(k) => Ok(k)
      case Err(e) => if e.Decryption? || e.ImportLimits? then FirstPassphrase(x, slots[1..], passphrase, cipher, e) else Err(e)
  }

  /** `_unwrap_passphrase_slot`. */
  method UnwrapPassphraseSlot(x: Crypto, slots: seq<Slot>, passphrase: bytes, cipher: Cipher) returns (r: Result<bytes, VaultError>)
    ensures r == if PassphraseSlots(slots) == [] then Err(NoSlotOfThatKind)
                 else FirstPassphrase(x, PassphraseSlots(slots), passphrase, cipher, Decryption)
  {
    var mine := PassphraseSlots(slots);
    if mine == [] {
      return Err(NoSlotOfThatKind);
    }
    var lastError := Decryption;
    for n := 0 to |mine|
      invariant FirstPassphrase(x, mine, passphrase, cipher, Decryption) == FirstPassphrase(x, mine[n..], passphrase, cipher, lastError)
    {
      assert mine[n..][0] == mine[n] && mine[n..][1..] == mine[n + 1..];
      var attempt := TryPassphraseSlot(x, mine[n], passphrase, cipher);
      if attempt.Ok? || !(attempt.error.Decryption? || attempt.error.ImportLimits?) {
        return attempt;
      }
      lastError := attempt.error;
    }
    r := Err(lastError);
  }

  /** The first slot the card accepts; what it yields must then be a file key. */
  function FirstOpenPgp(x: Crypto, slots: seq<Slot>, card: Card): Result<bytes, VaultError> {
    if slots == [] then Err(CardRefused)
    else match x.pgpOpen(card, slots[0].wrapped)
      case Plain(m) => FileKeyFromBytes(m)
      case Refused => FirstOpenPgp(x, slots[1..], card)
  }

  /** `_unwrap_openpgp_slot`. */
  method UnwrapOpenPgpSlot(x: Crypto, slots: seq<Slot>, card: Card) returns (r: Result<bytes, VaultError>)
    ensures r == if OpenPgpSlots(slots) == [] then Err(NoSlotOfThatKind) else FirstOpenPgp(x, OpenPgpSlots(slots), card)
  {
    var mine := OpenPgpSlots(slots);
    if mine == [] {
      return Err(NoSlotOfThatKind);
    }
    for n := 0 to |mine|
      invariant FirstOpenPgp(x, mine, card) == FirstOpenPgp(x, mine[n..], card)
    {
      assert mine[n..][0] == mine[n] && mine[n..][1..] == mine[n + 1..];
      var reply := x.pgpOpen(card, mine[n].wrapped);
      if reply.Plain? {
        return FileKeyFromBytes(reply.message);
      }
    }
    r := Err(CardRefused);
  }

  /** What the user supplied: a master passphrase, a card with its PIN, or both. */
  datatype Credentials = Credentials(passphrase: Option<bytes>, card: Option<Card>)

  /** `_vault_key`. */
  function VaultKey(x: Crypto, h: Header, c: Credentials): Result<bytes, VaultError> {
    if h.slots.None? || h.slots.value == [] then
      if h.kdf.None? || c.passphrase.None? then Err(NeedsPassphrase)
      else
        var params := h.kdf.value.ToParams();
        if !Importable(params) then Err(ImportLimits)
        else Ok(x.derive(c.passphrase.value, h.kdf.value.salt, params))
    else if c.card.Some? then
      var mine := OpenPgpSlots(h.slots.value);
      if mine == [] then Err(NoSlotOfThatKind) else FirstOpenPgp(x, mine, c.card.value)
    else if c.passphrase.None? then Err(NoCredential)
    else
      var mine := PassphraseSlots(h.slots.value);
      if mine == [] then Err(NoSlotOfThatKind)
      else FirstPassphrase(x, mine, c.passphrase.value, h.cipher, Decryption)
  }

  /** `_open` up to the decrypted payload. */
  function OpenFrame(hc: HeaderCodec, x: Crypto, data: bytes, c: Credentials): Result<bytes, VaultError> {
    if c.passphrase.None? && c.card.None? then Err(NoCredential)
    else
      match Unpack(hc, data)
      case Err(e) => Err(Format(e))
      case Ok(u) =>
        match VaultKey(x, u.header, c)
        case Err(e) => Err(e)
        case Ok(key) => AeadDecrypt(x, u.header.cipher, key, u.header.nonce, u.headerBytes, u.ciphertext)
  }

  /** The methods of `_vault_key`, run in order. */
  method RecoverVaultKey(x: Crypto, h: Header, c: Credentials) returns (r: Result<bytes, VaultError>)
    ensures r == VaultKey(x, h, c)
  {
    if h.slots.None? || h.slots.value == [] {
      if h.kdf.None? || c.passphrase.None? {
        return Err(NeedsPassphrase);
      }
      var params := h.kdf.value.ToParams();
      if !Importable(params) {
        return Err(ImportLimits);
      }
      return Ok(x.derive(c.passphrase.value, h.kdf.value.salt, params));
    }
    if c.card.Some? {
      r := UnwrapOpenPgpSlot(x, h.slots.value, c.card.value);
    } else if c.passphrase.None? {
      r := Err(NoCredential);
    } else {
      r := UnwrapPassphraseSlot(x, h.slots.value, c.passphrase.value, h.cipher);
    }
  }

  // ---------------------------------------------------------------- create, then open

  /** A sealed frame unpacks to its header, the sealed ciphertext, and the associated data it was sealed with. */
  lemma SealedUnpacks(hc: HeaderCodec, x: Crypto, h: Header, key: bytes, plaintext: bytes, frame: bytes)
    requires FaithfulHeader(hc) && Ideal(x) && ValidHeader(h)
    requires SealUnder(hc, x, h, key, plaintext) == Ok(frame)
    ensures |key| == KEY_LEN
    ensures Unpack(hc, frame) == Ok(Unpacked(h, hc.write(h), x.seal(h.cipher, key, h.nonce, hc.write(h), plaintext)))
  {
    var ct := x.seal(h.cipher, key, h.nonce, hc.write(h), plaintext);
    UnpackPack(hc, h, ct);
  }

  /** Sealing succeeds exactly for a 32-byte key and sizes within the frame's limits. */
  lemma SealsWhen(hc: HeaderCodec, x: Crypto, h: Header, key: bytes, plaintext: bytes)
    requires ValidHeader(h)
    ensures SealUnder(hc, x, h, key, plaintext).Ok? <==>
              && |key| == KEY_LEN && |hc.write(h)| <= MAX_HEADER_SIZE
              && |x.seal(h.cipher, key, h.nonce, hc.write(h), plaintext)| <= MAX_CIPHERTEXT_SIZE
  {
  }

  /** Opening a sealed frame with whatever key the credentials give. */
  lemma OpenSealed(hc: HeaderCodec, x: Crypto, h: Header, key: bytes, plaintext: bytes, frame: bytes, c: Credentials)
    requires FaithfulHeader(hc) && Ideal(x) && ValidHeader(h)
    requires SealUnder(hc, x, h, key, plaintext) == Ok(frame)
    requires c.passphrase.Some? || c.card.Some?
    ensures VaultKey(x, h, c) == Ok(key) ==> OpenFrame(hc, x, frame, c) == Ok(plaintext)
    ensures VaultKey(x, h, c).Err? ==> OpenFrame(hc, x, frame, c) == Err(VaultKey(x, h, c).error)
    ensures KeyBound(x) && VaultKey(x, h, c).Ok? && VaultKey(x, h, c).value != key ==> OpenFrame(hc, x, frame, c) == Err(Decryption)
  {
    SealedUnpacks(hc, x, h, key, plaintext, frame);
  }

  /**
   Version 2: sealing needs a 32-byte hash, and the frame then opens with its
   passphrase exactly when the KDF parameters are inside the import limits.
   */
  lemma CreateOpenV2(hc: HeaderCodec, x: Crypto, plaintext: bytes, passphrase: bytes, params: KdfParams,
                     cipher: Cipher, salt: bytes, nonce: bytes, frame: bytes, card: Option<Card>)
    requires FaithfulHeader(hc) && Ideal(x) && ValidParams(params) && |salt| == params.saltLen && |nonce| == NONCE_LEN
    requires SealV2(hc, x, plaintext, passphrase, params, cipher, salt, nonce) == Ok(frame)
    ensures params.hashLen == KEY_LEN
    ensures OpenFrame(hc, x, frame, Credentials(Some(passphrase), card)) ==
            if Importable(params) then Ok(plaintext) else Err(ImportLimits)
  {
    var h := HeaderV2(params, cipher, salt, nonce);
    assert FieldsOf(params, salt).ToParams() == params;
    OpenSealed(hc, x, h, x.derive(passphrase, salt, params), plaintext, frame, Credentials(Some(passphrase), card));
  }

  /** The shipped default opens again; the balanced profile writes vaults that never do. */
  lemma ShippedProfiles()
    ensures ValidParams(HIGH_MEMORY) && Importable(HIGH_MEMORY) && HIGH_MEMORY.hashLen == KEY_LEN
    ensures ValidParams(BALANCED) && !Importable(BALANCED)
  {
  }

  lemma {:induction false} OnlyPgpSlots(x: Crypto, fileKey: bytes, keys: seq<UnlockKey>, slots: seq<Slot>)
    requires WrapAll(x, fileKey, keys) == Ok(slots)
    ensures |slots| == |keys|
    ensures forall i | 0 <= i < |slots| :: slots[i] == PgpSlot(x, fileKey, keys[i]) && ValidSlot(slots[i])
    decreases |keys|
  {
    if keys != [] {
      var n := |keys| - 1;
      OnlyPgpSlots(x, fileKey, keys[..n], WrapAll(x, fileKey, keys[..n]).value);
    }
  }

  lemma {:induction false} FilterPgp(slots: seq<Slot>)
    requires forall i | 0 <= i < |slots| :: slots[i].OpenPgpSlot?
    ensures OpenPgpSlots(slots) == slots && PassphraseSlots(slots) == []
    decreases |slots|
  {
    if slots != [] {
      FilterPgp(slots[1..]);
    }
  }

  /** The slots of a version 3 vault: the master slot first if any, then one per unlock key, all valid. */
  lemma SlotsOfVault(x: Crypto, fileKey: bytes, master: MasterSlot, params: KdfParams, cipher: Cipher,
                     keys: seq<UnlockKey>, slots: seq<Slot>) returns (pgp: seq<Slot>)
    requires AllSlots(x, fileKey, master, params, cipher, keys) == Ok(slots)
    ensures WrapAll(x, fileKey, keys) == Ok(pgp) && OpenPgpSlots(slots) == pgp
    ensures slots != [] && |slots| <= MAX_VAULT_KEY_SLOTS && forall i | 0 <= i < |slots| :: ValidSlot(slots[i])
    ensures master.NoMaster? ==> PassphraseSlots(slots) == []
    ensures master.Master? ==>
              var w := WrapWithPassphrase(x, fileKey, master.passphrase, params, cipher, master.salt, master.nonce);
              w.Ok? && w.value.PassphraseSlot? && PassphraseSlots(slots) == [w.value]
  {
    pgp := WrapAll(x, fileKey, keys).value;
    OnlyPgpSlots(x, fileKey, keys, pgp);
    FilterPgp(pgp);
    if master.Master? {
      assert slots[1..] == pgp;
    } else {
      assert slots == pgp;
    }
  }

  /** Every OpenPGP slot yields the same file key, so any card that unlocks one of them does. */
  lemma {:induction false} AnyCardYieldsFileKey(x: Crypto, fileKey: bytes, keys: seq<UnlockKey>, slots: seq<Slot>, card: Card)
    requires Ideal(x) && |fileKey| == KEY_LEN && |slots| == |keys|
    requires forall i | 0 <= i < |slots| :: slots[i] == PgpSlot(x, fileKey, keys[i])
    ensures FirstOpenPgp(x, slots, card) ==
            if exists i :: 0 <= i < |keys| && Unlocks(card, keys[i].fingerprint) then Ok(fileKey) else Err(CardRefused)
    decreases |slots|
  {
    if slots != [] {
      AnyCardYieldsFileKey(x, fileKey, keys[1..], slots[1..], card);
      assert x.pgpOpen(card, slots[0].wrapped) == if Unlocks(card, keys[0].fingerprint) then Plain(fileKey) else Refused;
      if i :| 0 <= i < |keys| && Unlocks(card, keys[i].fingerprint) {
        assert i > 0 ==> keys[1..][i - 1] == keys[i];
      }
    }
  }

  /** The master slot yields the file key to its own passphrase, exactly within the import limits. */
  lemma MasterYieldsFileKey(x: Crypto, fileKey: bytes, m: MasterSlot, params: KdfParams, cipher: Cipher, slot: Slot)
    requires Ideal(x) && |fileKey| == KEY_LEN && m.Master? && |m.salt| == params.saltLen && |m.nonce| == NONCE_LEN
    requires WrapWithPassphrase(x, fileKey, m.passphrase, params, cipher, m.salt, m.nonce) == Ok(slot)
    ensures slot.PassphraseSlot?
    ensures FirstPassphrase(x, [slot], m.passphrase, cipher, Decryption) ==
            if Importable(params) then Ok(fileKey) else Err(ImportLimits)
  {
    assert slot.kdf.ToParams() == params;
    assert [slot][1..] == [];
    assert x.open(cipher, x.derive(m.passphrase, m.salt, params), m.nonce, PASSPHRASE_SLOT_DATA, slot.wrapped) == Some(fileKey);
  }

  /**
   Version 3: any card holding any one of the unlock keys opens the frame, and
   so does the master passphrase, if there is one, exactly within the import
   limits; every credential reaches the same payload.
   */
  lemma CreateOpenV3(hc: HeaderCodec, x: Crypto, plaintext: bytes, fileKey: bytes, master: MasterSlot, params: KdfParams,
                     cipher: Cipher, nonce: bytes, keys: seq<UnlockKey>, frame: bytes)
    requires FaithfulHeader(hc) && Ideal(x) && ValidParams(params) && |nonce| == NONCE_LEN && |fileKey| == KEY_LEN
    requires master.Master? ==> |master.salt| == params.saltLen && |master.nonce| == NONCE_LEN
    requires SealV3(hc, x, plaintext, fileKey, master, params, cipher, nonce, keys) == Ok(frame)
    ensures forall p, card :: keys != [] ==>
              OpenFrame(hc, x, frame, Credentials(p, Some(card))) ==
              if exists i :: 0 <= i < |keys| && Unlocks(card, keys[i].fingerprint) then Ok(plaintext) else Err(CardRefused)
    ensures master.Master? ==>
              OpenFrame(hc, x, frame, Credentials(Some(master.passphrase), None)) ==
              if Importable(params) then Ok(plaintext) else Err(ImportLimits)
    ensures master.NoMaster? ==>
              forall p :: OpenFrame(hc, x, frame, Credentials(Some(p), None)) == Err(NoSlotOfThatKind)
  {
    var slots := AllSlots(x, fileKey, master, params, cipher, keys).value;
    var pgp := SlotsOfVault(x, fileKey, master, params, cipher, keys, slots);
    OnlyPgpSlots(x, fileKey, keys, pgp);
    var h := HeaderV3(cipher, nonce, slots);
    forall p, card | keys != []
      ensures OpenFrame(hc, x, frame, Credentials(p, Some(card))) ==
              if exists i :: 0 <= i < |keys| && Unlocks(card, keys[i].fingerprint) then Ok(plaintext) else Err(CardRefused)
    {
      AnyCardYieldsFileKey(x, fileKey, keys, pgp, card);
      OpenSealed(hc, x, h, fileKey, plaintext, frame, Credentials(p, Some(card)));
    }
    forall p
      ensures master.NoMaster? ==> OpenFrame(hc, x, frame, Credentials(Some(p), None)) == Err(NoSlotOfThatKind)
    {
      OpenSealed(hc, x, h, fileKey, plaintext, frame, Credentials(Some(p), None));
    }
    if master.Master? {
      MasterYieldsFileKey(x, fileKey, master, params, cipher, PassphraseSlots(slots)[0]);
      OpenSealed(hc, x, h, fileKey, plaintext, frame, Credentials(Some(master.passphrase), None));
    }
  }

  /** Version 2: a passphrase opens the frame exactly if it derives the same key; any other is refused. */
  lemma OnlyThatKeyV2(hc: HeaderCodec, x: Crypto, plaintext: bytes, passphrase: bytes, params: KdfParams, cipher: Cipher,
                      salt: bytes, nonce: bytes, frame: bytes, tried: bytes, card: Option<Card>)
    requires FaithfulHeader(hc) && Ideal(x) && KeyBound(x) && ValidParams(params) && |salt| == params.saltLen && |nonce| == NONCE_LEN
    requires SealV2(hc, x, plaintext, passphrase, params, cipher, salt, nonce) == Ok(frame)
    ensures OpenFrame(hc, x, frame, Credentials(Some(tried), card)) ==
            if !Importable(params) then Err(ImportLimits)
            else if x.derive(tried, salt, params) == x.derive(passphrase, salt, params) then Ok(plaintext)
            else Err(Decryption)
  {
    var h := HeaderV2(params, cipher, salt, nonce);
    assert FieldsOf(params, salt).ToParams() == params;
    OpenSealed(hc, x, h, x.derive(passphrase, salt, params), plaintext, frame, Credentials(Some(tried), card));
  }

  /** A master slot yields the file key exactly to a passphrase that derives its key. */
  lemma MasterSlotExactly(x: Crypto, fileKey: bytes, m: MasterSlot, params: KdfParams, cipher: Cipher, slot: Slot, tried: bytes)
    requires Ideal(x) && KeyBound(x) && |fileKey| == KEY_LEN && m.Master? && |m.salt| == params.saltLen && |m.nonce| == NONCE_LEN
    requires WrapWithPassphrase(x, fileKey, m.passphrase, params, cipher, m.salt, m.nonce) == Ok(slot)
    ensures slot.PassphraseSlot?
    ensures FirstPassphrase(x, [slot], tried, cipher, Decryption) ==
            if !Importable(params) then Err(ImportLimits)
            else if x.derive(tried, m.salt, params) == x.derive(m.passphrase, m.salt, params) then Ok(fileKey)
            else Err(Decryption)
  {
    var key, k := x.derive(m.passphrase, m.salt, params), x.derive(tried, m.salt, params);
    assert slot.kdf.ToParams() == params;
    assert [slot][1..] == [];
    assert x.open(cipher, k, m.nonce, PASSPHRASE_SLOT_DATA, x.seal(cipher, key, m.nonce, PASSPHRASE_SLOT_DATA, fileKey))
        == if k == key then Some(fileKey) else None;
  }

  /**
   Version 3, for every way of opening: the exact answer.  A card is asked first
   and opens the frame iff it unlocks one of the keys; without a card a
   passphrase opens it iff there is a master slot, its parameters are within the
   import limits and the passphrase derives the slot's key.
   */
  lemma OnlyThoseCredentialsV3(hc: HeaderCodec, x: Crypto, plaintext: bytes, fileKey: bytes, master: MasterSlot, params: KdfParams,
                               cipher: Cipher, nonce: bytes, keys: seq<UnlockKey>, frame: bytes, c: Credentials)
    requires FaithfulHeader(hc) && Ideal(x) && KeyBound(x) && ValidParams(params) && |nonce| == NONCE_LEN && |fileKey| == KEY_LEN
    requires master.Master? ==> |master.salt| == params.saltLen && |master.nonce| == NONCE_LEN
    requires SealV3(hc, x, plaintext, fileKey, master, params, cipher, nonce, keys) == Ok(frame)
    ensures OpenFrame(hc, x, frame, c) ==
            if c.passphrase.None? && c.card.None? then Err(NoCredential)
            else if c.card.Some? then
              if keys == [] then Err(NoSlotOfThatKind)
              else if exists i :: 0 <= i < |keys| && Unlocks(c.card.value, keys[i].fingerprint) then Ok(plaintext)
              else Err(CardRefused)
            else if master.NoMaster? then Err(NoSlotOfThatKind)
            else if !Importable(params) then Err(ImportLimits)
            else if x.derive(c.passphrase.value, master.salt, params) == x.derive(master.passphrase, master.salt, params)
            then Ok(plaintext)
            else Err(Decryption)
  {
    var slots := AllSlots(x, fileKey, master, params, cipher, keys).value;
    var pgp := SlotsOfVault(x, fileKey, master, params, cipher, keys, slots);
    OnlyPgpSlots(x, fileKey, keys, pgp);
    if c.card.Some? {
      AnyCardYieldsFileKey(x, fileKey, keys, pgp, c.card.value);
    } else if c.passphrase.Some? && master.Master? {
      MasterSlotExactly(x, fileKey, master, params, cipher, PassphraseSlots(slots)[0], c.passphrase.value);
    }
    if c.card.Some? || c.passphrase.Some? {
      OpenSealed(hc, x, HeaderV3(cipher, nonce, slots), fileKey, plaintext, frame, c);
    }
  }
}
