/**
 VaultService.create and VaultService._open of services/vault_service.py, from
 collected key material to the opened vault and back, with the plaintext buffer
 and its wiping.  Files, locks and audit events are not part of this module.
 */
module VaultService {
  import opened Wrappers
  import opened Bytes
  import opened VaultModel
  import opened VaultFrame
  import opened VaultPayload
  import opened VaultRoundTrip
  import opened VaultLegacy
  import opened VaultSeal

  predicate Wiped(b: bytes) { forall i | 0 <= i < |b| :: b[i] == 0 }

  /** The tail both sealing functions share, on the caller's buffer: it is zeroed once the ciphertext exists. */
  method EncryptUnder(hc: HeaderCodec, x: Crypto, plaintext: Buffer, h: Header, key: bytes) returns (r: Result<bytes, VaultError>)
    modifies plaintext
    ensures r == SealUnder(hc, x, h, key, old(plaintext.data))
    ensures r.Ok? ==> Wiped(plaintext.data) && |plaintext.data| == |old(plaintext.data)|
    ensures Wiped(plaintext.data) || plaintext.data == old(plaintext.data)
  {
    var empty := Pack(hc, h, []);
    if empty.Err? {
      return Err(Format(empty.error));
    }
    var sealed := AeadEncrypt(x, h.cipher, key, h.nonce, empty.value.1, plaintext.data);
    if sealed.Err? {
      return Err(sealed.error);
    }
    plaintext.Zero();
    var frame := Pack(hc, h, sealed.value);
    r := match frame case Err(e) => Err(Format(e)) case Ok((bytes, _)) => Ok(bytes);
  }

  /** `_encrypt_payload`. */
  method EncryptPayload(hc: HeaderCodec, x: Crypto, plaintext: Buffer, passphrase: bytes, params: KdfParams,
                        cipher: Cipher, salt: bytes, nonce: bytes) returns (r: Result<bytes, VaultError>)
    modifies plaintext
    ensures r == SealV2(hc, x, old(plaintext.data), passphrase, params, cipher, salt, nonce)
    ensures r.Ok? ==> Wiped(plaintext.data)
  {
    r := EncryptUnder(hc, x, plaintext, HeaderV2(params, cipher, salt, nonce), x.derive(passphrase, salt, params));
  }

  /** `_encrypt_payload_with_slots`. */
  method EncryptPayloadWithSlots(hc: HeaderCodec, x: Crypto, plaintext: Buffer, fileKey: bytes, master: MasterSlot,
                                 params: KdfParams, cipher: Cipher, nonce: bytes, keys: seq<UnlockKey>)
    returns (r: Result<bytes, VaultError>)
    modifies plaintext
    ensures r == SealV3(hc, x, old(plaintext.data), fileKey, master, params, cipher, nonce, keys)
    ensures r.Ok? ==> Wiped(plaintext.data)
  {
    var slots: seq<Slot> := [];
    if master.Master? {
      var wrapped := WrapWithPassphrase(x, fileKey, master.passphrase, params, cipher, master.salt, master.nonce);
      if wrapped.Err? {
        return Err(wrapped.error);
      }
      slots := [wrapped.value];
    }
    var more := WrapForKeys(x, fileKey, keys);
    if more.Err? {
      return Err(more.error);
    }
    slots := slots + more.value;
    if slots == [] {
      return Err(NoUnlockMethod);
    }
    if |slots| > MAX_VAULT_KEY_SLOTS {
      return Err(TooManySlots);
    }
    r := EncryptUnder(hc, x, plaintext, HeaderV3(cipher, nonce, slots), fileKey);
  }

  // ---------------------------------------------------------------- opening

  datatype OpenError = Sealed(vault: VaultError) | Payload(payload: PayloadError) | SidecarMalformed | SidecarDiffers

  /** The `.sha256` file next to the vault. */
  datatype Sidecar = NoSidecar | Malformed | Compared(equal: bool)

  function CheckSidecar(s: Sidecar, skip: bool): Result<(), OpenError> {
    if skip || s.NoSidecar? then Ok(())
    else if s.Malformed? then Err(SidecarMalformed)
    else if s.equal then Ok(()) else Err(SidecarDiffers)
  }

  /** What `_open` yields: the manifest, the plaintext after any rebuild, and where each key lies in it. */
  datatype Contents = Contents(manifest: Manifest, plaintext: bytes, slices: map<string, KeySlice>)

  function OpenVault(hc: HeaderCodec, lc: LegacyCodec, x: Crypto, data: bytes, c: Credentials, s: Sidecar, skip: bool):
    Result<Contents, OpenError>
  {
    match OpenFrame(hc, x, data, c)
    case Err(e) => Err(Sealed(e))
    case Ok(plaintext) =>
      match CheckSidecar(s, skip)
      case Err(e) => Err(e)
      case Ok(_) =>
        match Deserialise(lc, plaintext)
        case Err(e) => Err(Payload(e))
        case Ok((rebuilt, o)) =>
          if |o.slices| != |o.manifest.keys| then Err(Payload(Truncated))
          else Ok(Contents(o.manifest, rebuilt, SliceMap(o.manifest.keys, o.slices)))
  }

  /** The nonce check of lines 1008-1009 never fires: such a frame has not decrypted. */
  lemma NonceAlreadyChecked(hc: HeaderCodec, x: Crypto, data: bytes, c: Credentials)
    requires OpenFrame(hc, x, data, c).Ok?
    ensures Unpack(hc, data).Ok? && |Unpack(hc, data).value.header.nonce| == NONCE_LEN
  {
  }

  /** `_OpenedVault`. */
  class OpenedVault {
    const manifest: Manifest
    const plaintext: Buffer
    const slices: map<string, KeySlice>

    constructor (manifest: Manifest, plaintext: Buffer, slices: map<string, KeySlice>)
      ensures this.manifest == manifest && this.plaintext == plaintext && this.slices == slices
    {
      this.manifest, this.plaintext, this.slices := manifest, plaintext, slices;
    }

    function Material(fp: string): Option<bytes>
      reads plaintext
    {
      KeyMaterial(plaintext.data, slices, fp)
    }

    /** `close`: the whole plaintext is overwritten, whichever slices were taken from it. */
    method Close()
      modifies plaintext
      ensures Wiped(plaintext.data) && |plaintext.data| == |old(plaintext.data)|
    {
      if plaintext.data != [] {
        plaintext.Zero();
      }
    }
  }

  /** `_open`: on every failure after decryption the plaintext has been overwritten. */
  method Open(hc: HeaderCodec, lc: LegacyCodec, x: Crypto, data: bytes, c: Credentials, s: Sidecar, skip: bool)
    returns (r: Result<OpenedVault, OpenError>, buffer: Buffer?)
    ensures r.Ok? <==> OpenVault(hc, lc, x, data, c, s, skip).Ok?
    ensures r.Ok? ==> fresh(r.value) && buffer == r.value.plaintext && fresh(buffer) &&
                      OpenVault(hc, lc, x, data, c, s, skip) == Ok(Contents(r.value.manifest, buffer.data, r.value.slices))
    ensures r.Err? && buffer != null ==> fresh(buffer) && Wiped(buffer.data)
    ensures OpenFrame(hc, x, data, c).Ok? ==> buffer != null
  {
    buffer := null;
    if c.passphrase.None? && c.card.None? {
      return Err(Sealed(NoCredential)), null;
    }
    var unpacked := Unpack(hc, data);
    if unpacked.Err? {
      return Err(Sealed(Format(unpacked.error))), null;
    }
    var u := unpacked.value;
    var key := RecoverVaultKey(x, u.header, c);
    if key.Err? {
      return Err(Sealed(key.error)), null;
    }
    var decrypted := AeadDecrypt(x, u.header.cipher, key.value, u.header.nonce, u.headerBytes, u.ciphertext);
    if decrypted.Err? {
      return Err(Sealed(decrypted.error)), null;
    }
    buffer := new Buffer(decrypted.value);
    var checked := CheckSidecar(s, skip);
    if checked.Err? {
      buffer.Zero();
      return Err(checked.error), buffer;
    }
    var read := DeserialisePayload(lc, buffer);
    if read.Err? {
      buffer.Zero();
      return Err(Payload(read.error)), buffer;
    }
    var vault := new OpenedVault(read.value.0, buffer, read.value.1);
    r := Ok(vault);
  }

  // ---------------------------------------------------------------- create, then open, then take a key

  /** What `create` collects: one key entry per exported key, flagged by what was exported. */
  ghost predicate Collected(lc: LegacyCodec, manifest: Manifest, ms: seq<Material>) {
    && ValidManifest(manifest) && AllLegal(ms) && |lc.modern.write(manifest)| < 0x8000_0000
    && |manifest.keys| == |ms| && Distinct(manifest.keys)
    && forall i | 0 <= i < |ms| ::
         manifest.keys[i].fingerprint == ms[i].fingerprint && (manifest.keys[i].hasPrivate ==> PrivateBytes(ms[i]) != [])
  }

  /** What a vault built from this manifest and material opens to. */
  ghost predicate HoldsKeys(r: Result<Contents, OpenError>, manifest: Manifest, ms: seq<Material>) {
    && r.Ok? && r.value.manifest == manifest
    && forall i | 0 <= i < |ms| ::
         KeyMaterial(r.value.plaintext, r.value.slices, ms[i].fingerprint) == Some(Wanted(ms[i]))
  }

  /** The plaintext of a created vault reads back, whatever frame it travelled in. */
  lemma PlaintextHoldsKeys(hc: HeaderCodec, lc: LegacyCodec, x: Crypto, manifest: Manifest, ms: seq<Material>,
                           data: bytes, c: Credentials, s: Sidecar)
    requires FaithfulHeader(hc) && FaithfulManifest(lc.modern) && Collected(lc, manifest, ms)
    requires OpenFrame(hc, x, data, c) == Ok(Serialised(lc.modern.write(manifest), ms))
    requires s == Compared(true) || s == NoSidecar
    ensures HoldsKeys(OpenVault(hc, lc, x, data, c, s, false), manifest, ms)
  {
    PayloadRoundTrip(lc.modern, manifest, ms, Serialised(lc.modern.write(manifest), ms));
  }

  /**
   End to end, version 3: a vault created from these keys, opened with any card
   holding any of its unlock keys, or with its master passphrase when the KDF
   parameters are inside the import limits, has the same manifest and gives back
   each key's private armor, or its public armor if it has no private part.
   */
  lemma EndToEndV3(hc: HeaderCodec, lc: LegacyCodec, x: Crypto, manifest: Manifest, ms: seq<Material>,
                   fileKey: bytes, master: MasterSlot, params: KdfParams, cipher: Cipher, nonce: bytes,
                   keys: seq<UnlockKey>, frame: bytes, c: Credentials, s: Sidecar)
    requires FaithfulHeader(hc) && FaithfulManifest(lc.modern) && Ideal(x) && Collected(lc, manifest, ms)
    requires ValidParams(params) && |nonce| == NONCE_LEN && |fileKey| == KEY_LEN
    requires master.Master? ==> |master.salt| == params.saltLen && |master.nonce| == NONCE_LEN
    requires SealV3(hc, x, Serialised(lc.modern.write(manifest), ms), fileKey, master, params, cipher, nonce, keys) == Ok(frame)
    requires || (c.card.Some? && exists i :: 0 <= i < |keys| && Unlocks(c.card.value, keys[i].fingerprint))
             || (master.Master? && c == Credentials(Some(master.passphrase), None) && Importable(params))
    requires s == Compared(true) || s == NoSidecar
    ensures HoldsKeys(OpenVault(hc, lc, x, frame, c, s, false), manifest, ms)
  {
    var plaintext := Serialised(lc.modern.write(manifest), ms);
    CreateOpenV3(hc, x, plaintext, fileKey, master, params, cipher, nonce, keys, frame);
    if c.card.Some? {
      assert c == Credentials(c.passphrase, Some(c.card.value));
    }
    PlaintextHoldsKeys(hc, lc, x, manifest, ms, frame, c, s);
  }

  /** End to end, version 2: within the import limits the passphrase gives everything back. */
  lemma EndToEndV2(hc: HeaderCodec, lc: LegacyCodec, x: Crypto, manifest: Manifest, ms: seq<Material>,
                   passphrase: bytes, params: KdfParams, cipher: Cipher, salt: bytes, nonce: bytes, frame: bytes, s: Sidecar)
    requires FaithfulHeader(hc) && FaithfulManifest(lc.modern) && Ideal(x) && Collected(lc, manifest, ms)
    requires ValidParams(params) && Importable(params) && |salt| == params.saltLen && |nonce| == NONCE_LEN
    requires SealV2(hc, x, Serialised(lc.modern.write(manifest), ms), passphrase, params, cipher, salt, nonce) == Ok(frame)
    requires s == Compared(true) || s == NoSidecar
    ensures HoldsKeys(OpenVault(hc, lc, x, frame, Credentials(Some(passphrase), None), s, false), manifest, ms)
  {
    CreateOpenV2(hc, x, Serialised(lc.modern.write(manifest), ms), passphrase, params, cipher, salt, nonce, frame, None);
    PlaintextHoldsKeys(hc, lc, x, manifest, ms, frame, Credentials(Some(passphrase), None), s);
  }
}
