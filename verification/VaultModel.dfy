/** The records of models/vault.py and models/kdf_params.py, with the limits their validators enforce. */
module VaultModel {
  import opened Wrappers
  import opened Bytes
  import Text

  const NONCE_LEN := 12
  const KEY_LEN := 32
  const MAX_VAULT_KEY_SLOTS := 8
  const MAX_WRAPPED_KEY_LENGTH := 16 * 1024
  const MAX_VAULT_SLOT_LABEL_LENGTH := 128

  datatype Cipher = ChaCha20Poly1305 | Aes256Gcm

  /** Argon2id parameters. */
  datatype KdfParams = KdfParams(timeCost: nat, memoryCost: nat, parallelism: nat, hashLen: nat, saltLen: nat)

  predicate ValidParams(p: KdfParams) {
    && 2 <= p.timeCost <= 20
    && 19_456 <= p.memoryCost <= 2 * 1024 * 1024
    && 1 <= p.parallelism <= 64
    && 32 <= p.hashLen <= 64
    && 16 <= p.saltLen <= 64
  }

  const HIGH_MEMORY := KdfParams(3, 262_144, 4, 32, 16)
  const BALANCED := KdfParams(4, 65_536, 4, 32, 16)

  /** The parameters as a header stores them, with the salt itself in place of its length. */
  datatype KdfFields = KdfFields(timeCost: nat, memoryCost: nat, parallelism: nat, hashLen: nat, salt: bytes) {
    function ToParams(): KdfParams {
      KdfParams(timeCost, memoryCost, parallelism, hashLen, |salt|)
    }
  }

  function FieldsOf(p: KdfParams, salt: bytes): KdfFields {
    KdfFields(p.timeCost, p.memoryCost, p.parallelism, p.hashLen, salt)
  }

  /** The two slot shapes the model validator admits. */
  datatype Slot =
    | PassphraseSlot(wrapped: bytes, kdf: KdfFields, nonce: bytes, title: string)
    | OpenPgpSlot(wrapped: bytes, fingerprint: string, title: string)

  predicate ValidSlot(s: Slot) {
    && 0 < |s.wrapped| <= MAX_WRAPPED_KEY_LENGTH
    && |s.title| <= MAX_VAULT_SLOT_LABEL_LENGTH
    && (s.PassphraseSlot? ==> ValidParams(s.kdf.ToParams()) && |s.nonce| == NONCE_LEN)
    && (s.OpenPgpSlot? ==> IsFingerprint(s.fingerprint))
  }

  datatype Header = Header(version: nat, kdf: Option<KdfFields>, cipher: Cipher, nonce: bytes, slots: Option<seq<Slot>>)

  /** Version 2 derives the key from the passphrase; version 3 wraps it once per slot. */
  predicate ValidHeader(h: Header) {
    && |h.nonce| == NONCE_LEN
    && (h.version == 2 || h.version == 3)
    && (h.version == 2 ==> h.kdf.Some? && ValidParams(h.kdf.value.ToParams()) && h.slots.None?)
    && (h.version == 3 ==>
          && h.kdf.None? && h.slots.Some?
          && 0 < |h.slots.value| <= MAX_VAULT_KEY_SLOTS
          && forall i | 0 <= i < |h.slots.value| :: ValidSlot(h.slots.value[i]))
  }

  // ---------------------------------------------------------------- fingerprints

  predicate IsUpperHex(c: char) { '0' <= c <= '9' || 'A' <= c <= 'F' }

  /** What `normalise_fingerprint` returns. */
  predicate IsFingerprint(s: string) { |s| == 40 && forall i | 0 <= i < 40 :: IsUpperHex(s[i]) }

  function ToUpper(c: char): (u: char)
    ensures Text.IsHex(c) ==> IsUpperHex(u)
  {
    if 'a' <= c <= 'z' then (c as int - 32) as char else c
  }

  function Upper(s: string): (u: string)
    ensures |u| == |s|
  {
    if s == [] then [] else [ToUpper(s[0])] + Upper(s[1..])
  }

  function NormaliseFingerprint(s: string): Option<string> {
    var u := Upper(s);
    if IsFingerprint(u) then Some(u) else None
  }

  /** A normalised fingerprint stays as it is. */
  lemma NormalForm(fp: string)
    requires IsFingerprint(fp)
    ensures NormaliseFingerprint(fp) == Some(fp)
  {
    UpperAt(fp);
    assert Upper(fp) == fp;
  }

  function HexDigit(v: nat): (c: char)
    requires v < 16
    ensures IsUpperHex(c)
  {
    if v < 10 then ('0' as int + v) as char else ('A' as int + v - 10) as char
  }

  /** `bytes.fromhex` on an even number of hexadecimal digits. */
  function FromHex(s: string): (b: bytes)
    requires |s| % 2 == 0 && forall i | 0 <= i < |s| :: Text.IsHex(s[i])
    ensures |b| == |s| / 2
  {
    if s == [] then [] else [16 * Text.HexValue(s[0]) + Text.HexValue(s[1])] + FromHex(s[2..])
  }

  /** `b.hex().upper()`. */
  function ToHex(b: bytes): (s: string)
    ensures |s| == 2 * |b|
    ensures forall i | 0 <= i < |s| :: IsUpperHex(s[i])
  {
    if b == [] then [] else [HexDigit(b[0] / 16), HexDigit(b[0] % 16)] + ToHex(b[1..])
  }

  lemma HexPair(c: char, d: char, rest: bytes)
    requires Text.IsHex(c) && Text.IsHex(d)
    ensures ToHex([16 * Text.HexValue(c) + Text.HexValue(d)] + rest) == [ToUpper(c), ToUpper(d)] + ToHex(rest)
  {
    var b := [16 * Text.HexValue(c) + Text.HexValue(d)] + rest;
    assert b[0] / 16 == Text.HexValue(c) && b[0] % 16 == Text.HexValue(d) && b[1..] == rest;
    assert HexDigit(Text.HexValue(c)) == ToUpper(c) && HexDigit(Text.HexValue(d)) == ToUpper(d);
  }

  lemma {:induction false} HexRoundTrip(s: string)
    requires |s| % 2 == 0 && forall i | 0 <= i < |s| :: Text.IsHex(s[i])
    ensures ToHex(FromHex(s)) == Upper(s)
    decreases |s|
  {
    if s != [] {
      var rest := s[2..];
      HexRoundTrip(rest);
      HexPair(s[0], s[1], FromHex(rest));
      assert s[1..][1..] == rest;
      assert Upper(s) == [ToUpper(s[0])] + ([ToUpper(s[1])] + Upper(rest));
    }
  }

  lemma {:induction false} UpperAt(s: string)
    ensures forall i | 0 <= i < |s| :: Upper(s)[i] == ToUpper(s[i])
    decreases |s|
  {
    if s != [] {
      UpperAt(s[1..]);
    }
  }

  lemma {:induction false} BytesRoundTrip(b: bytes)
    ensures FromHex(ToHex(b)) == b
    decreases |b|
  {
    if b != [] {
      BytesRoundTrip(b[1..]);
      var s := ToHex(b);
      assert s[2..] == ToHex(b[1..]);
      assert Text.HexValue(HexDigit(b[0] / 16)) == b[0] / 16 && Text.HexValue(HexDigit(b[0] % 16)) == b[0] % 16;
    }
  }
}
