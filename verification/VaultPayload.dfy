/**
 The decrypted vault payload of services/vault_service.py:

   u32 manifest length  manifest  then, per key in manifest order,
   20-byte fingerprint  u32 length  public key  u32 length  private key

 The msgpack manifest codec is abstract.
 */
module VaultPayload {
  import opened Wrappers
  import opened Bytes
  import Text
  import opened VaultModel

  const MAX_VAULT_ARMOR_LENGTH := 8 * 1024 * 1024
  const MAX_VAULT_KEYS := 1024
  const FINGERPRINT_BYTES := 20

  /** `VaultKeyEntry`; the fields the payload walk does not look at are in `meta`. */
  datatype Entry = Entry(fingerprint: string, hasPrivate: bool, meta: bytes)

  datatype Manifest = Manifest(meta: bytes, keys: seq<Entry>)

  predicate ValidManifest(m: Manifest) {
    |m.keys| <= MAX_VAULT_KEYS && forall i | 0 <= i < |m.keys| :: IsFingerprint(m.keys[i].fingerprint)
  }

  datatype ManifestCodec = ManifestCodec(write: Manifest -> bytes, read: bytes -> Option<Manifest>)

  ghost predicate FaithfulManifest(c: ManifestCodec) {
    && (forall m | ValidManifest(m) :: c.read(c.write(m)) == Some(m))
    && (forall b: bytes :: c.read(b).Some? ==> ValidManifest(c.read(b).value))
  }

  /** One key's armor as collected for writing. */
  datatype Material = Material(fingerprint: string, public: bytes, private: Option<bytes>)

  function PrivateBytes(m: Material): bytes { match m.private case Some(b) => b case None => [] }

  /** What `_append_key_material` accepts. */
  predicate Legal(m: Material) {
    && 1 <= |m.public| <= MAX_VAULT_ARMOR_LENGTH && |PrivateBytes(m)| <= MAX_VAULT_ARMOR_LENGTH
    && HexFingerprint(m.fingerprint)
  }

  predicate HexFingerprint(s: string) { |s| == 40 && forall i | 0 <= i < 40 :: Text.IsHex(s[i]) }

  datatype PayloadError =
    | PublicLengthInvalid | PrivateLengthInvalid | ManifestTooLong
    | Empty | Truncated | ManifestTruncated | BadManifest
    | FingerprintMismatch | MissingPrivate | TrailingData | BadLegacy

  // ---------------------------------------------------------------- writing

  function Frame(b: bytes): bytes
    requires |b| < U32_LIMIT
  {
    U32(|b|) + b
  }

  /** One key's part of the stream. */
  function Segment(m: Material): bytes
    requires Legal(m)
  {
    FromHex(m.fingerprint) + Frame(m.public) + Frame(PrivateBytes(m))
  }

  predicate AllLegal(ms: seq<Material>) { forall i | 0 <= i < |ms| :: Legal(ms[i]) }

  function Segments(ms: seq<Material>): bytes
    requires AllLegal(ms)
  {
    if ms == [] then [] else Segment(ms[0]) + Segments(ms[1..])
  }

  function Serialised(manifestBytes: bytes, ms: seq<Material>): bytes
    requires |manifestBytes| < U32_LIMIT && AllLegal(ms)
  {
    Frame(manifestBytes) + Segments(ms)
  }

  lemma {:induction false} SegmentsSnoc(ms: seq<Material>, m: Material)
    requires AllLegal(ms) && Legal(m)
    ensures AllLegal(ms + [m]) && Segments(ms + [m]) == Segments(ms) + Segment(m)
    decreases |ms|
  {
    var all := ms + [m];
    if ms == [] {
      assert all == [m] && all[1..] == [];
      assert Segments(all) == Segment(m) + [];
    } else {
      SegmentsSnoc(ms[1..], m);
      assert all[1..] == ms[1..] + [m];
      var head, tail, last := Segment(ms[0]), Segments(ms[1..]), Segment(m);
      assert Segments(all) == head + (tail + last) == head + tail + last;
    }
  }

  /** A Python bytearray. */
  class Buffer {
    var data: bytes

    constructor (data: bytes)
      ensures this.data == data
    {
      this.data := data;
    }

    method Extend(more: bytes)
      modifies this
      ensures data == old(data) + more
    {
      data := data + more;
    }

    /** `zero_mutable_buffer`. */
    method Zero()
      modifies this
      ensures |data| == |old(data)| && forall i | 0 <= i < |data| :: data[i] == 0
    {
      data := seq(|data|, _ => 0);
    }

    method Clear()
      modifies this
      ensures data == []
    {
      data := [];
    }
  }

  /** `_append_key_material`; both callers pass a fingerprint of 40 hexadecimal digits. */
  method AppendKeyMaterial(payload: Buffer, m: Material) returns (r: Result<(), PayloadError>)
    requires HexFingerprint(m.fingerprint)
    modifies payload
    ensures r.Ok? <==> Legal(m)
    ensures r.Ok? ==> payload.data == old(payload.data) + Segment(m)
    ensures r.Err? ==> payload.data == old(payload.data)
  {
    if m.public == [] || |m.public| > MAX_VAULT_ARMOR_LENGTH {
      return Err(PublicLengthInvalid);
    }
    if m.private.Some? && |m.private.value| > MAX_VAULT_ARMOR_LENGTH {
      return Err(PrivateLengthInvalid);
    }
    payload.Extend(FromHex(m.fingerprint));
    payload.Extend(U32(|m.public|));
    payload.Extend(m.public);
    payload.Extend(U32(|PrivateBytes(m)|));
    if m.private.Some? && m.private.value != [] {
      payload.Extend(m.private.value);
    }
    assert payload.data == old(payload.data) + Segment(m);
    r := Ok(());
  }

  /** The loop of `_serialise_segmented_payload` and `_replace_with_segmented_payload`. */
  method AppendAll(payload: Buffer, ms: seq<Material>) returns (r: Result<(), PayloadError>)
    requires forall k | 0 <= k < |ms| :: HexFingerprint(ms[k].fingerprint)
    modifies payload
    ensures r.Ok? <==> AllLegal(ms)
    ensures r.Ok? ==> payload.data == old(payload.data) + Segments(ms)
  {
    ghost var start, done, written: bytes := payload.data, ms[..0], [];
    for n := 0 to |ms|
      invariant done == ms[..n] && AllLegal(done) && written == Segments(done)
      invariant payload.data == start + written
    {
      r := AppendKeyMaterial(payload, ms[n]);
      if r.Err? {
        assert !Legal(ms[n]);
        return;
      }
      SegmentsSnoc(done, ms[n]);
      Associative(start, written, Segment(ms[n]));
      done, written := done + [ms[n]], written + Segment(ms[n]);
    }
    assert done == ms;
    r := Ok(());
  }

  lemma Associative(a: bytes, b: bytes, c: bytes)
    ensures (a + b) + c == a + (b + c)
  {
  }

  /** `_serialise_segmented_payload`. */
  method SerialisePayload(c: ManifestCodec, manifest: Manifest, ms: seq<Material>) returns (r: Result<Buffer, PayloadError>)
    requires forall k | 0 <= k < |ms| :: HexFingerprint(ms[k].fingerprint)
    ensures r.Ok? <==> |c.write(manifest)| < U32_LIMIT && AllLegal(ms)
    ensures r.Ok? ==> fresh(r.value) && r.value.data == Serialised(c.write(manifest), ms)
  {
    var manifestBytes := c.write(manifest);
    if |manifestBytes| >= U32_LIMIT {
      return Err(ManifestTooLong);    // struct.error
    }
    var payload := new Buffer(U32(|manifestBytes|));
    payload.Extend(manifestBytes);
    var appended := AppendAll(payload, ms);
    r := if appended.Ok? then Ok(payload) else Err(appended.error);
  }

  // ---------------------------------------------------------------- reading

  datatype KeySlice = KeySlice(publicStart: nat, publicEnd: nat, privateStart: nat, privateEnd: nat)

  /** `_read_u32`: the value, and the offset after it. */
  function ReadU32(view: bytes, offset: nat): Result<(nat, nat), PayloadError> {
    if offset + 4 > |view| then Err(Truncated) else Ok((U32Value(view[offset..offset + 4]), offset + 4))
  }

  /** A length-prefixed block: its bounds. */
  function ReadBlock(view: bytes, offset: nat, min: nat, bad: PayloadError): Result<(nat, nat), PayloadError> {
    match ReadU32(view, offset)
    case Err(e) => Err(e)
    case Ok((n, start)) =>
      if n < min || n > MAX_VAULT_ARMOR_LENGTH then Err(bad)
      else if start + n > |view| then Err(Truncated)
      else Ok((start, start + n))
  }

  /** `_read_key_slice`. */
  function ReadKeySlice(view: bytes, offset: nat, entry: Entry): Result<KeySlice, PayloadError> {
    if offset + FINGERPRINT_BYTES > |view| then Err(Truncated)
    else
      match ReadBlock(view, offset + FINGERPRINT_BYTES, 1, PublicLengthInvalid)
      case Err(e) => Err(e)
      case Ok((publicStart, publicEnd)) =>
        match ReadBlock(view, publicEnd, 0, PrivateLengthInvalid)
        case Err(e) => Err(e)
        case Ok((privateStart, privateEnd)) =>
          if ToHex(view[offset..offset + FINGERPRINT_BYTES]) != entry.fingerprint then Err(FingerprintMismatch)
          else if entry.hasPrivate && privateEnd - privateStart < 1 then Err(MissingPrivate)
          else Ok(KeySlice(publicStart, publicEnd, privateStart, privateEnd))
  }

  /** The slice walk: every entry's slice, and where the walk ended. */
  function WalkKeys(view: bytes, offset: nat, entries: seq<Entry>): Result<(seq<KeySlice>, nat), PayloadError>
    decreases |entries|
  {
    if entries == [] then Ok(([], offset))
    else
      match ReadKeySlice(view, offset, entries[0])
      case Err(e) => Err(e)
      case Ok(s) =>
        match WalkKeys(view, s.privateEnd, entries[1..])
        case Err(e) => Err(e)
        case Ok((ss, end)) => Ok(([s] + ss, end))
  }

  /** The manifest segment: the manifest, and the offset of the key stream. */
  function ReadManifest(c: ManifestCodec, payload: bytes): Result<(Manifest, nat), PayloadError> {
    match ReadU32(payload, 0)
    case Err(e) => Err(e)
    case Ok((n, offset)) =>
      if offset + n > |payload| then Err(ManifestTruncated)
      else
        match c.read(payload[offset..offset + n])
        case None => Err(BadManifest)
        case Some(m) => Ok((m, offset + n))
  }

  /** The msgpack fixmap family: how the code recognises a legacy payload. */
  predicate LooksLegacy(payload: bytes) { payload != [] && 0x80 <= payload[0] <= 0x8F }

  /** A parsed payload: the manifest, and the slices in manifest order. */
  datatype Opened = Opened(manifest: Manifest, slices: seq<KeySlice>)

  /** The shared end of `_deserialise_segmented_payload`. */
  function ReadKeys(payload: bytes, manifest: Manifest, offset: nat): Result<Opened, PayloadError> {
    match WalkKeys(payload, offset, manifest.keys)
    case Err(e) => Err(e)
    case Ok((ss, end)) => if end != |payload| then Err(TrailingData) else Ok(Opened(manifest, ss))
  }

  /** `_deserialise_segmented_payload` on a payload that does not look legacy. */
  function ReadModern(c: ManifestCodec, payload: bytes): Result<Opened, PayloadError> {
    if payload == [] then Err(Empty)
    else
      match ReadManifest(c, payload)
      case Err(e) => Err(e)
      case Ok((m, offset)) => ReadKeys(payload, m, offset)
  }

  /** `key_slices`: a dictionary, so a repeated fingerprint keeps its last slice. */
  function SliceMap(entries: seq<Entry>, slices: seq<KeySlice>): map<string, KeySlice>
    requires |entries| == |slices|
  {
    if entries == [] then map[]
    else
      var n := |entries| - 1;
      SliceMap(entries[..n], slices[..n])[entries[n].fingerprint := slices[n]]
  }

  /** The loop of lines 447-453. */
  method ReadKeyStream(payload: bytes, manifest: Manifest, start: nat)
    returns (r: Result<map<string, KeySlice>, PayloadError>)
    ensures match ReadKeys(payload, manifest, start)
            case Err(e) => r == Err(e)
            case Ok(o) => |o.slices| == |manifest.keys| && r == Ok(SliceMap(manifest.keys, o.slices))
  {
    var keySlices: map<string, KeySlice> := map[];
    var offset := start;
    ghost var seen: seq<KeySlice> := [];
    var keys := manifest.keys;
    assert keys[..0] == [] && keys[0..] == keys;
    PrependNil(WalkKeys(payload, start, keys));
    for n := 0 to |keys|
      invariant |seen| == n && keySlices == SliceMap(keys[..n], seen)
      invariant WalkKeys(payload, start, keys) == Prepend(seen, WalkKeys(payload, offset, keys[n..]))
    {
      assert keys[n..][0] == keys[n] && keys[n..][1..] == keys[n + 1..];
      match ReadKeySlice(payload, offset, keys[n]) {
        case Err(e) => return Err(e);
        case Ok(s) =>
          offset := s.privateEnd;
          keySlices := keySlices[keys[n].fingerprint := s];
          assert keys[..n + 1][..n] == keys[..n] && (seen + [s])[..n] == seen;
          PrependSnoc(seen, s, WalkKeys(payload, offset, keys[n + 1..]));
          seen := seen + [s];
      }
    }
    assert keys[..|keys|] == keys;
    if offset != |payload| {
      return Err(TrailingData);
    }
    assert seen + [] == seen;
    r := Ok(keySlices);
  }

  ghost function Prepend(ss: seq<KeySlice>, r: Result<(seq<KeySlice>, nat), PayloadError>): Result<(seq<KeySlice>, nat), PayloadError> {
    match r case Err(e) => Err(e) case Ok((rest, end)) => Ok((ss + rest, end))
  }

  lemma PrependNil(r: Result<(seq<KeySlice>, nat), PayloadError>)
    ensures Prepend([], r) == r
  {
    if r.Ok? {
      assert [] + r.value.0 == r.value.0;
    }
  }

  lemma PrependSnoc(ss: seq<KeySlice>, s: KeySlice, r: Result<(seq<KeySlice>, nat), PayloadError>)
    ensures Prepend(ss, Prepend([s], r)) == Prepend(ss + [s], r)
  {
    if r.Ok? {
      assert ss + ([s] + r.value.0) == ss + [s] + r.value.0;
    }
  }

  // ---------------------------------------------------------------- what a walk covers

  function Cut(view: bytes, start: nat, end: nat): bytes {
    if start <= end <= |view| then view[start..end] else []
  }

  /** The bytes of one key as its slice shows them. */
  function MaterialOf(view: bytes, e: Entry, s: KeySlice): Material {
    Material(e.fingerprint, Cut(view, s.publicStart, s.publicEnd), Some(Cut(view, s.privateStart, s.privateEnd)))
  }

  /** A slice read at `offset`: both blocks in range, in order, and nothing between them but the framing. */
  lemma SliceShape(view: bytes, offset: nat, e: Entry)
    requires ReadKeySlice(view, offset, e).Ok?
    ensures var s := ReadKeySlice(view, offset, e).value;
            && s.publicStart == offset + 24 && s.publicStart < s.publicEnd
            && s.privateStart == s.publicEnd + 4 && s.privateStart <= s.privateEnd <= |view|
            && s.privateEnd == offset + 28 + (s.publicEnd - s.publicStart) + (s.privateEnd - s.privateStart)
            && (e.hasPrivate ==> s.privateStart < s.privateEnd)
  {
  }

  lemma BlockBytes(view: bytes, offset: nat, min: nat, bad: PayloadError, start: nat, end: nat)
    requires ReadBlock(view, offset, min, bad) == Ok((start, end))
    ensures start == offset + 4 && start + min <= end <= |view| && end - start <= MAX_VAULT_ARMOR_LENGTH
    ensures At(view, offset, Frame(Cut(view, start, end)))
  {
    U32Inverse(view[offset..start]);
    AtJoin(view, offset, view[offset..start], view[start..end]);
  }

  /** The bytes a slice was read from are exactly the segment of its material. */
  lemma SliceBytes(view: bytes, offset: nat, e: Entry, s: KeySlice, m: Material)
    requires ReadKeySlice(view, offset, e) == Ok(s) && IsFingerprint(e.fingerprint) && m == MaterialOf(view, e, s)
    ensures Legal(m) && At(view, offset, Segment(m)) && offset + |Segment(m)| == s.privateEnd
    ensures e.hasPrivate ==> PrivateBytes(m) != []
  {
    var fp := offset + FINGERPRINT_BYTES;
    SliceBlocks(view, offset, e, s);
    BlockBytes(view, fp, 1, PublicLengthInvalid, s.publicStart, s.publicEnd);
    BlockBytes(view, s.publicEnd, 0, PrivateLengthInvalid, s.privateStart, s.privateEnd);
    BytesRoundTrip(view[offset..fp]);
    JoinSegment(view, offset, m);
  }

  /** The two block reads behind a slice. */
  lemma SliceBlocks(view: bytes, offset: nat, e: Entry, s: KeySlice)
    requires ReadKeySlice(view, offset, e) == Ok(s)
    ensures offset + FINGERPRINT_BYTES <= |view| && ToHex(view[offset..offset + FINGERPRINT_BYTES]) == e.fingerprint
    ensures ReadBlock(view, offset + FINGERPRINT_BYTES, 1, PublicLengthInvalid) == Ok((s.publicStart, s.publicEnd))
    ensures ReadBlock(view, s.publicEnd, 0, PrivateLengthInvalid) == Ok((s.privateStart, s.privateEnd))
    ensures e.hasPrivate ==> s.privateStart < s.privateEnd
  {
  }

  lemma JoinSegment(view: bytes, offset: nat, m: Material)
    requires Legal(m) && At(view, offset, FromHex(m.fingerprint))
    requires At(view, offset + FINGERPRINT_BYTES, Frame(m.public))
    requires At(view, offset + FINGERPRINT_BYTES + |Frame(m.public)|, Frame(PrivateBytes(m)))
    ensures At(view, offset, Segment(m))
  {
    var fp, public, private := FromHex(m.fingerprint), Frame(m.public), Frame(PrivateBytes(m));
    AtJoin(view, offset, fp, public);
    AtJoin(view, offset, fp + public, private);
  }

  function CoveredBytes(ss: seq<KeySlice>): int {
    if ss == [] then 0
    else 28 + (ss[0].publicEnd - ss[0].publicStart) + (ss[0].privateEnd - ss[0].privateStart) + CoveredBytes(ss[1..])
  }

  /** All bounds in range; each key's blocks in order, and after those of the key before. */
  ghost predicate Ordered(ss: seq<KeySlice>, from: nat, end: nat) {
    if ss == [] then from == end
    else
      var s := ss[0];
      && from + 24 == s.publicStart < s.publicEnd && s.publicEnd + 4 == s.privateStart <= s.privateEnd <= end
      && Ordered(ss[1..], s.privateEnd, end)
  }

  /** A successful walk cuts its stretch of the payload into the slices and their framing, with nothing left over. */
  lemma {:induction false} WalkCovers(view: bytes, offset: nat, entries: seq<Entry>)
    requires WalkKeys(view, offset, entries).Ok? && offset <= |view|
    ensures var (ss, end) := WalkKeys(view, offset, entries).value;
            && |ss| == |entries| && offset <= end <= |view|
            && end == offset + CoveredBytes(ss) && Ordered(ss, offset, end)
    decreases |entries|
  {
    if entries != [] {
      SliceShape(view, offset, entries[0]);
      var s := ReadKeySlice(view, offset, entries[0]).value;
      WalkCovers(view, s.privateEnd, entries[1..]);
      var (ss, _) := WalkKeys(view, offset, entries).value;
      assert ss[1..] == WalkKeys(view, s.privateEnd, entries[1..]).value.0;
    }
  }

  /** Exact cover: the length of every accepted payload, and where its slices lie. */
  lemma ExactCover(c: ManifestCodec, payload: bytes)
    requires ReadModern(c, payload).Ok?
    ensures var o := ReadModern(c, payload).value;
            && 4 <= |payload| && 4 + U32Value(payload[..4]) <= |payload|
            && |o.slices| == |o.manifest.keys|
            && |payload| == 4 + U32Value(payload[..4]) + CoveredBytes(o.slices)
            && Ordered(o.slices, 4 + U32Value(payload[..4]), |payload|)
  {
    var (m, offset) := ReadManifest(c, payload).value;
    assert payload[0..4] == payload[..4];
    WalkCovers(payload, offset, m.keys);
  }

  // ---------------------------------------------------------------- sensitivity to the length

  lemma BlockInPrefix(view: bytes, k: nat, offset: nat, min: nat, bad: PayloadError)
    requires ReadBlock(view, offset, min, bad).Ok? && ReadBlock(view, offset, min, bad).value.1 <= k <= |view|
    ensures ReadBlock(view[..k], offset, min, bad) == ReadBlock(view, offset, min, bad)
  {
    assert view[..k][offset..offset + 4] == view[offset..offset + 4];
  }

  lemma SliceInPrefix(view: bytes, k: nat, offset: nat, e: Entry)
    requires ReadKeySlice(view, offset, e).Ok? && ReadKeySlice(view, offset, e).value.privateEnd <= k <= |view|
    ensures ReadKeySlice(view[..k], offset, e) == ReadKeySlice(view, offset, e)
  {
    var s := ReadKeySlice(view, offset, e).value;
    BlockInPrefix(view, k, offset + FINGERPRINT_BYTES, 1, PublicLengthInvalid);
    BlockInPrefix(view, k, s.publicEnd, 0, PrivateLengthInvalid);
    assert view[..k][offset..offset + FINGERPRINT_BYTES] == view[offset..offset + FINGERPRINT_BYTES];
  }

  /** A walk reads nothing past where it ends. */
  lemma {:induction false} WalkInPrefix(view: bytes, k: nat, offset: nat, entries: seq<Entry>)
    requires WalkKeys(view, offset, entries).Ok? && offset <= |view|
    requires WalkKeys(view, offset, entries).value.1 <= k <= |view|
    ensures WalkKeys(view[..k], offset, entries) == WalkKeys(view, offset, entries)
    decreases |entries|
  {
    if entries != [] {
      var s := ReadKeySlice(view, offset, entries[0]).value;
      SliceShape(view, offset, entries[0]);
      WalkCovers(view, s.privateEnd, entries[1..]);
      SliceInPrefix(view, k, offset, entries[0]);
      WalkInPrefix(view, k, s.privateEnd, entries[1..]);
    }
  }

  /**
   Of two payloads with the same manifest segment, one an extension of the
   other, at most one is accepted: bytes added or dropped after the manifest
   are always noticed.
   */
  lemma LengthIsExact(c: ManifestCodec, payload: bytes, k: nat)
    requires ReadModern(c, payload).Ok? && 4 + U32Value(payload[..4]) <= k < |payload|
    ensures ReadModern(c, payload[..k]).Err?
  {
    var (m, offset) := ReadManifest(c, payload).value;
    var short := payload[..k];
    assert payload[0..4] == payload[..4] == short[0..4] && short[4..offset] == payload[4..offset];
    if ReadModern(c, short).Ok? {
      assert ReadManifest(c, short) == Ok((m, offset));
      WalkExtends(payload, k, offset, m.keys);
      assert false;
    }
  }

  lemma BlockExtends(view: bytes, k: nat, offset: nat, min: nat, bad: PayloadError)
    requires k <= |view| && ReadBlock(view[..k], offset, min, bad).Ok?
    ensures ReadBlock(view, offset, min, bad) == ReadBlock(view[..k], offset, min, bad)
  {
    assert view[..k][offset..offset + 4] == view[offset..offset + 4];
  }

  lemma SliceExtends(view: bytes, k: nat, offset: nat, e: Entry)
    requires k <= |view| && ReadKeySlice(view[..k], offset, e).Ok?
    ensures ReadKeySlice(view, offset, e) == ReadKeySlice(view[..k], offset, e)
  {
    var s := ReadKeySlice(view[..k], offset, e).value;
    BlockExtends(view, k, offset + FINGERPRINT_BYTES, 1, PublicLengthInvalid);
    BlockExtends(view, k, s.publicEnd, 0, PrivateLengthInvalid);
    assert view[..k][offset..offset + FINGERPRINT_BYTES] == view[offset..offset + FINGERPRINT_BYTES];
  }

  /** A walk that succeeds does the same on any longer payload. */
  lemma {:induction false} WalkExtends(view: bytes, k: nat, offset: nat, entries: seq<Entry>)
    requires k <= |view| && WalkKeys(view[..k], offset, entries).Ok?
    ensures WalkKeys(view, offset, entries) == WalkKeys(view[..k], offset, entries)
    decreases |entries|
  {
    if entries != [] {
      SliceExtends(view, k, offset, entries[0]);
      var s := ReadKeySlice(view, offset, entries[0]).value;
      WalkExtends(view, k, s.privateEnd, entries[1..]);
    }
  }
}
