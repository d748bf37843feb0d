/**
 Payloads of older vaults: one msgpack map with the key armor inline.  Reading
 one rebuilds the buffer in place into the modern layout and then walks it as
 usual.

 The msgpack decoder is abstract: it yields the raw map, or nothing if the bytes
 are no map or the fields outside the key list do not validate.
 */
module VaultLegacy {
  import opened Wrappers
  import opened Bytes
  import opened VaultModel
  import opened VaultPayload
  import opened VaultRoundTrip

  /** A value under an armor key of a raw key entry. */
  datatype Armor = Absent | Raw(data: bytes) | NotBytes

  /** One raw key entry; `fingerprint` is None when missing or not text. */
  datatype LegacyEntry = LegacyEntry(fingerprint: Option<string>, hasPrivate: bool, meta: bytes, public: Armor, private: Armor)

  datatype LegacyDoc = LegacyDoc(meta: bytes, keys: seq<LegacyEntry>)

  datatype LegacyCodec = LegacyCodec(modern: ManifestCodec, legacy: bytes -> Option<LegacyDoc>)

  // ---------------------------------------------------------------- taking the armor out

  /** The collected triple of one entry, nothing if it carries no public armor. */
  function Popped(e: LegacyEntry): Result<Option<Material>, PayloadError> {
    if e.public.Absent? then Ok(None)
    else if e.public.NotBytes? || e.private.NotBytes? || e.fingerprint.None? then Err(BadLegacy)
    else Ok(Some(Material(e.fingerprint.value, e.public.data, if e.private.Raw? then Some(e.private.data) else None)))
  }

  function PopAll(keys: seq<LegacyEntry>): Result<seq<Material>, PayloadError> {
    if keys == [] then Ok([])
    else
      var n := |keys| - 1;
      match (PopAll(keys[..n]), Popped(keys[n]))
      case (Err(e), _) => Err(e)
      case (_, Err(e)) => Err(e)
      case (Ok(ms), Ok(None)) => Ok(ms)
      case (Ok(ms), Ok(Some(m))) => Ok(ms + [m])
  }

  /** `_pop_legacy_key_material`. */
  method PopKeyMaterial(keys: seq<LegacyEntry>) returns (r: Result<seq<Material>, PayloadError>)
    ensures r == PopAll(keys)
  {
    var out: seq<Material> := [];
    for n := 0 to |keys|
      invariant PopAll(keys[..n]) == Ok(out)
      invariant forall k | 0 <= k <= n :: PopAll(keys[..k]).Ok?
    {
      assert keys[..n + 1][..n] == keys[..n] && keys[..n + 1][n] == keys[n];
      var popped := Popped(keys[n]);
      if popped.Err? {
        PopAllFails(keys, n + 1);
        return Err(popped.error);
      }
      if popped.value.Some? {
        out := out + [popped.value.value];
      }
    }
    assert keys[..|keys|] == keys;
    r := Ok(out);
  }

  /** The first malformed entry decides. */
  lemma {:induction false} PopAllFails(keys: seq<LegacyEntry>, n: nat)
    requires n <= |keys| && PopAll(keys[..n]).Err?
    ensures PopAll(keys) == PopAll(keys[..n])
    decreases |keys|
  {
    if n < |keys| {
      var last := |keys| - 1;
      assert keys[..last][..n] == keys[..n];
      PopAllFails(keys[..last], n);
    } else {
      assert keys[..n] == keys;
    }
  }

  // ---------------------------------------------------------------- validating what is left

  /** `VaultKeyEntry` forbids extra fields, so private armor without public armor does not validate. */
  function ValidateEntry(e: LegacyEntry): Option<Entry> {
    if e.fingerprint.None? || (e.public.Absent? && !e.private.Absent?) then None
    else if |e.fingerprint.value| != 40 then None
    else
      match NormaliseFingerprint(e.fingerprint.value)
      case None => None
      case Some(fp) => Some(Entry(fp, e.hasPrivate, e.meta))
  }

  function ValidateEntries(keys: seq<LegacyEntry>): Option<seq<Entry>> {
    if keys == [] then Some([])
    else
      match (ValidateEntry(keys[0]), ValidateEntries(keys[1..]))
      case (Some(e), Some(es)) => Some([e] + es)
      case _ => None
  }

  /** `VaultManifest.model_validate` on the map without its armor. */
  function Validate(doc: LegacyDoc): Option<Manifest> {
    if |doc.keys| > MAX_VAULT_KEYS then None
    else
      match ValidateEntries(doc.keys)
      case None => None
      case Some(es) => Some(Manifest(doc.meta, es))
  }

  // ---------------------------------------------------------------- the rebuild

  /** What the rebuild makes of a payload: the new bytes, the manifest, and where the key stream starts. */
  datatype Rebuilt = Rebuilt(payload: bytes, manifest: Manifest, offset: nat)

  /** `_rebuild_legacy_segmented_payload`. */
  function Rebuild(c: LegacyCodec, payload: bytes): Result<Rebuilt, PayloadError> {
    match c.legacy(payload)
    case None => Err(BadLegacy)
    case Some(doc) =>
      match PopAll(doc.keys)
      case Err(e) => Err(e)
      case Ok(ms) =>
        match Validate(doc)
        case None => Err(BadLegacy)
        case Some(m) =>
          if ms == [] then Ok(Rebuilt(payload, m, |payload|))
          else
            var mb := c.modern.write(m);
            if |mb| >= U32_LIMIT || !AllLegal(ms) then Err(BadLegacy)
            else Ok(Rebuilt(Serialised(mb, ms), m, 4 + |mb|))
  }

  /** `_deserialise_segmented_payload`: the payload as it is afterwards, and what was read from it. */
  function Deserialise(c: LegacyCodec, payload: bytes): Result<(bytes, Opened), PayloadError> {
    if LooksLegacy(payload) then
      match Rebuild(c, payload)
      case Err(e) => Err(e)
      case Ok(b) => match ReadKeys(b.payload, b.manifest, b.offset) case Err(e) => Err(e) case Ok(o) => Ok((b.payload, o))
    else
      match ReadModern(c.modern, payload) case Err(e) => Err(e) case Ok(o) => Ok((payload, o))
  }

  /** `_replace_with_segmented_payload`: builds the new payload beside the old one, then moves it over. */
  method ReplacePayload(c: LegacyCodec, payload: Buffer, manifest: Manifest, ms: seq<Material>) returns (r: Result<nat, PayloadError>)
    requires forall k | 0 <= k < |ms| :: HexFingerprint(ms[k].fingerprint)
    modifies payload
    ensures r.Ok? <==> |c.modern.write(manifest)| < U32_LIMIT && AllLegal(ms)
    ensures r.Ok? ==> payload.data == Serialised(c.modern.write(manifest), ms) && r.value == 4 + |c.modern.write(manifest)|
    ensures r.Err? ==> payload.data == old(payload.data)
  {
    var manifestBytes := c.modern.write(manifest);
    if |manifestBytes| >= U32_LIMIT {
      return Err(BadLegacy);
    }
    var newPayload := new Buffer(U32(|manifestBytes|));
    newPayload.Extend(manifestBytes);
    var appended := AppendAll(newPayload, ms);
    if appended.Ok? {
      payload.Zero();
      payload.Clear();
      payload.Extend(newPayload.data);
      r := Ok(4 + |manifestBytes|);
    } else {
      r := Err(appended.error);
    }
    newPayload.Zero();
  }

  /** `_deserialise_segmented_payload` itself: a legacy payload is rebuilt in the caller's buffer. */
  method DeserialisePayload(c: LegacyCodec, payload: Buffer)
    returns (r: Result<(Manifest, map<string, KeySlice>), PayloadError>)
    modifies payload
    ensures match Deserialise(c, old(payload.data))
            case Err(_) => r.Err?
            case Ok((data, o)) =>
              && payload.data == data && |o.slices| == |o.manifest.keys|
              && r == Ok((o.manifest, SliceMap(o.manifest.keys, o.slices)))
  {
    if payload.data == [] {
      return Err(Empty);
    }
    var start: Result<(Manifest, nat), PayloadError>;
    if LooksLegacy(payload.data) {
      start := RebuildPayload(c, payload);
    } else {
      start := ReadManifest(c.modern, payload.data);
    }
    if start.Err? {
      return Err(start.error);
    }
    var keys := ReadKeyStream(payload.data, start.value.0, start.value.1);
    r := match keys case Err(e) => Err(e) case Ok(found) => Ok((start.value.0, found));
  }

  /** `_rebuild_legacy_segmented_payload`, in the buffer: the manifest, and where the key stream starts. */
  method RebuildPayload(c: LegacyCodec, payload: Buffer) returns (r: Result<(Manifest, nat), PayloadError>)
    modifies payload
    ensures match Rebuild(c, old(payload.data))
            case Err(_) => r.Err? && payload.data == old(payload.data)
            case Ok(b) => r == Ok((b.manifest, b.offset)) && payload.data == b.payload
  {
    var decoded := c.legacy(payload.data);
    if decoded.None? {
      return Err(BadLegacy);
    }
    var popped := PopKeyMaterial(decoded.value.keys);
    if popped.Err? {
      return Err(popped.error);
    }
    var validated := Validate(decoded.value);
    if validated.None? {
      return Err(BadLegacy);
    }
    if popped.value == [] {
      return Ok((validated.value, |payload.data|));
    }
    PoppedAreHex(decoded.value, popped.value);
    var replaced := ReplacePayload(c, payload, validated.value, popped.value);
    r := match replaced case Err(e) => Err(e) case Ok(offset) => Ok((validated.value, offset));
  }

  lemma HexOfNormalised(s: string)
    requires |s| == 40 && NormaliseFingerprint(s).Some?
    ensures HexFingerprint(s)
  {
    UpperAt(s);
    assert forall i | 0 <= i < 40 :: IsUpperHex(Upper(s)[i]);
  }

  /** What was collected from a document that validates has well-formed fingerprints. */
  lemma PoppedAreHex(doc: LegacyDoc, ms: seq<Material>)
    requires PopAll(doc.keys) == Ok(ms) && Validate(doc).Some?
    ensures forall k | 0 <= k < |ms| :: HexFingerprint(ms[k].fingerprint)
  {
    ValidatedAt(doc.keys);
    PoppedFrom(doc.keys, ms);
  }

  lemma {:induction false} ValidatedAt(keys: seq<LegacyEntry>)
    requires ValidateEntries(keys).Some?
    ensures |ValidateEntries(keys).value| == |keys|
    ensures forall i | 0 <= i < |keys| :: ValidateEntry(keys[i]) == Some(ValidateEntries(keys).value[i])
    decreases |keys|
  {
    if keys != [] {
      ValidatedAt(keys[1..]);
      assert forall i | 1 <= i < |keys| :: keys[i] == keys[1..][i - 1];
    }
  }

  lemma {:induction false} PoppedFrom(keys: seq<LegacyEntry>, ms: seq<Material>)
    requires PopAll(keys) == Ok(ms) && forall i | 0 <= i < |keys| :: ValidateEntry(keys[i]).Some?
    ensures forall k | 0 <= k < |ms| :: HexFingerprint(ms[k].fingerprint)
    decreases |keys|
  {
    if keys != [] {
      var n := |keys| - 1;
      PoppedFrom(keys[..n], PopAll(keys[..n]).value);
      assert ValidateEntry(keys[n]).Some?;
      HexOfNormalised(keys[n].fingerprint.value);
    }
  }

  // ---------------------------------------------------------------- the conversion keeps the meaning

  /** The material of an entry that carries armor. */
  function Carried(e: LegacyEntry): Material {
    Material(if e.fingerprint.Some? then e.fingerprint.value else "",
             if e.public.Raw? then e.public.data else [],
             if e.private.Raw? then Some(e.private.data) else None)
  }

  predicate CarriesArmor(e: LegacyEntry) { e.public.Raw? && !e.private.NotBytes? && e.fingerprint.Some? }

  lemma {:induction false} PopAllCarried(keys: seq<LegacyEntry>)
    requires forall i | 0 <= i < |keys| :: CarriesArmor(keys[i])
    ensures PopAll(keys).Ok? && |PopAll(keys).value| == |keys|
    ensures forall i | 0 <= i < |keys| :: PopAll(keys).value[i] == Carried(keys[i])
    decreases |keys|
  {
    if keys != [] {
      PopAllCarried(keys[..|keys| - 1]);
    }
  }

  /** Every armor-bearing entry is collected, so fewer collected means some entry had none. */
  lemma {:induction false} PopAllCount(keys: seq<LegacyEntry>)
    requires PopAll(keys).Ok?
    ensures |PopAll(keys).value| <= |keys|
    ensures |PopAll(keys).value| == |keys| <==> forall i | 0 <= i < |keys| :: CarriesArmor(keys[i])
    decreases |keys|
  {
    if keys != [] {
      var n := |keys| - 1;
      PopAllCount(keys[..n]);
      assert (forall i | 0 <= i < |keys| :: CarriesArmor(keys[i])) <==>
        (forall i | 0 <= i < n :: CarriesArmor(keys[..n][i])) && CarriesArmor(keys[n]);
    }
  }

  /**
   A legacy payload whose every entry carries armor is accepted exactly when the
   armor lengths are legal and private flags are backed by private armor; then
   the converted payload has the document's manifest and each key's own bytes.
   */
  lemma LegacyKeepsMeaning(c: LegacyCodec, payload: bytes, doc: LegacyDoc, manifest: Manifest, ms: seq<Material>)
    requires FaithfulManifest(c.modern) && LooksLegacy(payload)
    requires c.legacy(payload) == Some(doc) && Validate(doc) == Some(manifest) && doc.keys != []
    requires forall i | 0 <= i < |doc.keys| :: CarriesArmor(doc.keys[i])
    requires |ms| == |doc.keys| && forall i | 0 <= i < |ms| :: ms[i] == Carried(doc.keys[i])
    requires |c.modern.write(manifest)| < U32_LIMIT && Distinct(manifest.keys)
    ensures |manifest.keys| == |ms|
    ensures Deserialise(c, payload).Ok? <==>
              forall i | 0 <= i < |ms| :: Legal(ms[i]) && (doc.keys[i].hasPrivate ==> PrivateBytes(ms[i]) != [])
    ensures Deserialise(c, payload).Ok? ==>
              var (data, o) := Deserialise(c, payload).value;
              && o.manifest == manifest && |o.slices| == |ms|
              && forall i | 0 <= i < |ms| ::
                   KeyMaterial(data, SliceMap(manifest.keys, o.slices), manifest.keys[i].fingerprint) == Some(Wanted(ms[i]))
  {
    PopAllCarried(doc.keys);
    assert PopAll(doc.keys).value == ms;
    ValidatedAt(doc.keys);
    ValidatedManifest(doc, manifest);
    if AllLegal(ms) {
      MatchesCarried(doc, manifest, ms);
      RebuiltReads(c, payload, manifest, ms, c.modern.write(manifest));
    }
  }

  lemma ValidatedManifest(doc: LegacyDoc, manifest: Manifest)
    requires Validate(doc) == Some(manifest)
    ensures ValidManifest(manifest) && |manifest.keys| == |doc.keys|
  {
    ValidatedAt(doc.keys);
  }

  lemma MatchesCarried(doc: LegacyDoc, manifest: Manifest, ms: seq<Material>)
    requires Validate(doc) == Some(manifest) && |ms| == |doc.keys|
    requires forall i | 0 <= i < |doc.keys| :: CarriesArmor(doc.keys[i]) && ms[i] == Carried(doc.keys[i])
    ensures |manifest.keys| == |ms|
    ensures AllMatch(manifest.keys, ms) <==>
              forall i | 0 <= i < |ms| :: doc.keys[i].hasPrivate ==> PrivateBytes(ms[i]) != []
  {
    ValidatedAt(doc.keys);
    forall i | 0 <= i < |ms|
      ensures Matches(manifest.keys[i], ms[i]) <==> (doc.keys[i].hasPrivate ==> PrivateBytes(ms[i]) != [])
    {
      assert ValidateEntry(doc.keys[i]) == Some(manifest.keys[i]);
    }
  }

  /** Reading the rebuilt payload. */
  lemma RebuiltReads(c: LegacyCodec, payload: bytes, manifest: Manifest, ms: seq<Material>, mb: bytes)
    requires FaithfulManifest(c.modern) && ValidManifest(manifest) && mb == c.modern.write(manifest) && |mb| < U32_LIMIT
    requires LooksLegacy(payload) && AllLegal(ms) && ms != [] && |manifest.keys| == |ms| && Distinct(manifest.keys)
    requires Rebuild(c, payload) == Ok(Rebuilt(Serialised(mb, ms), manifest, 4 + |mb|))
    ensures Deserialise(c, payload).Ok? <==> AllMatch(manifest.keys, ms)
    ensures Deserialise(c, payload).Ok? ==>
              var (data, o) := Deserialise(c, payload).value;
              && o.manifest == manifest && |o.slices| == |ms|
              && forall i | 0 <= i < |ms| ::
                   KeyMaterial(data, SliceMap(manifest.keys, o.slices), manifest.keys[i].fingerprint) == Some(Wanted(ms[i]))
  {
    var data, offset := Serialised(mb, ms), 4 + |mb|;
    ReadSerialised(c.modern, manifest, mb, ms, data, offset);
    if AllMatch(manifest.keys, ms) {
      MaterialFound(manifest.keys, ms, data, offset);
    }
  }

  /** A legacy payload in which only some entries carry armor is always refused. */
  lemma PartialArmorRefused(c: LegacyCodec, payload: bytes, doc: LegacyDoc)
    requires FaithfulManifest(c.modern) && LooksLegacy(payload) && c.legacy(payload) == Some(doc)
    requires doc.keys != [] && exists i :: 0 <= i < |doc.keys| && !CarriesArmor(doc.keys[i])
    ensures Deserialise(c, payload).Err?
  {
    if Rebuild(c, payload).Ok? {
      var b := Rebuild(c, payload).value;
      var ms := PopAll(doc.keys).value;
      PopAllCount(doc.keys);
      ValidatedManifest(doc, b.manifest);
      if ms == [] {
        assert ReadKeySlice(payload, |payload|, b.manifest.keys[0]).Err?;
      } else {
        var mb := c.modern.write(b.manifest);
        ReadWrittenManifest(c.modern, b.manifest, mb, Segments(ms), b.payload);
        WalkNeedsSegments(b.payload, b.offset, b.manifest.keys, ms);
      }
    }
  }
}
