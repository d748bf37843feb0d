/** Writing a vault payload and reading it back. */
module VaultRoundTrip {
  import opened Wrappers
  import opened Bytes
  import opened VaultModel
  import opened VaultPayload

  /** The slice a segment written at `offset` is found at. */
  function SliceAt(offset: nat, m: Material): KeySlice {
    var publicEnd := offset + 24 + |m.public|;
    KeySlice(offset + 24, publicEnd, publicEnd + 4, publicEnd + 4 + |PrivateBytes(m)|)
  }

  function SlicesAt(offset: nat, ms: seq<Material>): (ss: seq<KeySlice>)
    ensures |ss| == |ms|
    decreases |ms|
  {
    if ms == [] then [] else [SliceAt(offset, ms[0])] + SlicesAt(SliceAt(offset, ms[0]).privateEnd, ms[1..])
  }

  /** The reader takes this material for this entry. */
  predicate Matches(e: Entry, m: Material) {
    e.fingerprint == Upper(m.fingerprint) && (e.hasPrivate ==> PrivateBytes(m) != [])
  }

  ghost predicate AllMatch(entries: seq<Entry>, ms: seq<Material>) {
    |entries| == |ms| && forall i | 0 <= i < |ms| :: Matches(entries[i], ms[i])
  }

  lemma ReadFrame(view: bytes, offset: nat, block: bytes, min: nat, bad: PayloadError)
    requires min <= |block| <= MAX_VAULT_ARMOR_LENGTH && At(view, offset, Frame(block))
    ensures ReadBlock(view, offset, min, bad) == Ok((offset + 4, offset + 4 + |block|))
    ensures At(view, offset + 4, block)
  {
    AtConcat(view, offset, U32(|block|), block);
    U32RoundTrip(|block|);
  }

  /** Where the three parts of a segment lie. */
  lemma SegmentParts(view: bytes, offset: nat, m: Material, s: KeySlice)
    requires Legal(m) && At(view, offset, Segment(m)) && s == SliceAt(offset, m)
    ensures s.privateEnd == offset + |Segment(m)|
    ensures At(view, offset, FromHex(m.fingerprint))
    ensures At(view, offset + 20, Frame(m.public)) && At(view, s.publicEnd, Frame(PrivateBytes(m)))
  {
    var fp, public := FromHex(m.fingerprint), Frame(m.public);
    AtConcat(view, offset, fp + public, Frame(PrivateBytes(m)));
    AtConcat(view, offset, fp, public);
  }

  /** Reading one segment. */
  lemma ReadSegment(view: bytes, offset: nat, e: Entry, m: Material)
    requires Legal(m) && At(view, offset, Segment(m))
    ensures SliceAt(offset, m).privateEnd == offset + |Segment(m)|
    ensures Matches(e, m) ==> ReadKeySlice(view, offset, e) == Ok(SliceAt(offset, m))
    ensures !Matches(e, m) ==> ReadKeySlice(view, offset, e).Err?
  {
    var s := SliceAt(offset, m);
    SegmentParts(view, offset, m, s);
    ReadFrame(view, offset + 20, m.public, 1, PublicLengthInvalid);
    ReadFrame(view, s.publicEnd, PrivateBytes(m), 0, PrivateLengthInvalid);
    HexRoundTrip(m.fingerprint);
  }

  /** The key stream of these materials is what is left of the payload from `offset` on. */
  ghost predicate StreamAt(view: bytes, offset: nat, ms: seq<Material>) { WrittenAt(view, offset, ms, |view|) }

  /** These bytes of the payload are legal key material, written out. */
  ghost predicate WrittenAt(view: bytes, offset: nat, ms: seq<Material>, end: nat) {
    AllLegal(ms) && At(view, offset, Segments(ms)) && offset + |Segments(ms)| == end
  }

  lemma StreamHead(view: bytes, offset: nat, m: Material, rest: seq<Material>)
    requires Legal(m) && AllLegal(rest)
    requires At(view, offset, Segment(m) + Segments(rest)) && offset + |Segment(m) + Segments(rest)| == |view|
    ensures At(view, offset, Segment(m)) && SliceAt(offset, m).privateEnd == offset + |Segment(m)|
    ensures StreamAt(view, SliceAt(offset, m).privateEnd, rest)
  {
    AtConcat(view, offset, Segment(m), Segments(rest));
    SegmentParts(view, offset, m, SliceAt(offset, m));
  }

  /** One step of the walk over a written segment. */
  lemma WalkStep(view: bytes, offset: nat, entries: seq<Entry>, m: Material, s: KeySlice)
    requires Legal(m) && At(view, offset, Segment(m)) && entries != [] && s == SliceAt(offset, m)
    ensures Matches(entries[0], m) ==>
              WalkKeys(view, offset, entries) == Prepend([s], WalkKeys(view, s.privateEnd, entries[1..]))
    ensures !Matches(entries[0], m) ==> WalkKeys(view, offset, entries).Err?
  {
    ReadSegment(view, offset, entries[0], m);
    WalkUnfold(view, offset, entries, ReadKeySlice(view, offset, entries[0]));
  }

  lemma WalkUnfold(view: bytes, offset: nat, entries: seq<Entry>, first: Result<KeySlice, PayloadError>)
    requires entries != [] && first == ReadKeySlice(view, offset, entries[0])
    ensures first.Err? ==> WalkKeys(view, offset, entries).Err?
    ensures first.Ok? ==>
              WalkKeys(view, offset, entries) == Prepend([first.value], WalkKeys(view, first.value.privateEnd, entries[1..]))
  {
  }

  /** The slice walk accepts a written key stream exactly when every entry matches its material. */
  lemma {:induction false} WalkOfSegments(view: bytes, offset: nat, entries: seq<Entry>, ms: seq<Material>)
    requires StreamAt(view, offset, ms) && |entries| == |ms|
    ensures AllMatch(entries, ms) ==> WalkKeys(view, offset, entries) == Ok((SlicesAt(offset, ms), |view|))
    ensures !AllMatch(entries, ms) ==> WalkKeys(view, offset, entries).Err?
    decreases |ms|
  {
    if ms != [] {
      var s := SliceAt(offset, ms[0]);
      StreamHead(view, offset, ms[0], ms[1..]);
      WalkStep(view, offset, entries, ms[0], s);
      WalkOfSegments(view, s.privateEnd, entries[1..], ms[1..]);
      MatchesHead(entries, ms);
    }
  }

  lemma MatchesHead(entries: seq<Entry>, ms: seq<Material>)
    requires |entries| == |ms| > 0
    ensures AllMatch(entries, ms) <==> Matches(entries[0], ms[0]) && AllMatch(entries[1..], ms[1..])
  {
    if Matches(entries[0], ms[0]) && AllMatch(entries[1..], ms[1..]) {
      forall i | 0 <= i < |ms|
        ensures Matches(entries[i], ms[i])
      {
        assert i > 0 ==> Matches(entries[1..][i - 1], ms[1..][i - 1]);
      }
    }
    if AllMatch(entries, ms) {
      forall i | 0 <= i < |ms| - 1
        ensures Matches(entries[1..][i], ms[1..][i])
      {
        assert Matches(entries[i + 1], ms[i + 1]);
      }
    }
  }

  /** A walk over more entries than there are segments runs off the end. */
  lemma {:induction false} WalkNeedsSegments(view: bytes, offset: nat, entries: seq<Entry>, ms: seq<Material>)
    requires StreamAt(view, offset, ms) && |entries| > |ms|
    ensures WalkKeys(view, offset, entries).Err?
    decreases |ms|
  {
    if ms == [] {
      assert ReadKeySlice(view, offset, entries[0]).Err?;
    } else {
      var s := SliceAt(offset, ms[0]);
      StreamHead(view, offset, ms[0], ms[1..]);
      WalkStep(view, offset, entries, ms[0], s);
      WalkNeedsSegments(view, s.privateEnd, entries[1..], ms[1..]);
    }
  }

  /**
   The first byte of a written payload is the top byte of the manifest length:
   it looks legacy exactly when the manifest alone is between 2 GiB and 2.25 GiB.
   */
  lemma ModernNeverLooksLegacy(manifestBytes: bytes, ms: seq<Material>)
    requires |manifestBytes| < U32_LIMIT && AllLegal(ms)
    ensures LooksLegacy(Serialised(manifestBytes, ms)) <==> 0x8000_0000 <= |manifestBytes| < 0x9000_0000
  {
    var payload := Serialised(manifestBytes, ms);
    assert payload[0] == U32(|manifestBytes|)[0] == |manifestBytes| / 0x100_0000;
  }

  /** The manifest segment of a written payload. */
  lemma ReadWrittenManifest(c: ManifestCodec, manifest: Manifest, mb: bytes, stream: bytes, payload: bytes)
    requires |mb| < U32_LIMIT && c.read(mb) == Some(manifest) && payload == Frame(mb) + stream
    ensures ReadManifest(c, payload) == Ok((manifest, 4 + |mb|)) && At(payload, 4 + |mb|, stream)
  {
    assert payload[0..|payload|] == payload;
    AtConcat(payload, 0, Frame(mb), stream);
    AtConcat(payload, 0, U32(|mb|), mb);
    U32RoundTrip(|mb|);
  }

  /** Reading what was written. */
  lemma ReadSerialised(c: ManifestCodec, manifest: Manifest, mb: bytes, ms: seq<Material>, payload: bytes, offset: nat)
    requires AllLegal(ms) && |manifest.keys| == |ms| && |mb| < U32_LIMIT && c.read(mb) == Some(manifest)
    requires payload == Serialised(mb, ms) && offset == 4 + |mb|
    ensures StreamAt(payload, offset, ms) && ReadModern(c, payload) == ReadKeys(payload, manifest, offset)
    ensures AllMatch(manifest.keys, ms) ==> ReadModern(c, payload) == Ok(Opened(manifest, SlicesAt(offset, ms)))
    ensures !AllMatch(manifest.keys, ms) ==> ReadModern(c, payload).Err?
  {
    ReadWrittenManifest(c, manifest, mb, Segments(ms), payload);
    WalkOfSegments(payload, offset, manifest.keys, ms);
  }

  // ---------------------------------------------------------------- what is accepted was written

  function MaterialsOf(view: bytes, entries: seq<Entry>, slices: seq<KeySlice>): (ms: seq<Material>)
    requires |entries| == |slices|
    ensures |ms| == |entries|
  {
    if entries == [] then []
    else [MaterialOf(view, entries[0], slices[0])] + MaterialsOf(view, entries[1..], slices[1..])
  }

  lemma WrittenCons(view: bytes, offset: nat, m: Material, middle: nat, ms: seq<Material>, end: nat)
    requires Legal(m) && At(view, offset, Segment(m)) && offset + |Segment(m)| == middle
    requires WrittenAt(view, middle, ms, end)
    ensures WrittenAt(view, offset, [m] + ms, end)
  {
    SegmentsCons(m, ms);
    AtJoin(view, offset, Segment(m), Segments(ms));
  }

  /** A walk begins with its first entry's slice. */
  lemma WalkHead(view: bytes, offset: nat, entries: seq<Entry>, slices: seq<KeySlice>, end: nat)
    requires WalkKeys(view, offset, entries) == Ok((slices, end)) && entries != []
    ensures slices != [] && ReadKeySlice(view, offset, entries[0]) == Ok(slices[0])
    ensures WalkKeys(view, slices[0].privateEnd, entries[1..]) == Ok((slices[1..], end))
  {
  }

  /** The bytes a walk went over are exactly the segments of the material it found. */
  lemma {:induction false} WalkIsWritten(view: bytes, offset: nat, entries: seq<Entry>, slices: seq<KeySlice>, end: nat)
    requires WalkKeys(view, offset, entries) == Ok((slices, end)) && offset <= |view|
    requires forall i | 0 <= i < |entries| :: IsFingerprint(entries[i].fingerprint)
    ensures |entries| == |slices|
    ensures WrittenAt(view, offset, MaterialsOf(view, entries, slices), end)
    decreases |entries|
  {
    if entries != [] {
      WalkHead(view, offset, entries, slices, end);
      var s, m := slices[0], MaterialOf(view, entries[0], slices[0]);
      SliceBytes(view, offset, entries[0], s, m);
      WalkIsWritten(view, s.privateEnd, entries[1..], slices[1..], end);
      WrittenCons(view, offset, m, s.privateEnd, MaterialsOf(view, entries[1..], slices[1..]), end);
    }
  }

  lemma SegmentsCons(m: Material, ms: seq<Material>)
    requires Legal(m) && AllLegal(ms)
    ensures AllLegal([m] + ms) && Segments([m] + ms) == Segment(m) + Segments(ms)
  {
    assert ([m] + ms)[1..] == ms;
  }

  /** The manifest bytes of an accepted payload, and the walk over the rest of it. */
  lemma AcceptedParts(c: ManifestCodec, payload: bytes, o: Opened) returns (mb: bytes)
    requires ReadModern(c, payload) == Ok(o)
    ensures |mb| < U32_LIMIT && 4 + |mb| <= |payload| && U32(|mb|) == payload[..4] && mb == payload[4..4 + |mb|]
    ensures c.read(mb) == Some(o.manifest)
    ensures WalkKeys(payload, 4 + |mb|, o.manifest.keys) == Ok((o.slices, |payload|))
  {
    var n := U32Value(payload[..4]);
    assert payload[0..4] == payload[..4];
    U32Inverse(payload[..4]);
    mb := payload[4..4 + n];
  }

  lemma FrameAtStart(payload: bytes, mb: bytes)
    requires |mb| < U32_LIMIT && 4 + |mb| <= |payload| && U32(|mb|) == payload[..4] && mb == payload[4..4 + |mb|]
    ensures At(payload, 0, Frame(mb)) && |Frame(mb)| == 4 + |mb|
  {
    assert payload[0..4] == payload[..4];
    AtJoin(payload, 0, U32(|mb|), mb);
  }

  /** Every accepted payload is the written form of its own manifest segment and key material. */
  lemma AcceptedIsWritten(c: ManifestCodec, payload: bytes, o: Opened) returns (mb: bytes)
    requires FaithfulManifest(c) && ReadModern(c, payload) == Ok(o)
    ensures |mb| < U32_LIMIT && c.read(mb) == Some(o.manifest) && |o.manifest.keys| == |o.slices|
    ensures var ms := MaterialsOf(payload, o.manifest.keys, o.slices);
            AllLegal(ms) && payload == Serialised(mb, ms)
  {
    mb := AcceptedParts(c, payload, o);
    FrameAtStart(payload, mb);
    WalkIsWritten(payload, 4 + |mb|, o.manifest.keys, o.slices, |payload|);
    WholePayload(payload, mb, MaterialsOf(payload, o.manifest.keys, o.slices));
  }

  lemma WholePayload(payload: bytes, mb: bytes, ms: seq<Material>)
    requires |mb| < U32_LIMIT && At(payload, 0, Frame(mb)) && WrittenAt(payload, |Frame(mb)|, ms, |payload|)
    ensures payload == Serialised(mb, ms)
  {
    AtJoin(payload, 0, Frame(mb), Segments(ms));
    AtWhole(payload, Serialised(mb, ms));
  }

  // ---------------------------------------------------------------- key material

  predicate InRange(s: KeySlice, n: nat) {
    s.publicStart <= s.publicEnd <= n && s.privateStart <= s.privateEnd <= n
  }

  /** `_OpenedVault.key_material`. */
  function KeyMaterial(plaintext: bytes, slices: map<string, KeySlice>, fp: string): Option<bytes> {
    if fp !in slices || !InRange(slices[fp], |plaintext|) then None
    else
      var s := slices[fp];
      Some(if s.privateEnd > s.privateStart then plaintext[s.privateStart..s.privateEnd]
           else plaintext[s.publicStart..s.publicEnd])
  }

  /** Private bytes if there are any, else the public ones. */
  function Wanted(m: Material): bytes {
    if PrivateBytes(m) != [] then PrivateBytes(m) else m.public
  }

  ghost predicate Distinct(entries: seq<Entry>) {
    forall i, j | 0 <= i < j < |entries| :: entries[i].fingerprint != entries[j].fingerprint
  }

  /** With distinct fingerprints every entry finds its own slice. */
  lemma {:induction false} SliceMapAt(entries: seq<Entry>, slices: seq<KeySlice>, i: nat)
    requires |entries| == |slices| && Distinct(entries) && i < |entries|
    ensures entries[i].fingerprint in SliceMap(entries, slices)
    ensures SliceMap(entries, slices)[entries[i].fingerprint] == slices[i]
    decreases |entries|
  {
    var n := |entries| - 1;
    if i < n {
      SliceMapAt(entries[..n], slices[..n], i);
    }
  }

  /** A key's bytes sit in the payload where its slice says. */
  lemma {:induction false} SlicesHoldMaterial(view: bytes, offset: nat, ms: seq<Material>, i: nat)
    requires StreamAt(view, offset, ms) && i < |ms|
    ensures var s := SlicesAt(offset, ms)[i];
            && At(view, s.publicStart, ms[i].public) && s.publicEnd == s.publicStart + |ms[i].public|
            && At(view, s.privateStart, PrivateBytes(ms[i])) && s.privateEnd == s.privateStart + |PrivateBytes(ms[i])|
    decreases |ms|
  {
    StreamHead(view, offset, ms[0], ms[1..]);
    if i > 0 {
      SlicesHoldMaterial(view, SliceAt(offset, ms[0]).privateEnd, ms[1..], i - 1);
    } else {
      SliceHoldsMaterial(view, offset, ms[0], SliceAt(offset, ms[0]));
    }
  }

  lemma SliceHoldsMaterial(view: bytes, offset: nat, m: Material, s: KeySlice)
    requires Legal(m) && At(view, offset, Segment(m)) && s == SliceAt(offset, m)
    ensures At(view, s.publicStart, m.public) && s.publicEnd == s.publicStart + |m.public|
    ensures At(view, s.privateStart, PrivateBytes(m)) && s.privateEnd == s.privateStart + |PrivateBytes(m)|
  {
    SegmentParts(view, offset, m, s);
    ReadFrame(view, offset + 20, m.public, 1, PublicLengthInvalid);
    ReadFrame(view, s.publicEnd, PrivateBytes(m), 0, PrivateLengthInvalid);
  }

  /**
   Round trip: a written payload is accepted exactly when every key flagged as
   having a private part came with one; then the manifest comes back and each
   fingerprint yields its private bytes if any, else its public ones.
   */
  lemma PayloadRoundTrip(c: ManifestCodec, manifest: Manifest, ms: seq<Material>, payload: bytes)
    requires FaithfulManifest(c) && ValidManifest(manifest) && AllLegal(ms) && |c.write(manifest)| < 0x8000_0000
    requires |manifest.keys| == |ms| && Distinct(manifest.keys)
    requires forall i | 0 <= i < |ms| :: manifest.keys[i].fingerprint == ms[i].fingerprint
    requires payload == Serialised(c.write(manifest), ms)
    ensures !LooksLegacy(payload)
    ensures ReadModern(c, payload).Ok? <==> forall i | 0 <= i < |ms| :: manifest.keys[i].hasPrivate ==> PrivateBytes(ms[i]) != []
    ensures ReadModern(c, payload).Ok? ==>
              var o := ReadModern(c, payload).value;
              && o.manifest == manifest && |o.slices| == |ms|
              && forall i | 0 <= i < |ms| ::
                   KeyMaterial(payload, SliceMap(manifest.keys, o.slices), ms[i].fingerprint) == Some(Wanted(ms[i]))
  {
    ModernNeverLooksLegacy(c.write(manifest), ms);
    ReadSerialised(c, manifest, c.write(manifest), ms, payload, 4 + |c.write(manifest)|);
    forall i | 0 <= i < |ms|
      ensures Matches(manifest.keys[i], ms[i]) <==> (manifest.keys[i].hasPrivate ==> PrivateBytes(ms[i]) != [])
    {
      UpperOfFingerprint(ms[i].fingerprint);
    }
    if ReadModern(c, payload).Ok? {
      MaterialFound(manifest.keys, ms, payload, 4 + |c.write(manifest)|);
    }
  }

  lemma UpperOfFingerprint(s: string)
    requires IsFingerprint(s)
    ensures Upper(s) == s
  {
    UpperAt(s);
  }

  lemma MaterialFound(entries: seq<Entry>, ms: seq<Material>, payload: bytes, offset: nat)
    requires StreamAt(payload, offset, ms) && |entries| == |ms| && Distinct(entries)
    ensures forall i | 0 <= i < |ms| ::
              KeyMaterial(payload, SliceMap(entries, SlicesAt(offset, ms)), entries[i].fingerprint) == Some(Wanted(ms[i]))
  {
    var slices := SlicesAt(offset, ms);
    forall i | 0 <= i < |ms|
      ensures KeyMaterial(payload, SliceMap(entries, slices), entries[i].fingerprint) == Some(Wanted(ms[i]))
    {
      SliceMapAt(entries, slices, i);
      SlicesHoldMaterial(payload, offset, ms, i);
      MaterialAt(payload, SliceMap(entries, slices), entries[i].fingerprint, slices[i], ms[i]);
    }
  }

  lemma MaterialAt(payload: bytes, found: map<string, KeySlice>, fp: string, s: KeySlice, m: Material)
    requires fp in found && found[fp] == s
    requires At(payload, s.publicStart, m.public) && s.publicEnd == s.publicStart + |m.public|
    requires At(payload, s.privateStart, PrivateBytes(m)) && s.privateEnd == s.privateStart + |PrivateBytes(m)|
    ensures KeyMaterial(payload, found, fp) == Some(Wanted(m))
  {
  }
}
