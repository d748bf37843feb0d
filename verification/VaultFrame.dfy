/**
 The outer vault frame of security/vault_format.py:

   "GPGV"  version  u32 header length  header  u32 ciphertext length  ciphertext

 The canonical-JSON header codec is abstract: writing a valid header and reading
 it back gives that header, and whatever it reads is valid.
 */
module VaultFrame {
  import opened Wrappers
  import opened Bytes
  import opened VaultModel

  const MAGIC: bytes := [0x47, 0x50, 0x47, 0x56]
  const HEADER_OFFSET := 9
  const LENGTH_FIELD := 4
  const MAX_HEADER_SIZE := 64 * 1024
  const MAX_CIPHERTEXT_SIZE := 256 * 1024 * 1024

  datatype HeaderCodec = HeaderCodec(write: Header -> bytes, read: bytes -> Option<Header>)

  ghost predicate FaithfulHeader(c: HeaderCodec) {
    && (forall h | ValidHeader(h) :: c.write(h) != [] && c.read(c.write(h)) == Some(h))
    && (forall b: bytes :: c.read(b).Some? ==> ValidHeader(c.read(b).value))
  }

  datatype FrameError =
    | HeaderTooLong | CiphertextTooLong
    | FileTruncated | BadMagic | UnsupportedVersion | BadHeaderLength | HeaderTruncated | BadHeader
    | VersionMismatch | BadCiphertextLength | CiphertextTruncated | TrailingBytes

  datatype Unpacked = Unpacked(header: Header, headerBytes: bytes, ciphertext: bytes)

  /** `pack`: the frame, and the header bytes that serve as associated data. */
  function Pack(c: HeaderCodec, h: Header, ciphertext: bytes): Result<(bytes, bytes), FrameError> {
    var hb := c.write(h);
    if |hb| > MAX_HEADER_SIZE then Err(HeaderTooLong)
    else if |ciphertext| > MAX_CIPHERTEXT_SIZE then Err(CiphertextTooLong)
    else Ok((MAGIC + [h.version % 256] + U32(|hb|) + hb + U32(|ciphertext|) + ciphertext, hb))
  }

  /** `unpack`. */
  function Unpack(c: HeaderCodec, data: bytes): Result<Unpacked, FrameError> {
    if |data| < HEADER_OFFSET + LENGTH_FIELD then Err(FileTruncated)
    else if data[..4] != MAGIC then Err(BadMagic)
    else if data[4] != 2 && data[4] != 3 then Err(UnsupportedVersion)
    else
      var headerLen := U32Value(data[5..9]);
      if headerLen == 0 || headerLen > MAX_HEADER_SIZE then Err(BadHeaderLength)
      else
        var headerEnd := HEADER_OFFSET + headerLen;
        if |data| < headerEnd + LENGTH_FIELD then Err(HeaderTruncated)
        else
          var hb := data[HEADER_OFFSET..headerEnd];
          match c.read(hb)
          case None => Err(BadHeader)
          case Some(h) =>
            if h.version != data[4] then Err(VersionMismatch)
            else
              var ctLen := U32Value(data[headerEnd..headerEnd + LENGTH_FIELD]);
              if ctLen == 0 || ctLen > MAX_CIPHERTEXT_SIZE then Err(BadCiphertextLength)
              else
                var ctStart := headerEnd + LENGTH_FIELD;
                var ctEnd := ctStart + ctLen;
                if |data| < ctEnd then Err(CiphertextTruncated)
                else if |data| > ctEnd then Err(TrailingBytes)
                else Ok(Unpacked(h, hb, data[ctStart..ctEnd]))
  }

  /** The byte layout, independently of pack and unpack. */
  function Layout(version: byte, hb: bytes, ciphertext: bytes): bytes
    requires |hb| < U32_LIMIT && |ciphertext| < U32_LIMIT
  {
    MAGIC + [version] + U32(|hb|) + hb + U32(|ciphertext|) + ciphertext
  }

  lemma LayoutParts(version: byte, hb: bytes, ct: bytes, data: bytes)
    requires |hb| < U32_LIMIT && |ct| < U32_LIMIT && data == Layout(version, hb, ct)
    ensures |data| == 13 + |hb| + |ct|
    ensures data[..4] == MAGIC && data[4] == version && data[5..9] == U32(|hb|)
    ensures data[9..9 + |hb|] == hb
    ensures data[9 + |hb|..13 + |hb|] == U32(|ct|)
    ensures data[13 + |hb|..] == ct
  {
  }

  lemma PackIsLayout(c: HeaderCodec, h: Header, ct: bytes)
    requires ValidHeader(h) && Pack(c, h, ct).Ok?
    ensures Pack(c, h, ct).value == (Layout(h.version, c.write(h), ct), c.write(h))
  {
  }

  /**
   Frames unpack to what was packed, and to the same associated data, exactly
   when they carry a ciphertext at all.
   */
  lemma UnpackPack(c: HeaderCodec, h: Header, ct: bytes)
    requires FaithfulHeader(c) && ValidHeader(h) && Pack(c, h, ct).Ok?
    ensures Unpack(c, Pack(c, h, ct).value.0) ==
            if ct == [] then Err(BadCiphertextLength) else Ok(Unpacked(h, Pack(c, h, ct).value.1, ct))
  {
    var hb := c.write(h);
    var data := Pack(c, h, ct).value.0;
    PackIsLayout(c, h, ct);
    LayoutParts(h.version, hb, ct, data);
    U32RoundTrip(|hb|);
    U32RoundTrip(|ct|);
    assert hb != [] && c.read(hb) == Some(h);
    assert data[13 + |hb|..13 + |hb| + |ct|] == ct;
  }

  /** What unpack accepts is exactly the layout of the parts it returns. */
  lemma AcceptedIsLayout(c: HeaderCodec, data: bytes)
    requires Unpack(c, data).Ok?
    ensures var u := Unpack(c, data).value;
            && 0 < |u.headerBytes| <= MAX_HEADER_SIZE && 0 < |u.ciphertext| <= MAX_CIPHERTEXT_SIZE
            && (u.header.version == 2 || u.header.version == 3)
            && c.read(u.headerBytes) == Some(u.header)
            && data == Layout(u.header.version, u.headerBytes, u.ciphertext)
  {
    var u := Unpack(c, data).value;
    var n, m := |u.headerBytes|, |u.ciphertext|;
    U32Inverse(data[5..9]);
    U32Inverse(data[9 + n..13 + n]);
    assert data[..5] == data[..4] + [data[4]];
    assert data[..9] == data[..5] + data[5..9];
    assert data[..9 + n] == data[..9] + data[9..9 + n];
    assert data[..13 + n] == data[..9 + n] + data[9 + n..13 + n];
    assert data == data[..13 + n] + data[13 + n..];
  }

  /** The two length fields of an accepted frame account for every byte of it. */
  lemma AcceptedLength(c: HeaderCodec, data: bytes) returns (n: nat)
    requires Unpack(c, data).Ok?
    ensures 13 <= |data| && n == U32Value(data[5..9])
    ensures 13 + n <= |data| == 13 + n + U32Value(data[9 + n..13 + n])
  {
    n := U32Value(data[5..9]);
  }

  /** No accepted frame is a proper prefix of another: appending or cutting bytes is always noticed. */
  lemma FramesPrefixFree(c: HeaderCodec, data: bytes, more: bytes)
    requires Unpack(c, data).Ok? && Unpack(c, data + more).Ok?
    ensures more == []
  {
    var n := AcceptedLength(c, data);
    var n' := AcceptedLength(c, data + more);
    assert (data + more)[5..9] == data[5..9];
    assert (data + more)[9 + n..13 + n] == data[9 + n..13 + n];
  }
}
