/** The wire frame: its header layout, its checksum, and parsing one frame from bytes. */
module Protocol {
  import opened Prelude
  import opened Bytes

  const MAGIC: seq<byte> := [0xDA, 0xF0, 0xDD, 0xA1]

  const HEADER_SIZE: nat := 21

  const MAX_PAYLOAD_SIZE: nat := 16 * 1024 * 1024

  const CURRENT: ProtocolVersion := ProtocolVersion(0, 1, 0)

  datatype ProtocolVersion = ProtocolVersion(major: byte, minor: byte, patch: byte) {

    /** The same major version, and no newer a minor one. */
    predicate IsCompatibleWith(other: ProtocolVersion) {
      major == other.major && other.minor <= minor
    }
  }

  datatype FrameType = Handshake | Data | Ack | Nack | Ping | Pong | Route | Subscribe | Unsubscribe | Close {

    function Code(): byte {
      match this
      case Handshake => 0x01
      case Data => 0x02
      case Ack => 0x03
      case Nack => 0x04
      case Ping => 0x05
      case Pong => 0x06
      case Route => 0x07
      case Subscribe => 0x08
      case Unsubscribe => 0x09
      case Close => 0x0A
    }

    /** The frame type with code `v`, if there is one. */
    static function FromByte(v: byte): (r: Option<FrameType>)
      ensures forall t: FrameType :: r == Some(t) <==> t.Code() == v
    {
      match v
      case 0x01 => Some(Handshake)
      case 0x02 => Some(Data)
      case 0x03 => Some(Ack)
      case 0x04 => Some(Nack)
      case 0x05 => Some(Ping)
      case 0x06 => Some(Pong)
      case 0x07 => Some(Route)
      case 0x08 => Some(Subscribe)
      case 0x09 => Some(Unsubscribe)
      case 0x0A => Some(Close)
      case _ => None
    }
  }

  datatype FrameDecodeError =
    | InvalidMagic(got: seq<byte>)
    | UnsupportedVersion(version: ProtocolVersion)
    | UnknownFrameType(code: byte)
    | PayloadTooLarge(size: nat)
    | ChecksumMismatch(expected: word, received: word)

  /** The truncated hash, of which nothing is known but that it is a function. */
  type Hash = seq<byte> -> word

  datatype Frame = Frame(
    version: ProtocolVersion,
    frameType: FrameType,
    streamId: word,
    payloadLen: word,
    flags: byte,
    checksum: word,
    payload: seq<byte>)
  {
    /** The header up to the checksum. */
    function Head(): (b: seq<byte>)
      ensures |b| == 17
    {
      MAGIC + [version.major, version.minor, version.patch] + [frameType.Code()]
      + ToBytes(streamId) + ToBytes(payloadLen) + [flags]
    }

    function ComputeChecksum(hash: Hash): word {
      hash(Head() + payload)
    }

    predicate VerifyChecksum(hash: Hash) {
      checksum == ComputeChecksum(hash)
    }

    /** The frame on the wire. */
    function Encoded(): (b: seq<byte>)
      ensures |b| == HEADER_SIZE + |payload|
    {
      Head() + ToBytes(checksum) + payload
    }

    /** A new frame; the declared length is the payload's, cut to 32 bits. */
    static function New(hash: Hash, frameType: FrameType, streamId: word, flags: byte, payload: seq<byte>): (f: Frame)
      ensures f.VerifyChecksum(hash)
      ensures f.version == ProtocolVersion(0, 1, 0) && f.frameType == frameType && f.streamId == streamId
      ensures f.flags == flags && f.payload == payload
      ensures f.payloadLen == |payload| <==> |payload| < 0x1_0000_0000
    {
      var f := Frame(CURRENT, frameType, streamId, |payload| % 0x1_0000_0000, flags, 0, payload);
      f.(checksum := f.ComputeChecksum(hash))
    }
  }

  // ----- Parsing -----

  /** The payload length a header declares. */
  function DeclaredLength(s: seq<byte>): word
    requires |s| >= HEADER_SIZE
  {
    FromBytes(s[12..16])
  }

  function VersionOf(s: seq<byte>): ProtocolVersion
    requires |s| >= HEADER_SIZE
  {
    ProtocolVersion(s[4], s[5], s[6])
  }

  /** What is wrong with a header, if anything. */
  function ValidateHeader(s: seq<byte>): (r: Option<FrameDecodeError>)
    requires |s| >= HEADER_SIZE
    ensures r.None? <==>
            && s[..4] == MAGIC && CURRENT.IsCompatibleWith(VersionOf(s))
            && (exists t: FrameType :: t.Code() == s[7]) && DeclaredLength(s) <= MAX_PAYLOAD_SIZE
  {
    if s[..4] != MAGIC then Some(InvalidMagic(s[..4]))
    else if !CURRENT.IsCompatibleWith(VersionOf(s)) then Some(UnsupportedVersion(VersionOf(s)))
    else if FrameType.FromByte(s[7]).None? then Some(UnknownFrameType(s[7]))
    else if DeclaredLength(s) > MAX_PAYLOAD_SIZE then Some(PayloadTooLarge(DeclaredLength(s)))
    else
      assert FrameType.FromByte(s[7]).value.Code() == s[7];
      None
  }

  /** The frame that a complete valid header and its payload spell. */
  function FrameAt(s: seq<byte>): Frame
    requires |s| >= HEADER_SIZE && ValidateHeader(s).None? && |s| >= HEADER_SIZE + DeclaredLength(s)
  {
    Frame(VersionOf(s), FrameType.FromByte(s[7]).value, FromBytes(s[8..12]), DeclaredLength(s), s[16],
      FromBytes(s[17..21]),
          s[HEADER_SIZE..HEADER_SIZE + DeclaredLength(s)])
  }

  /** Parsing one frame from the front of `s`: the outcome, and what is left. A header
      error consumes nothing; a checksum error consumes the frame. */
  function Parse(hash: Hash, s: seq<byte>): (r: (Result<Option<Frame>, FrameDecodeError>, seq<byte>)) {
    if |s| < HEADER_SIZE then (Ok(None), s)
    else if ValidateHeader(s).Some? then (Err(ValidateHeader(s).value), s)
    else
      var total := HEADER_SIZE + DeclaredLength(s);
      if |s| < total then (Ok(None), s)
      else
        var frame := FrameAt(s);
        if !frame.VerifyChecksum(hash) then
          (Err(ChecksumMismatch(frame.ComputeChecksum(hash), frame.checksum)), s[total..])
        else (Ok(Some(frame)), s[total..])
  }

  // ----- Reading and writing a buffer -----

  /** Writes the frame field by field. */
  method EncodeToBytes(f: Frame) returns (buf: Buffer)
    ensures fresh(buf) && buf.data == f.Encoded()
  {
    buf := new Buffer([]);
    buf.PutSlice(MAGIC);
    buf.PutByte(f.version.major);
    buf.PutByte(f.version.minor);
    buf.PutByte(f.version.patch);
    buf.PutByte(f.frameType.Code());
    buf.PutWord(f.streamId);
    buf.PutWord(f.payloadLen);
    buf.PutByte(f.flags);
    buf.PutWord(f.checksum);
    buf.PutSlice(f.payload);
  }

  /** Reads the header fields one after the other. */
  method ReadHeader(buf: Buffer)
    returns (version: ProtocolVersion, code: byte, streamId: word, flags: byte, checksum: word)
    requires |buf.data| >= HEADER_SIZE
    modifies buf
    ensures var s := old(buf.data);
            && version == VersionOf(s) && code == s[7] && streamId == FromBytes(s[8..12])
            && flags == s[16] && checksum == FromBytes(s[17..21]) && buf.data == s[HEADER_SIZE..]
  {
    hide FromBytes;
    ghost var s := buf.data;
    buf.Advance(4);
    var major := buf.GetByte();
    var minor := buf.GetByte();
    var patch := buf.GetByte();
    version := ProtocolVersion(major, minor, patch);
    code := buf.GetByte();
    assert buf.data == s[8..];
    streamId := buf.GetWord();
    assert s[8..][..4] == s[8..12] && buf.data == s[12..];
    var _ := buf.GetWord();
    flags := buf.GetByte();
    assert buf.data == s[17..];
    checksum := buf.GetWord();
    assert s[17..][..4] == s[17..21] && buf.data == s[21..];
  }

  /** Reads the fields of a complete frame with a valid header. */
  method ReadFields(buf: Buffer, payloadLen: word) returns (f: Frame)
    requires |buf.data| >= HEADER_SIZE && ValidateHeader(buf.data).None? && DeclaredLength(buf.data) == payloadLen
    requires |buf.data| == HEADER_SIZE + payloadLen
    modifies buf
    ensures f == FrameAt(old(buf.data)) && buf.data == []
  {
    hide FromBytes;
    var version, code, streamId, flags, checksum := ReadHeader(buf);
    var payload := buf.data[..payloadLen];
    buf.Advance(payloadLen);
    f := Frame(version, FrameType.FromByte(code).value, streamId, payloadLen, flags, checksum, payload);
  }

  /** Takes one frame off the front of a buffer, if it is complete. */
  method DecodeFromBytes(hash: Hash, buf: Buffer) returns (r: Result<Option<Frame>, FrameDecodeError>)
    modifies buf
    ensures (r, buf.data) == Parse(hash, old(buf.data))
  {
    if |buf.data| < HEADER_SIZE {
      return Ok(None);
    }
    var invalid := ValidateHeader(buf.data);
    if invalid.Some? {
      return Err(invalid.value);
    }
    var payloadLen := FromBytes(buf.data[12..16]);
    var total := HEADER_SIZE + payloadLen;
    if |buf.data| < total {
      return Ok(None);
    }
    var frameBuf := buf.SplitTo(total);
    PrefixIsParsedAlike(old(buf.data), total);
    var frame := ReadFields(frameBuf, payloadLen);
    if !frame.VerifyChecksum(hash) {
      return Err(ChecksumMismatch(frame.ComputeChecksum(hash), frame.checksum));
    }
    r := Ok(Some(frame));
  }

  // ----- What parsing means -----

  /** The header and the frame depend only on the bytes they cover. */
  lemma PrefixIsParsedAlike(s: seq<byte>, n: nat)
    requires HEADER_SIZE <= n <= |s|
    ensures ValidateHeader(s[..n]) == ValidateHeader(s) && DeclaredLength(s[..n]) == DeclaredLength(s)
    ensures ValidateHeader(s).None? && n >= HEADER_SIZE + DeclaredLength(s) ==> FrameAt(s[..n]) == FrameAt(s)
  {
    assert s[..n][12..16] == s[12..16] && s[..n][..4] == s[..4];
    assert s[..n][8..12] == s[8..12] && s[..n][17..21] == s[17..21];
    if ValidateHeader(s).None? && n >= HEADER_SIZE + DeclaredLength(s) {
      var total := HEADER_SIZE + DeclaredLength(s);
      assert s[..n][HEADER_SIZE..total] == s[HEADER_SIZE..total];
    }
  }

  /** A frame whose declared length is its payload's, with an acceptable header. */
  predicate WellFormed(f: Frame) {
    CURRENT.IsCompatibleWith(f.version) && f.payloadLen == |f.payload| && |f.payload| <= MAX_PAYLOAD_SIZE
  }

  /** An encoded well-formed frame reads back as itself, whatever follows. */
  lemma EncodedReadsBack(f: Frame, rest: seq<byte>)
    requires WellFormed(f)
    ensures var s := f.Encoded() + rest;
            && ValidateHeader(s).None? && DeclaredLength(s) == f.payloadLen
            && FrameAt(s) == f && s[HEADER_SIZE + f.payloadLen..] == rest
  {
    var s := f.Encoded() + rest;
    assert s[..4] == MAGIC && s[4] == f.version.major && s[5] == f.version.minor && s[6] == f.version.patch;
    assert s[7] == f.frameType.Code() && s[16] == f.flags;
    assert s[8..12] == ToBytes(f.streamId) && s[12..16] == ToBytes(f.payloadLen) && s[17..21] == ToBytes(f.checksum);
    WordRoundTrip(f.streamId);
    WordRoundTrip(f.payloadLen);
    WordRoundTrip(f.checksum);
    assert s[HEADER_SIZE..HEADER_SIZE + f.payloadLen] == f.payload;
  }

  lemma HeadOf(s: seq<byte>)
    requires |s| >= HEADER_SIZE && ValidateHeader(s).None? && |s| >= HEADER_SIZE + DeclaredLength(s)
    ensures FrameAt(s).Head() == s[..17] && ToBytes(FrameAt(s).checksum) == s[17..21]
  {
    var f := FrameAt(s);
    BytesRoundTrip(s[8..12]);
    BytesRoundTrip(s[12..16]);
    BytesRoundTrip(s[17..21]);
    var head := f.Head();
    assert head[..4] == s[..4];
    assert head[4] == s[4] && head[5] == s[5] && head[6] == s[6] && head[7] == s[7];
    assert head[8..12] == s[8..12] && head[12..16] == s[12..16];
    assert head[16] == s[16];
    assert head == head[..4] + [head[4], head[5], head[6], head[7]] + head[8..12] + head[12..16] + [head[16]];
    assert s[..17] == s[..4] + [s[4], s[5], s[6], s[7]] + s[8..12] + s[12..16] + [s[16]];
  }

  /** A frame read from bytes is well-formed and encodes to exactly those bytes. */
  lemma ReadFrameEncodesBack(s: seq<byte>)
    requires |s| >= HEADER_SIZE && ValidateHeader(s).None? && |s| >= HEADER_SIZE + DeclaredLength(s)
    ensures WellFormed(FrameAt(s)) && FrameAt(s).Encoded() == s[..HEADER_SIZE + DeclaredLength(s)]
  {
    HeadOf(s);
    var total := HEADER_SIZE + DeclaredLength(s);
    assert s[..total] == s[..17] + s[17..21] + s[21..total];
  }

  /** Parsing yields a frame exactly when the bytes start with the encoding of a
      well-formed frame with the right checksum; the rest follows it. */
  lemma ParseIsInverse(hash: Hash, s: seq<byte>, f: Frame, rest: seq<byte>)
    ensures Parse(hash, s) == (Ok(Some(f)), rest) <==>
            WellFormed(f) && f.VerifyChecksum(hash) && s == f.Encoded() + rest
  {
    if Parse(hash, s) == (Ok(Some(f)), rest) {
      ReadFrameEncodesBack(s);
      assert s == s[..HEADER_SIZE + DeclaredLength(s)] + s[HEADER_SIZE + DeclaredLength(s)..];
    }
    if WellFormed(f) && f.VerifyChecksum(hash) && s == f.Encoded() + rest {
      EncodedReadsBack(f, rest);
    }
  }
}
