/** The wire byte by byte: where the fields of a frame are, which headers are refused and how,
    and what the checksum covers. */
module WireRules {
  import opened Prelude
  import opened Bytes
  import opened Protocol
  import opened Codecs

  // ----- The layout -----

  /** The big-endian value of the four bytes of `s` from `i` on. */
  function WordAt(s: seq<byte>, i: nat): int
    requires i + 4 <= |s|
  {
    ((s[i] as int * 0x100 + s[i + 1] as int) * 0x100 + s[i + 2] as int) * 0x100 + s[i + 3] as int
  }

  /** Where each field of a frame is on the wire. */
  lemma WireLayout(f: Frame)
    ensures var s := f.Encoded();
            && |s| == 21 + |f.payload|
            && s[0] == 0xDA && s[1] == 0xF0 && s[2] == 0xDD && s[3] == 0xA1
            && s[4] == f.version.major && s[5] == f.version.minor && s[6] == f.version.patch
            && WordAt(s, 8) == f.streamId && WordAt(s, 12) == f.payloadLen
            && s[16] == f.flags && WordAt(s, 17) == f.checksum && s[21..] == f.payload
    ensures var code := f.Encoded()[7];
            match f.frameType
            case Handshake => code == 1
            case Data => code == 2
            case Ack => code == 3
            case Nack => code == 4
            case Ping => code == 5
            case Pong => code == 6
            case Route => code == 7
            case Subscribe => code == 8
            case Unsubscribe => code == 9
            case Close => code == 10
  {
    hide ToBytes, FromBytes;
    var s := f.Encoded();
    assert s[8..12] == ToBytes(f.streamId) && s[12..16] == ToBytes(f.payloadLen) && s[17..21] == ToBytes(f.checksum);
    WordOnWire(s, 8, f.streamId);
    WordOnWire(s, 12, f.payloadLen);
    WordOnWire(s, 17, f.checksum);
  }

  lemma WordOnWire(s: seq<byte>, i: nat, x: word)
    requires i + 4 <= |s| && s[i..i + 4] == ToBytes(x)
    ensures WordAt(s, i) == x
  {
    var b := ToBytes(x);
    assert s[i] == b[0] && s[i + 1] == b[1] && s[i + 2] == b[2] && s[i + 3] == b[3];
    WordRoundTrip(x);
  }

  /** Which headers are accepted, by their bytes. */
  lemma HeaderIsAcceptedIff(s: seq<byte>)
    requires |s| >= 21
    ensures ValidateHeader(s).None? <==>
            && s[0] == 0xDA && s[1] == 0xF0 && s[2] == 0xDD && s[3] == 0xA1
            && s[4] == 0 && s[5] <= 1 && 1 <= s[7] <= 10 && WordAt(s, 12) <= 16_777_216
  {
    assert s[..4] == [s[0], s[1], s[2], s[3]];
    assert s[12..16] == [s[12], s[13], s[14], s[15]];
    assert FrameType.FromByte(s[7]).Some? <==> 1 <= s[7] <= 10;
    assert (exists t: FrameType :: t.Code() == s[7]) <==> FrameType.FromByte(s[7]).Some? by {
      if t: FrameType :| t.Code() == s[7] {
        assert FrameType.FromByte(s[7]) == Some(t);
      }
    }
  }

  /** What is wrong with a header that is not accepted: the first of magic, version, type and
      length that does not fit. */
  lemma HeaderErrors(s: seq<byte>)
    requires |s| >= 21
    ensures var magic := s[0] == 0xDA && s[1] == 0xF0 && s[2] == 0xDD && s[3] == 0xA1;
            var version, length := ProtocolVersion(s[4], s[5], s[6]), WordAt(s, 12);
            && (!magic ==> ValidateHeader(s) == Some(InvalidMagic([s[0], s[1], s[2], s[3]])))
            && (magic && !(s[4] == 0 && s[5] <= 1) ==> ValidateHeader(s) == Some(UnsupportedVersion(version)))
            && (magic && s[4] == 0 && s[5] <= 1 && !(1 <= s[7] <= 10) ==>
                  ValidateHeader(s) == Some(UnknownFrameType(s[7])))
            && (magic && s[4] == 0 && s[5] <= 1 && 1 <= s[7] <= 10 && length > 16_777_216 ==>
                  ValidateHeader(s) == Some(PayloadTooLarge(length)))
  {
    assert s[..4] == [s[0], s[1], s[2], s[3]];
    assert s[12..16] == [s[12], s[13], s[14], s[15]];
    assert FrameType.FromByte(s[7]).Some? <==> 1 <= s[7] <= 10;
  }

  /** What parsing makes of any bytes: it waits, and consumes nothing, exactly when the header
      or, after an accepted header, the payload is incomplete; a refused header is reported
      and not consumed; and a complete frame is consumed whole, whether it is good or not. */
  lemma ParseOutcomes(hash: Hash, s: seq<byte>)
    ensures |s| < 21 ==> Parse(hash, s) == (Ok(None), s)
    ensures |s| >= 21 && ValidateHeader(s).Some? ==> Parse(hash, s) == (Err(ValidateHeader(s).value), s)
    ensures |s| >= 21 && ValidateHeader(s).None? && |s| < 21 + WordAt(s, 12) ==> Parse(hash, s) == (Ok(None), s)
    ensures |s| >= 21 && ValidateHeader(s).None? && |s| >= 21 + WordAt(s, 12) ==>
              var (r, rest) := Parse(hash, s);
              && rest == s[21 + WordAt(s, 12)..]
              && (r.Ok? ==> r.value.Some? && r.value.value.checksum == WordAt(s, 17))
              && (r.Err? ==> r.error.ChecksumMismatch? && r.error.received == WordAt(s, 17)
                             && r.error.expected != r.error.received)
  {
    if |s| >= 21 {
      assert s[12..16] == [s[12], s[13], s[14], s[15]] && s[17..21] == [s[17], s[18], s[19], s[20]];
    }
  }

  /** What the codec makes of bytes that start with the magic and hold a header: it reports a
      header that is not accepted and a frame above its own limit, waits for an incomplete
      one, consuming nothing in these cases, and leaves a complete one to parsing. */
  lemma DecodeOutcomes(hash: Hash, maxFrameSize: nat, s: seq<byte>)
    requires |s| >= 21 && s[0] == 0xDA && s[1] == 0xF0 && s[2] == 0xDD && s[3] == 0xA1
    ensures var r, total := Decode(hash, maxFrameSize, s), 21 + WordAt(s, 12);
            if ValidateHeader(s).Some? then r == (Err(ProtocolError(ValidateHeader(s).value)), s)
            else if total > maxFrameSize then r == (Err(FrameTooLarge(total, maxFrameSize)), s)
            else if |s| < total then r == (Ok(None), s)
            else
              && r.1 == s[total..]
              && (Parse(hash, s).0.Ok? ==> r.0 == Ok(Parse(hash, s).0.value))
              && (Parse(hash, s).0.Err? ==> r.0 == Err(ProtocolError(Parse(hash, s).0.error)))
  {
    hide Parse, ValidateHeader;
    assert s[..4] == MAGIC && s[12..16] == [s[12], s[13], s[14], s[15]];
    ParseOutcomes(hash, s);
  }

  /** Which frames the codec sends, and why it does not send another: the first of version,
      size, declared length and checksum that does not fit. */
  lemma EncodeOutcomes(hash: Hash, maxFrameSize: nat, f: Frame)
    ensures var total, supported := 21 + |f.payload|, f.version.major == 0 && f.version.minor <= 1;
            var tooLarge := total > maxFrameSize || |f.payload| > 16_777_216;
            var refusal := Refusal(hash, maxFrameSize, f);
            && (!supported ==> refusal == Some(ProtocolError(UnsupportedVersion(f.version))))
            && (supported && tooLarge ==>
                  && refusal.Some? && refusal.value.FrameTooLarge? && refusal.value.size == total
                  && refusal.value.max <= maxFrameSize && refusal.value.max <= 16_777_237
                  && (refusal.value.max == maxFrameSize || refusal.value.max == 16_777_237))
            && (supported && !tooLarge && f.payloadLen != |f.payload| ==>
                  refusal == Some(InvalidFrame(LengthMismatch)))
            && (supported && !tooLarge && f.payloadLen == |f.payload| && f.checksum != f.ComputeChecksum(hash) ==>
                  refusal == Some(InvalidFrame(StaleChecksum)))
            && (refusal == None <==>
                  supported && !tooLarge && f.payloadLen == |f.payload| && f.checksum == f.ComputeChecksum(hash))
  {
  }

  /** A new frame is accepted for sending exactly when its payload is within both limits, and
      then it is what the other side decodes, whatever follows. */
  lemma NewFrameTravelsIff(
      hash: Hash, maxFrameSize: nat, frameType: FrameType, streamId: word, flags: byte, payload: seq<byte>,
      rest: seq<byte>)
    ensures var f := Frame.New(hash, frameType, streamId, flags, payload);
            && (Refusal(hash, maxFrameSize, f) == None <==> |payload| <= 16_777_216 && 21 + |payload| <= maxFrameSize)
            && (|payload| <= 16_777_216 && 21 + |payload| <= maxFrameSize ==>
                  Decode(hash, maxFrameSize, f.Encoded() + rest) == (Ok(Some(f)), rest))
  {
    hide Decode;
    var f := Frame.New(hash, frameType, streamId, flags, payload);
    EncodeOutcomes(hash, maxFrameSize, f);
    if |payload| <= 16_777_216 && 21 + |payload| <= maxFrameSize {
      EncodeThenDecode(hash, maxFrameSize, f, rest);
    }
  }

  // ----- What the checksum covers -----

  /** The two frames differ in a field other than the checksum. */
  ghost predicate DifferBesidesChecksum(f: Frame, g: Frame) {
    || f.version != g.version || f.frameType != g.frameType || f.streamId != g.streamId
    || f.payloadLen != g.payloadLen || f.flags != g.flags || f.payload != g.payload
  }

  /** Some hash tells the two frames apart. */
  ghost predicate ToldApart(f: Frame, g: Frame) {
    exists hash: Hash :: f.ComputeChecksum(hash) != g.ComputeChecksum(hash)
  }

  /** The hash that is zero on `b` only. */
  function ZeroOn(b: seq<byte>): Hash {
    (s: seq<byte>) => if s == b then 0 else 1
  }

  /** The bytes that are hashed determine every field that they come from. */
  lemma HashedBytesDiffer(f: Frame, g: Frame)
    requires DifferBesidesChecksum(f, g)
    ensures f.Head() + f.payload != g.Head() + g.payload
  {
    var a, b := f.Head() + f.payload, g.Head() + g.payload;
    if a == b {
      assert f.Head() == a[..17] == b[..17] == g.Head();
      assert f.payload == a[17..] == b[17..] == g.payload;
      SameHead(f, g);
      assert false;
    }
  }

  lemma SameHead(f: Frame, g: Frame)
    requires f.Head() == g.Head()
    ensures f.version == g.version && f.frameType == g.frameType && f.streamId == g.streamId
    ensures f.payloadLen == g.payloadLen && f.flags == g.flags
  {
    var a, b := f.Head(), g.Head();
    assert a[4] == f.version.major && a[5] == f.version.minor && a[6] == f.version.patch;
    assert b[4] == g.version.major && b[5] == g.version.minor && b[6] == g.version.patch;
    assert a[7] == f.frameType.Code() && b[7] == g.frameType.Code() && a[16] == f.flags && b[16] == g.flags;
    assert FrameType.FromByte(a[7]) == Some(f.frameType) && FrameType.FromByte(b[7]) == Some(g.frameType);
    assert a[8..12] == ToBytes(f.streamId) && b[8..12] == ToBytes(g.streamId);
    assert a[12..16] == ToBytes(f.payloadLen) && b[12..16] == ToBytes(g.payloadLen);
    WordRoundTrip(f.streamId);
    WordRoundTrip(g.streamId);
    WordRoundTrip(f.payloadLen);
    WordRoundTrip(g.payloadLen);
  }

  /** The checksum covers the version, the type, the stream, the declared length, the flags
      and the whole payload, and nothing else: two frames have one checksum under every hash
      exactly when they agree in all of these. */
  lemma ChecksumCoversIff(f: Frame, g: Frame)
    ensures ToldApart(f, g) <==>
            || f.version != g.version || f.frameType != g.frameType || f.streamId != g.streamId
            || f.payloadLen != g.payloadLen || f.flags != g.flags || f.payload != g.payload
  {
    if DifferBesidesChecksum(f, g) {
      HashedBytesDiffer(f, g);
      var hash := ZeroOn(f.Head() + f.payload);
      assert f.ComputeChecksum(hash) != g.ComputeChecksum(hash);
    } else {
      assert f.Head() == g.Head();
    }
  }

  // ----- Damaged frames -----

  /** What parsing makes of a frame with another payload of the same length under the same
      header: the checksum does not fit. */
  lemma OtherPayloadIsMismatch(hash: Hash, f: Frame, payload: seq<byte>, rest: seq<byte>)
    requires WellFormed(f) && |payload| == |f.payload| && f.VerifyChecksum(hash)
    requires f.(payload := payload).ComputeChecksum(hash) != f.checksum
    ensures Parse(hash, f.Encoded() + rest) == (Ok(Some(f)), rest)
    ensures var g := f.(payload := payload);
            Parse(hash, g.Encoded() + rest) == (Err(ChecksumMismatch(g.ComputeChecksum(hash), f.checksum)), rest)
  {
    ParseIsInverse(hash, f.Encoded() + rest, f, rest);
    EncodedReadsBack(f.(payload := payload), rest);
  }

  /** The hash that gives the checksum of a frame on its own bytes, and another value elsewhere. */
  function Fits(f: Frame): Hash {
    (s: seq<byte>) => if s == f.Head() + f.payload then f.checksum else (f.checksum + 1) % 0x1_0000_0000
  }

  /** One byte of the payload changed on the way: some hash accepts the frame as it was sent,
      and rejects it as it arrived. */
  lemma ChangedByteIsDetected(f: Frame, i: nat, b: byte, rest: seq<byte>) returns (hash: Hash)
    requires WellFormed(f) && i < |f.payload| && b != f.payload[i]
    ensures var sent := f.Encoded() + rest;
            && 21 + i < |sent| && sent[21 + i] != b
            && Parse(hash, sent) == (Ok(Some(f)), rest)
            && Parse(hash, sent[21 + i := b]).0.Err? && Parse(hash, sent[21 + i := b]).0.error.ChecksumMismatch?
            && Parse(hash, sent[21 + i := b]).1 == rest
  {
    hash := Fits(f);
    var sent := f.Encoded() + rest;
    var g := f.(payload := f.payload[i := b]);
    WireLayout(f);
    assert sent[21 + i] == f.Encoded()[21..][i];
    HashedBytesDiffer(f, g);
    OtherPayloadIsMismatch(hash, f, g.payload, rest);
    ChangedEncoding(f, i, b, rest);
  }

  lemma ChangedEncoding(f: Frame, i: nat, b: byte, rest: seq<byte>)
    requires i < |f.payload|
    ensures (f.Encoded() + rest)[21 + i := b] == f.(payload := f.payload[i := b]).Encoded() + rest
  {
    var g := f.(payload := f.payload[i := b]);
    assert f.Head() == g.Head();
  }
}
