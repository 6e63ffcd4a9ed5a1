/** The incremental frame codec: it finds the next frame in a byte stream that arrives in
    pieces, and writes frames. */
module Codecs {
  import opened Prelude
  import opened Bytes
  import opened Protocol

  datatype InvalidReason = LengthMismatch | StaleChecksum

  datatype CodecError =
    | InvalidFrame(reason: InvalidReason)
    | FrameTooLarge(size: nat, max: nat)
    | ProtocolError(error: FrameDecodeError)

  // ----- Alignment -----

  predicate MagicAt(s: seq<byte>, i: nat) {
    i + 4 <= |s| && s[i..i + 4] == MAGIC
  }

  /** How many bytes alignment discards. */
  ghost predicate Discards(s: seq<byte>, n: nat) {
    && n <= |s|
    && (forall i :: 0 <= i < n ==> !MagicAt(s, i) && i + 4 <= |s|)
    && (MagicAt(s, n) || |s| - n < 4)
  }

  /** Discards bytes until the magic or fewer than four bytes are left. */
  function Align(s: seq<byte>): (r: seq<byte>)
    ensures |r| <= |s| && r == s[|s| - |r|..]
    ensures |r| < 4 || MagicAt(r, 0)
  {
    if |s| < 4 then s
    else if s[..4] == MAGIC then
      assert s[0..0 + 4] == s[..4];
      s
    else
      var r := Align(s[1..]);
      assert s[1..][|s| - 1 - |r|..] == s[|s| - |r|..];
      r
  }

  lemma MagicOneOn(s: seq<byte>, i: nat)
    requires 0 < i && s != []
    ensures MagicAt(s, i) <==> MagicAt(s[1..], i - 1)
  {
    if i + 4 <= |s| {
      assert s[1..][i - 1..i + 3] == s[i..i + 4];
    }
  }

  lemma DiscardsOneMore(s: seq<byte>, n: nat)
    requires |s| >= 4 && !MagicAt(s, 0) && Discards(s[1..], n)
    ensures Discards(s, n + 1)
  {
    forall i | 0 <= i < n + 1 ensures !MagicAt(s, i) && i + 4 <= |s| {
      if i > 0 {
        MagicOneOn(s, i);
      }
    }
    MagicOneOn(s, n + 1);
  }

  lemma {:induction false} AlignDiscards(s: seq<byte>)
    ensures Discards(s, |s| - |Align(s)|)
  {
    if |s| >= 4 && s[..4] != MAGIC {
      AlignDiscards(s[1..]);
      DiscardsOneMore(s, |s[1..]| - |Align(s[1..])|);
    }
  }

  /** Alignment keeps everything from the first magic on, or the last three bytes when
      there is none: exactly the bytes before that are discarded. */
  lemma AlignKeepsFirstMagic(s: seq<byte>, n: nat)
    ensures Discards(s, n) <==> n <= |s| && Align(s) == s[n..]
  {
    AlignDiscards(s);
    if Discards(s, n) {
      OneDiscard(s, n, |s| - |Align(s)|);
    }
  }

  lemma OneDiscard(s: seq<byte>, n: nat, m: nat)
    requires Discards(s, n) && Discards(s, m)
    ensures n == m
  {
  }

  /** More bytes behind do not change what alignment discards, beyond what it could not
      decide yet. */
  lemma {:induction false} AlignMore(a: seq<byte>, b: seq<byte>)
    ensures Align(a + b) == Align(Align(a) + b)
    ensures |Align(a)| >= 4 ==> Align(a + b) == Align(a) + b
  {
    if |a| >= 4 {
      assert (a + b)[..4] == a[..4];
      if a[..4] != MAGIC {
        assert (a + b)[1..] == a[1..] + b;
        AlignMore(a[1..], b);
      }
    }
  }

  // ----- Decoding -----

  type Outcome = Result<Option<Frame>, CodecError>

  /** Decoding from aligned bytes that hold a whole header. */
  function DecodeAligned(hash: Hash, maxFrameSize: nat, a: seq<byte>): (Outcome, seq<byte>)
    requires |a| >= HEADER_SIZE
  {
    if ValidateHeader(a).Some? then (Err(ProtocolError(ValidateHeader(a).value)), a)
    else
      var total := HEADER_SIZE + DeclaredLength(a);
      if total > maxFrameSize then (Err(FrameTooLarge(total, maxFrameSize)), a)
      else if |a| < total then (Ok(None), a)
      else
        var (r, rest) := Parse(hash, a);
        (if r.Ok? then Ok(r.value) else Err(ProtocolError(r.error)), rest)
  }

  /** Decoding one frame: the outcome and the bytes left. */
  function Decode(hash: Hash, maxFrameSize: nat, s: seq<byte>): (r: (Outcome, seq<byte>)) {
    var a := Align(s);
    if |a| < HEADER_SIZE then (Ok(None), a) else DecodeAligned(hash, maxFrameSize, a)
  }

  /** What frames the codec accepts for sending. */
  predicate Encodable(hash: Hash, maxFrameSize: nat, f: Frame) {
    WellFormed(f) && HEADER_SIZE + |f.payload| <= maxFrameSize && f.VerifyChecksum(hash)
  }

  /** Why a frame is not accepted for sending. */
  function Refusal(hash: Hash, maxFrameSize: nat, f: Frame): (r: Option<CodecError>)
    ensures r.None? <==> Encodable(hash, maxFrameSize, f)
  {
    if !CURRENT.IsCompatibleWith(f.version) then Some(ProtocolError(UnsupportedVersion(f.version)))
    else if |f.payload| > MAX_PAYLOAD_SIZE || HEADER_SIZE + |f.payload| > maxFrameSize then
      Some(FrameTooLarge(HEADER_SIZE + |f.payload|,
                         if maxFrameSize < HEADER_SIZE + MAX_PAYLOAD_SIZE
                           then maxFrameSize else HEADER_SIZE + MAX_PAYLOAD_SIZE))
    else if |f.payload| != f.payloadLen then Some(InvalidFrame(LengthMismatch))
    else if !f.VerifyChecksum(hash) then Some(InvalidFrame(StaleChecksum))
    else None
  }

  class Codec {
    const hash: Hash
    const maxFrameSize: nat

    constructor (hash: Hash, maxFrameSize: nat)
      ensures this.hash == hash && this.maxFrameSize == maxFrameSize
    {
      this.hash, this.maxFrameSize := hash, maxFrameSize;
    }

    method AlignToMagic(buf: Buffer) returns (found: bool)
      modifies buf
      ensures buf.data == Align(old(buf.data)) && (found <==> |buf.data| >= 4)
    {
      while true
        invariant Align(buf.data) == Align(old(buf.data))
        decreases |buf.data|
      {
        if |buf.data| < 4 {
          return false;
        }
        if buf.data[0..4] == MAGIC {
          return true;
        }
        buf.Advance(1);
      }
    }

    method DecodeNext(src: Buffer) returns (r: Outcome)
      modifies src
      ensures (r, src.data) == Decode(hash, maxFrameSize, old(src.data))
    {
      var found := AlignToMagic(src);
      if !found || |src.data| < HEADER_SIZE {
        return Ok(None);
      }
      var invalid := ValidateHeader(src.data);
      if invalid.Some? {
        return Err(ProtocolError(invalid.value));
      }
      var total := HEADER_SIZE + FromBytes(src.data[12..16]);
      if total > maxFrameSize {
        return Err(FrameTooLarge(total, maxFrameSize));
      }
      if |src.data| < total {
        return Ok(None);
      }
      var parsed := DecodeFromBytes(hash, src);
      match parsed
      case Ok(frame) => r := Ok(frame);
      case Err(error) => r := Err(ProtocolError(error));
    }

    /** Appends an accepted frame; a refused one leaves the destination as it was. */
    method Encode(f: Frame, dst: Buffer) returns (r: Result<(), CodecError>)
      modifies dst
      ensures r == if Encodable(hash, maxFrameSize, f) then Ok(()) else Err(Refusal(hash, maxFrameSize, f).value)
      ensures dst.data == old(dst.data) + if Encodable(hash, maxFrameSize, f) then f.Encoded() else []
    {
      if !CURRENT.IsCompatibleWith(f.version) {
        return Err(ProtocolError(UnsupportedVersion(f.version)));
      }
      var total := HEADER_SIZE + |f.payload|;
      if |f.payload| > MAX_PAYLOAD_SIZE || total > maxFrameSize {
        var max := if maxFrameSize < HEADER_SIZE + MAX_PAYLOAD_SIZE
          then maxFrameSize else HEADER_SIZE + MAX_PAYLOAD_SIZE;
        return Err(FrameTooLarge(total, max));
      }
      if |f.payload| != f.payloadLen {
        return Err(InvalidFrame(LengthMismatch));
      }
      if !f.VerifyChecksum(hash) {
        return Err(InvalidFrame(StaleChecksum));
      }
      var encoded := EncodeToBytes(f);
      dst.PutSlice(encoded.data);
      r := Ok(());
    }

    /** Takes frames off a buffer until it holds no whole frame or an error occurs. */
    method DrainAll(src: Buffer) returns (frames: seq<Frame>, error: Option<CodecError>)
      modifies src
      ensures Drained(frames, error, src.data) == Drain(hash, maxFrameSize, old(src.data))
    {
      hide Decode, Parse, Align;
      frames := [];
      assert Drain(hash, maxFrameSize, src.data).After([]) == Drain(hash, maxFrameSize, src.data);
      while true
        invariant Drain(hash, maxFrameSize, old(src.data)) == Drain(hash, maxFrameSize, src.data).After(frames)
        decreases |src.data|
      {
        DecodeShrinks(hash, maxFrameSize, src.data);
        var r := DecodeNext(src);
        match r {
          case Err(e) => return frames, Some(e);
          case Ok(None) => return frames, None;
          case Ok(Some(frame)) =>
            AfterBoth(Drain(hash, maxFrameSize, src.data), frames, frame);
            frames := frames + [frame];
        }
      }
    }

    /** Drains a stream that arrives in chunks: after every chunk, all whole frames are
        taken; reading stops at the first error. */
    method DrainChunks(chunks: seq<seq<byte>>, src: Buffer) returns (frames: seq<Frame>, error: Option<CodecError>)
      modifies src
      ensures Drained(frames, error, src.data) ==
              Feed(hash, maxFrameSize, Drain(hash, maxFrameSize, old(src.data)), chunks)
    {
      frames, error := DrainAll(src);
      for i := 0 to |chunks|
        invariant Feed(hash, maxFrameSize, Drained(frames, error, src.data), chunks[i..]) ==
                  Feed(hash, maxFrameSize, Drain(hash, maxFrameSize, old(src.data)), chunks)
      {
        src.PutSlice(chunks[i]);
        if error.None? {
          var more;
          more, error := DrainAll(src);
          frames := frames + more;
        }
      }
    }
  }

  // ----- Draining a stream -----

  /** Everything taken off a stream: the frames, the error that stopped it, the bytes left. */
  datatype Drained = Drained(frames: seq<Frame>, error: Option<CodecError>, rest: seq<byte>) {

    function After(earlier: seq<Frame>): Drained {
      Drained(earlier + frames, error, rest)
    }
  }

  lemma AfterBoth(d: Drained, earlier: seq<Frame>, frame: Frame)
    ensures d.After([frame]).After(earlier) == d.After(earlier + [frame])
  {
    assert earlier + ([frame] + d.frames) == earlier + [frame] + d.frames;
  }

  lemma DecodeShrinks(hash: Hash, maxFrameSize: nat, s: seq<byte>)
    ensures var (r, rest) := Decode(hash, maxFrameSize, s);
            |rest| <= |s| && (r.Ok? && r.value.Some? ==> |rest| < |s|)
  {
  }

  function Drain(hash: Hash, maxFrameSize: nat, s: seq<byte>): Drained
    decreases |s|
  {
    var (r, rest) := Decode(hash, maxFrameSize, s);
    DecodeShrinks(hash, maxFrameSize, s);
    match r
    case Err(e) => Drained([], Some(e), rest)
    case Ok(None) => Drained([], None, rest)
    case Ok(Some(frame)) => Drain(hash, maxFrameSize, rest).After([frame])
  }

  /** Draining one chunk after the other. */
  function Feed(hash: Hash, maxFrameSize: nat, d: Drained, chunks: seq<seq<byte>>): Drained
    decreases |chunks|
  {
    if chunks == [] then d
    else
      var next := if d.error.Some? then d.(rest := d.rest + chunks[0])
                  else Drain(hash, maxFrameSize, d.rest + chunks[0]).After(d.frames);
      Feed(hash, maxFrameSize, next, chunks[1..])
  }

  function Concat(chunks: seq<seq<byte>>): seq<byte> {
    if chunks == [] then [] else chunks[0] + Concat(chunks[1..])
  }

  predicate WantsMore(r: Outcome) {
    r.Ok? && r.value.None?
  }

  lemma DropOfConcat(a: seq<byte>, b: seq<byte>, n: nat)
    requires n <= |a|
    ensures (a + b)[n..] == a[n..] + b
  {
  }

  lemma DecodeAlignedMore(hash: Hash, maxFrameSize: nat, a: seq<byte>, b: seq<byte>)
    requires |a| >= HEADER_SIZE
    ensures var (r, rest) := DecodeAligned(hash, maxFrameSize, a);
            if WantsMore(r) then rest == a else DecodeAligned(hash, maxFrameSize, a + b) == (r, rest + b)
  {
    assert (a + b)[..|a|] == a;
    PrefixIsParsedAlike(a + b, |a|);
    var (r, rest) := DecodeAligned(hash, maxFrameSize, a);
    if ValidateHeader(a).None? && |a| >= HEADER_SIZE + DeclaredLength(a) {
      var total := HEADER_SIZE + DeclaredLength(a);
      DropOfConcat(a, b, total);
      assert FrameAt(a + b) == FrameAt(a);
    }
  }

  /** An outcome other than "more bytes needed" is final; otherwise decoding can go on
      from the bytes left. */
  lemma DecodeMore(hash: Hash, maxFrameSize: nat, a: seq<byte>, b: seq<byte>)
    ensures var (r, rest) := Decode(hash, maxFrameSize, a);
            Decode(hash, maxFrameSize, a + b) ==
            if WantsMore(r) then Decode(hash, maxFrameSize, rest + b) else (r, rest + b)
  {
    hide DecodeAligned, Align, Decode, WantsMore;
    AlignMore(a, b);
    var x := Align(a);
    DecodesAligned(hash, maxFrameSize, a);
    DecodesAligned(hash, maxFrameSize, a + b);
    DecodesAligned(hash, maxFrameSize, x + b);
    if |x| >= HEADER_SIZE {
      DecodeAlignedMore(hash, maxFrameSize, x, b);
    }
  }

  lemma DecodesAligned(hash: Hash, maxFrameSize: nat, s: seq<byte>)
    ensures |Align(s)| < HEADER_SIZE ==>
              Decode(hash, maxFrameSize, s) == (Ok(None), Align(s)) && WantsMore(Decode(hash, maxFrameSize, s).0)
    ensures |Align(s)| >= HEADER_SIZE ==> Decode(hash, maxFrameSize, s) == DecodeAligned(hash, maxFrameSize, Align(s))
  {
  }

  /** Draining a stream in two pieces. */
  lemma {:induction false} DrainMore(hash: Hash, maxFrameSize: nat, a: seq<byte>, b: seq<byte>)
    ensures var d := Drain(hash, maxFrameSize, a);
            Drain(hash, maxFrameSize, a + b) ==
            if d.error.Some? then d.(rest := d.rest + b) else Drain(hash, maxFrameSize, d.rest + b).After(d.frames)
    decreases |a|
  {
    hide Decode;
    DecodeMore(hash, maxFrameSize, a, b);
    DecodeShrinks(hash, maxFrameSize, a);
    var (r, rest) := Decode(hash, maxFrameSize, a);
    if r.Ok? && r.value.Some? {
      DrainMore(hash, maxFrameSize, rest, b);
      var d := Drain(hash, maxFrameSize, rest);
      assert [r.value.value] + (d.frames + Drain(hash, maxFrameSize, d.rest + b).frames) ==
             ([r.value.value] + d.frames) + Drain(hash, maxFrameSize, d.rest + b).frames;
    }
  }

  lemma {:induction false} FeedIsDrain(hash: Hash, maxFrameSize: nat, s: seq<byte>, chunks: seq<seq<byte>>)
    ensures Feed(hash, maxFrameSize, Drain(hash, maxFrameSize, s), chunks) ==
            Drain(hash, maxFrameSize, s + Concat(chunks))
    decreases |chunks|
  {
    hide Drain;
    if chunks == [] {
      assert s + [] == s;
    } else {
      DrainMore(hash, maxFrameSize, s, chunks[0]);
      FeedIsDrain(hash, maxFrameSize, s + chunks[0], chunks[1..]);
      assert s + chunks[0] + Concat(chunks[1..]) == s + (chunks[0] + Concat(chunks[1..]));
    }
  }

  /** Chunking invariance: however a stream is split, draining after every piece yields
      the same frames, the same error and the same bytes left as draining it whole. */
  lemma ChunkingIsInvisible(hash: Hash, maxFrameSize: nat, chunks: seq<seq<byte>>, other: seq<seq<byte>>)
    requires Concat(chunks) == Concat(other)
    ensures var start := Drain(hash, maxFrameSize, []);
            && Feed(hash, maxFrameSize, start, chunks) == Drain(hash, maxFrameSize, Concat(chunks))
            && Feed(hash, maxFrameSize, start, chunks) == Feed(hash, maxFrameSize, start, other)
  {
    FeedIsDrain(hash, maxFrameSize, [], chunks);
    FeedIsDrain(hash, maxFrameSize, [], other);
    assert [] + Concat(chunks) == Concat(chunks);
    assert [] + Concat(other) == Concat(other);
  }

  // ----- Round trips -----

  lemma AlignedIsInverse(hash: Hash, maxFrameSize: nat, a: seq<byte>, f: Frame, rest: seq<byte>)
    requires |a| >= HEADER_SIZE
    ensures DecodeAligned(hash, maxFrameSize, a) == (Ok(Some(f)), rest) <==>
            Encodable(hash, maxFrameSize, f) && a == f.Encoded() + rest
  {
    ParseIsInverse(hash, a, f, rest);
    if Encodable(hash, maxFrameSize, f) && a == f.Encoded() + rest {
      EncodedReadsBack(f, rest);
    }
    if DecodeAligned(hash, maxFrameSize, a) == (Ok(Some(f)), rest) {
      assert Parse(hash, a) == (Ok(Some(f)), rest) && DeclaredLength(a) == f.payloadLen;
    }
  }

  /** Decoding yields a frame exactly when the aligned bytes start with the encoding of a
      frame the codec would send; the rest is untouched. */
  lemma DecodeIsInverse(hash: Hash, maxFrameSize: nat, s: seq<byte>, f: Frame, rest: seq<byte>)
    ensures Decode(hash, maxFrameSize, s) == (Ok(Some(f)), rest) <==>
            Encodable(hash, maxFrameSize, f) && Align(s) == f.Encoded() + rest
  {
    hide DecodeAligned, Encodable, Align;
    if |Align(s)| >= HEADER_SIZE {
      AlignedIsInverse(hash, maxFrameSize, Align(s), f, rest);
    }
  }

  /** Every accepted frame decodes to itself and leaves what follows. */
  lemma EncodeThenDecode(hash: Hash, maxFrameSize: nat, f: Frame, rest: seq<byte>)
    requires Encodable(hash, maxFrameSize, f)
    ensures Decode(hash, maxFrameSize, f.Encoded() + rest) == (Ok(Some(f)), rest)
  {
    var s := f.Encoded() + rest;
    assert s[..4] == MAGIC;
    DecodeIsInverse(hash, maxFrameSize, s, f, rest);
  }

  ghost predicate MagicFree(g: seq<byte>) {
    forall i: nat :: !MagicAt(g, i)
  }

  /** The magic overlaps no shifted copy of itself, so garbage without the magic is
      skipped exactly up to it. */
  lemma GarbageIsSkipped(g: seq<byte>, s: seq<byte>)
    requires MagicFree(g) && MagicAt(s, 0)
    ensures Align(g + s) == s
  {
    var all := g + s;
    forall i | 0 <= i < |g| ensures !MagicAt(all, i) && i + 4 <= |all| {
      if i + 4 <= |g| {
        assert all[i..i + 4] == g[i..i + 4];
        assert !MagicAt(g, i);
      } else {
        assert all[|g|] == s[..4][0] && all[|g| + 1] == s[..4][1] && all[|g| + 2] == s[..4][2];
        assert all[i..i + 4][|g| - i] == all[|g|];
      }
    }
    assert all[|g|..|g| + 4] == s[0..4];
    assert MagicAt(all, |g|);
    AlignKeepsFirstMagic(all, |g|);
    assert all[|g|..] == s;
  }

  /** Recovery after garbage. */
  lemma GarbageThenFrame(hash: Hash, maxFrameSize: nat, g: seq<byte>, f: Frame, rest: seq<byte>)
    requires MagicFree(g) && Encodable(hash, maxFrameSize, f)
    ensures Decode(hash, maxFrameSize, g + (f.Encoded() + rest)) == (Ok(Some(f)), rest)
  {
    var s := f.Encoded() + rest;
    assert s[0..4] == MAGIC;
    GarbageIsSkipped(g, s);
    DecodeIsInverse(hash, maxFrameSize, g + s, f, rest);
  }

  /** A stream of frames, each with some garbage before it. */
  function Noisy(parts: seq<(seq<byte>, Frame)>): seq<byte> {
    if parts == [] then [] else parts[0].0 + (parts[0].1.Encoded() + Noisy(parts[1..]))
  }

  function FramesOf(parts: seq<(seq<byte>, Frame)>): seq<Frame> {
    if parts == [] then [] else [parts[0].1] + FramesOf(parts[1..])
  }

  /** A stream of accepted frames with magic-free garbage between them, in whatever chunks
      it arrives, yields exactly those frames in order, without an error or a byte left. */
  lemma {:induction false} NoisyStreamIsRead(
      hash: Hash, maxFrameSize: nat, parts: seq<(seq<byte>, Frame)>, chunks: seq<seq<byte>>)
    requires Concat(chunks) == Noisy(parts)
    requires forall i :: 0 <= i < |parts| ==> MagicFree(parts[i].0) && Encodable(hash, maxFrameSize, parts[i].1)
    ensures Feed(hash, maxFrameSize, Drain(hash, maxFrameSize, []), chunks) == Drained(FramesOf(parts), None, [])
  {
    ChunkingIsInvisible(hash, maxFrameSize, chunks, chunks);
    NoisyDrains(hash, maxFrameSize, parts);
  }

  lemma {:induction false} NoisyDrains(hash: Hash, maxFrameSize: nat, parts: seq<(seq<byte>, Frame)>)
    requires forall i :: 0 <= i < |parts| ==> MagicFree(parts[i].0) && Encodable(hash, maxFrameSize, parts[i].1)
    ensures Drain(hash, maxFrameSize, Noisy(parts)) == Drained(FramesOf(parts), None, [])
    decreases |parts|
  {
    if parts != [] {
      GarbageThenFrame(hash, maxFrameSize, parts[0].0, parts[0].1, Noisy(parts[1..]));
      NoisyDrains(hash, maxFrameSize, parts[1..]);
    }
  }
}
